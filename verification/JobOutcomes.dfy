/** What a caller of the job registry is told, what is written, and what survives a restart. */
module JobOutcomes {
  import opened Common
  import opened JobModel

  // ---- making room -------------------------------------------------------

  /** When a job started, as memory has it, or else its row. */
  predicate StartedAt(s: State, id: string, at: int) {
    if id in s.jobs then at == s.jobs[id].info.startedAt else id in s.rows && at == s.rows[id].info.startedAt
  }

  /** A job that may be dropped: one that memory has stopped, or one that only the rows
      know, as stopped or orphaned. */
  predicate Done(s: State, id: string) {
    if id in s.jobs then s.jobs[id].stopped else id in s.rows && s.rows[id].state in {Stopped, Orphaned}
  }

  /** Eviction drops only jobs that are done, none that started after one it keeps, and no
      more than it must: nothing while fewer than 128 are known, else as many as leave 127,
      or all that are done if that is not enough. */
  lemma EvictionOutcome(s: State, evicted: set<string>)
    requires OldestEvicted(s, evicted)
    ensures forall id | id in evicted :: Done(s, id)
    ensures forall out, kept, a, b | out in evicted && kept !in evicted && Done(s, kept)
                                     && StartedAt(s, out, a) && StartedAt(s, kept, b) :: a <= b
    ensures if |Known(s)| < 128 then evicted == {}
            else |Known(s) - evicted| == 127
                 || (|Known(s) - evicted| > 127 && forall id | Done(s, id) :: id in evicted)
  {
    EvictionSize(s, evicted);
    forall id ensures Done(s, id) <==> id in Evictable(s) {
      DoneIsEvictable(s, id);
    }
    hide Done, Evictable, Known, Needed;
    forall out, kept, a, b | out in evicted && kept !in evicted && Done(s, kept)
                             && StartedAt(s, out, a) && StartedAt(s, kept, b)
      ensures a <= b
    {
      assert kept in Evictable(s) - evicted && a == AgeOf(s, out) && b == AgeOf(s, kept);
    }
  }

  lemma DoneIsEvictable(s: State, id: string)
    ensures Done(s, id) <==> id in Evictable(s)
  {}

  lemma EvictionSize(s: State, evicted: set<string>)
    requires OldestEvicted(s, evicted)
    ensures if |Known(s)| < 128 then evicted == {}
            else |Known(s) - evicted| == 127 || (|Known(s) - evicted| > 127 && evicted == Evictable(s))
  {
    hide Known, AgeOf, IsEvictable;
    EvictableIsKnown(s);
    SubsetSize(evicted, Known(s));
    if |Known(s)| >= 128 && Needed(s) > |Evictable(s)| {
      SameSize(evicted, Evictable(s));
    }
  }

  lemma EvictableIsKnown(s: State)
    ensures Evictable(s) <= Known(s)
  {}

  lemma SameSize(a: set<string>, b: set<string>)
    requires a <= b && |a| == |b|
    ensures a == b
  {
    SubsetSize(a, b);
  }

  // ---- finding a job -----------------------------------------------------

  /** Memory holds a job under the id that the caller may see: its own, or any if the caller
      is unattributed. */
  predicate Visible(s: State, id: string, owner: Option<string>) {
    id in s.jobs && (owner.None? || s.jobs[id].info.owner == owner)
  }

  /** Memory has nothing under the id, and a row that can be read is the caller's. */
  predicate OnRecord(s: State, id: string, owner: Option<string>, broken: bool) {
    id !in s.jobs && !broken && id in s.rows && s.rows[id].info.owner == owner
  }

  /** The job as its row tells it: stopped exactly if the row says so, and without its
      credential, whose source the row names. */
  predicate ToldBy(job: Job, row: Row) {
    && job.info == row.info && job.credRef == row.credRef && job.rowState == Some(row.state)
    && (job.stopped <==> row.state.Stopped?) && job.cred.None? && !job.inFlight
  }

  /** A caller finds an entry that it may see, or a job that only its own row remembers,
      and nothing that is still starting; everything else is unknown, except that an id
      that memory does not know cannot be judged while the store cannot be read. */
  lemma LookupOutcome(s: State, id: string, owner: Option<string>, broken: bool)
    requires id != ""
    ensures var found := Lookup(s, id, owner, broken).0;
      && (found.Ok? <==>
            || (Visible(s, id, owner) && !s.jobs[id].inFlight)
            || (OnRecord(s, id, owner, broken) && !s.rows[id].state.Starting?))
      && (found.Ok? && id in s.jobs ==> found.value == s.jobs[id])
      && (found.Ok? && id !in s.jobs ==> ToldBy(found.value, s.rows[id]))
      && (found == Err(StillStarting) <==>
            || (Visible(s, id, owner) && s.jobs[id].inFlight)
            || (OnRecord(s, id, owner, broken) && s.rows[id].state.Starting?))
      && (found == Err(StoreBroken) <==> id !in s.jobs && broken)
      && found != Err(IdRequired)
    ensures Lookup(s, id, owner, broken).1 ==
      if OnRecord(s, id, owner, broken) && !s.rows[id].state.Starting? && !s.rows[id].state.Orphaned? then
        s.jobs[id := Lookup(s, id, owner, broken).0.value]
      else s.jobs
  {}

  lemma NoIdNoJob(s: State, owner: Option<string>, broken: bool)
    ensures Lookup(s, "", owner, broken) == (Err(IdRequired), s.jobs)
  {}

  // ---- asking and stopping -----------------------------------------------

  predicate IsOrphan(job: Job) {
    job.rowState == Some(Orphaned)
  }

  /** There is a process to ask or to stop, and a credential to enter the guest with: the
      job's own, or one that its source yields again. */
  predicate EntersGuest(job: Job, resolved: Option<Cred>) {
    !job.stopped && !IsOrphan(job) && (job.cred.Some? || resolved.Some?)
  }

  /** The stopped row of a job: the source of its credential is that on record, or else that
      of the credential it holds, "inline" if nobody recorded one. */
  predicate StoppedRow(job: Job, row: Row) {
    && row.info == job.info && row.state == Stopped
    && row.credRef == (
         if job.credRef != "" then job.credRef
         else if job.cred.Some? && job.cred.value.source != "" then job.cred.value.source else "inline")
  }

  /** A status request enters the guest unless the job is stopped, orphaned or without a
      credential, and then repeats what the guest says. An exit, and nothing else, retires
      the row, and only the row, if it can be written. */
  lemma StatusOutcome(s: State, id: string, owner: Option<string>, readBroken: bool, resolved: Option<Cred>,
                      leg: StatusLeg, writeBroken: bool)
    ensures var (reply, t) := Status(s, id, owner, readBroken, resolved, leg, writeBroken);
      var (found, jobs) := Lookup(s, id, owner, readBroken);
      && t.jobs == jobs
      && (found.Err? ==> reply == NotFound(found.error) && t.rows == s.rows)
      && (found.Ok? ==>
            var job := found.value;
            if job.stopped then reply == Answered("stopped") && t.rows == s.rows
            else if IsOrphan(job) then reply == Answered("orphaned") && t.rows == s.rows
            else if !EntersGuest(job, resolved) then reply == CannotAuthenticate && t.rows == s.rows
            else if leg.LegRaised? then reply == LegError && t.rows == s.rows
            else
              && reply == Answered(leg.status)
              && if leg.status == "exited" && !writeBroken then
                   t.rows.Keys == s.rows.Keys + {id} && StoppedRow(job, t.rows[id])
                   && forall k | k in s.rows && k != id :: t.rows[k] == s.rows[k]
                 else t.rows == s.rows)
  {
    hide Lookup;
  }

  /** A stop enters the guest in the same cases. It succeeds exactly when the guest says the
      tree is gone, names no survivor, and the stopped row is written; each other answer of
      the guest has its own reply and leaves the rows alone. */
  lemma StopOutcome(s: State, id: string, owner: Option<string>, readBroken: bool, resolved: Option<Cred>,
                    leg: StopLeg, writeBroken: bool)
    ensures var (reply, t) := Stop(s, id, owner, readBroken, resolved, leg, writeBroken);
      var found := Lookup(s, id, owner, readBroken).0;
      && (found.Err? ==> reply == StopNotFound(found.error))
      && (found.Ok? ==>
            var job := found.value;
            if job.stopped then reply == WasStopped
            else if IsOrphan(job) then reply == NoPid
            else if !EntersGuest(job, resolved) then reply == NoCredential
            else if leg.VmBusy? then reply == Busy
            else if leg.LegThrew? then reply == GuestFailed
            else if leg.alive.None? then reply == BadPayload
            else if leg.alive.value != [] || !leg.stopped then reply == Survived(leg.alive.value)
            else reply == if writeBroken then StoreFailed else TreeGone)
      && (!reply.TreeGone? ==> t.rows == s.rows)
      && (reply.TreeGone? ==>
            && t.rows.Keys == s.rows.Keys + {id} && StoppedRow(found.value, t.rows[id])
            && (forall k | k in s.rows && k != id :: t.rows[k] == s.rows[k])
            && id in t.jobs && t.jobs[id].stopped && t.jobs[id].cred.None?)
  {
    hide Lookup;
    StopSucceedsIff(s, id, owner, readBroken, resolved, leg, writeBroken);
    FailedStopKeepsCredential(s, id, owner, readBroken, resolved, leg, writeBroken);
  }

  // ---- a job whose process is gone and whose row is not ------------------

  /** After a restart, memory is empty and the rows are there: an active row's owner finds
      the job again, running, and a stop of it reaches the guest as soon as its credential
      can be resolved. Nobody else finds it, and it does not make room for another. */
  lemma ActiveSurvivesRestart(rows: map<string, Row>, id: string, owner: Option<string>, resolved: Option<Cred>,
                              leg: StopLeg, writeBroken: bool)
    requires id != "" && id in rows && rows[id].state == Active && rows[id].info.owner == owner
    ensures var s := State(map[], rows);
      && !IsEvictable(s, id)
      && Lookup(s, id, owner, false).0.Ok?
      && ToldBy(Lookup(s, id, owner, false).0.value, rows[id])
      && (forall other | other != owner :: Lookup(s, id, other, false).0 == Err(Unknown))
      && var reply := Stop(s, id, owner, false, resolved, leg, writeBroken).0;
         if resolved.None? then reply == NoCredential
         else reply in {Busy, GuestFailed, BadPayload, StoreFailed, TreeGone} || reply.Survived?
    ensures resolved.Some? && !writeBroken ==>
      Stop(State(map[], rows), id, owner, false, resolved, Reported(true, Some([])), false).0 == TreeGone
  {
    var s := State(map[], rows);
    LookupOutcome(s, id, owner, false);
    StopOutcome(s, id, owner, false, resolved, leg, writeBroken);
    StopOutcome(s, id, owner, false, resolved, Reported(true, Some([])), false);
  }
}
