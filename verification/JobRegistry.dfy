/** The guest-job registry as it runs: a dictionary and a store updated in place, store
    calls that may fail, and the compensation that keeps the two views in step. */
module JobRegistry {
  import opened Common
  import opened JobModel

  /** One evicted entry, as it was left, and the credential it held, for putting back. */
  datatype Undo = Undo(id: string, job: Job, cred: Option<Cred>)

  datatype Reservation = Took | Full | Failed

  datatype StartLeg = StartRaised | Pid(pid: int)

  datatype StartReply = Started | RegistryFull | StoreDown | LegFailed | NoPidReturned

  function LogIds(log: seq<Undo>): set<string> {
    if log == [] then {} else {log[0].id} + LogIds(log[1..])
  }

  /** The log holds what putting back takes, once for every job evicted from memory. */
  predicate Undoes(log: seq<Undo>, was: map<string, Job>) {
    log != [] ==>
      var u := log[0];
      && u.id in was && u.job.(cred := u.cred) == was[u.id]
      && u.id !in LogIds(log[1..]) && Undoes(log[1..], was)
  }

  lemma {:induction false} LogGrows(log: seq<Undo>, u: Undo, was: map<string, Job>)
    requires Undoes(log, was) && u.id !in LogIds(log) && u.id in was && u.job.(cred := u.cred) == was[u.id]
    ensures Undoes(log + [u], was) && LogIds(log + [u]) == LogIds(log) + {u.id}
  {
    if log == [] {
      assert log + [u] == [u] && [u][1..] == [];
    } else {
      LogGrows(log[1..], u, was);
      assert (log + [u])[1..] == log[1..] + [u];
    }
  }

  lemma IdsGrow(queue: seq<string>, i: nat)
    requires i < |queue|
    ensures Ids(queue[..i + 1]) == Ids(queue[..i]) + {queue[i]}
  {
    assert forall k | 0 <= k < i :: queue[..i + 1][k] == queue[..i][k];
    assert queue[..i + 1][i] == queue[i];
  }

  lemma RemoveAbsent<V>(m: map<string, V>, id: string)
    requires id !in m
    ensures m - {id} == m
  {}

  lemma RemoveAdded<V>(m: map<string, V>, id: string, v: V)
    requires id !in m
    ensures m[id := v] - {id} == m
  {}

  class Registry {
    var jobs: map<string, Job>
    var rows: map<string, Row>

    constructor ()
      ensures Valid() && Abs() == State(map[], map[])
    {
      jobs, rows := map[], map[];
    }

    function Abs(): State
      reads this
    {
      State(jobs, rows)
    }

    ghost predicate Valid()
      reads this
    {
      Sound(Abs())
    }

    // ---- eviction --------------------------------------------------------

    method EvictableNow() returns (ids: set<string>)
      ensures ids == Evictable(Abs())
    {
      ids := {};
      var left := jobs.Keys + rows.Keys;
      while left != {}
        invariant left <= Known(Abs())
        invariant ids == Evictable(Abs()) - left
        decreases left
      {
        var id :| id in left;
        if (id in jobs && jobs[id].stopped)
          || (id !in jobs && (rows[id].state == Stopped || rows[id].state == Orphaned)) {
          ids := ids + {id};
        }
        left := left - {id};
      }
    }

    method Oldest(among: set<string>) returns (id: string)
      requires among != {}
      ensures id in among && forall other | other in among :: AgeOf(Abs(), id) <= AgeOf(Abs(), other)
    {
      id :| id in among;
      var left := among;
      while left != {}
        invariant left <= among && id in among
        invariant forall other | other in among - left :: AgeOf(Abs(), id) <= AgeOf(Abs(), other)
        decreases left
      {
        var other :| other in left;
        if AgeOf(Abs(), other) < AgeOf(Abs(), id) {
          id := other;
        }
        left := left - {other};
      }
    }

    /** The ids of the evictable jobs, oldest first. */
    method ByAge() returns (queue: seq<string>)
      ensures OldestFirst(Abs(), queue) && Ids(queue) == Evictable(Abs())
    {
      var left := EvictableNow();
      ghost var s := Abs();
      queue := [];
      while left != {}
        invariant left <= Evictable(s) && Ids(queue) == Evictable(s) - left
        invariant OldestFirst(s, queue)
        invariant forall i, id | 0 <= i < |queue| && id in left :: AgeOf(s, queue[i]) <= AgeOf(s, id)
        decreases left
      {
        var next := Oldest(left);
        assert next !in Ids(queue);
        assert Ids(queue + [next]) == Ids(queue) + {next} by {
          assert (queue + [next])[|queue|] == next;
          assert forall i | 0 <= i < |queue| :: (queue + [next])[i] == queue[i];
        }
        queue := queue + [next];
        left := left - {next};
      }
    }

    /** Evict the first n jobs of the queue from both views, until the store fails. */
    method EvictFirst(queue: seq<string>, n: nat, breaks: nat -> bool)
      returns (log: seq<Undo>, failed: bool, ghost gone: set<string>)
      requires n <= |queue|
      modifies this
      ensures Undoes(log, old(jobs)) && LogIds(log) == gone * old(jobs).Keys && jobs == old(jobs) - gone
      ensures failed ==> exists k :: breaks(k)
      ensures !failed ==> gone == Ids(queue[..n]) && rows == old(rows) - gone
    {
      log, failed, gone := [], false, {};
      var i := 0;
      while i < n
        invariant 0 <= i <= n && gone == Ids(queue[..i]) && rows == old(rows) - gone
        invariant Undoes(log, old(jobs)) && LogIds(log) == gone * old(jobs).Keys && jobs == old(jobs) - gone
      {
        IdsGrow(queue, i);
        var id := queue[i];
        if id in jobs {
          var u := Undo(id, jobs[id].(cred := None), jobs[id].cred);
          LogGrows(log, u, old(jobs));
          log := log + [u];
          jobs := jobs - {id};
        }
        gone := gone + {id};
        if breaks(i) {
          return log, true, gone;
        }
        rows := rows - {id};
        i := i + 1;
      }
    }

    /** Make room: evict as many of the oldest evictable jobs as are needed and there. */
    method MakeRoom(breaks: nat -> bool) returns (log: seq<Undo>, failed: bool, ghost gone: set<string>)
      modifies this
      ensures Undoes(log, old(jobs)) && LogIds(log) == gone * old(jobs).Keys && jobs == old(jobs) - gone
      ensures failed ==> exists k :: breaks(k)
      ensures !failed ==> OldestEvicted(old(Abs()), gone) && rows == old(rows) - gone
    {
      log, failed, gone := [], false, {};
      var size := |jobs.Keys + rows.Keys|;
      if size >= MAX_JOBS {
        ghost var s := Abs();
        var queue := ByAge();
        var n := if size - MAX_JOBS + 1 <= |queue| then size - MAX_JOBS + 1 else |queue|;
        IdsCount(s, queue);
        FrontIsOldest(s, queue, n);
        log, failed, gone := EvictFirst(queue, n, breaks);
      }
    }

    /** Put back every evicted entry, with its credential. */
    method Restore(log: seq<Undo>, ghost was: map<string, Job>, ghost gone: set<string>)
      requires Undoes(log, was) && LogIds(log) == gone * was.Keys && jobs == was - gone
      modifies this`jobs
      ensures jobs == was
    {
      ghost var left := gone;
      var i := 0;
      while i < |log|
        invariant 0 <= i <= |log| && Undoes(log[i..], was)
        invariant LogIds(log[i..]) == left * was.Keys && jobs == was - left
      {
        var u := log[i];
        assert log[i..][1..] == log[i + 1..];
        jobs := jobs[u.id := u.job.(cred := u.cred)];
        left := left - {u.id};
        i := i + 1;
      }
      forall id | id in was ensures id !in left {
        assert id !in left * was.Keys;
      }
    }

    /** The store's transaction unwinds, and memory with it. */
    method Unwind(
      id: string, log: seq<Undo>, before: map<string, Row>, ghost was: map<string, Job>, ghost gone: set<string>
    )
      requires Undoes(log, was) && LogIds(log) == gone * was.Keys && jobs - {id} == was - gone
      modifies this
      ensures jobs == was && rows == before
    {
      jobs := jobs - {id};
      Restore(log, was, gone);
      rows := before;
    }

    /** The body of a reservation, up to whatever stops it. */
    method TryReserve(id: string, owner: Option<string>, now: int, vmId: string, breaks: nat -> bool, breaksLast: bool)
      returns (r: Reservation, log: seq<Undo>, ghost gone: set<string>)
      requires id !in Known(Abs())
      modifies this
      ensures Undoes(log, old(jobs)) && LogIds(log) == gone * old(jobs).Keys && jobs - {id} == old(jobs) - gone
      ensures r.Took? ==>
        && OldestEvicted(old(Abs()), gone) && |Known(old(Abs())) - Evictable(old(Abs()))| < MAX_JOBS
        && Abs() == Reserved(old(Abs()), id, owner, now, vmId, gone)
      ensures r.Full? ==> |Known(old(Abs())) - Evictable(old(Abs()))| >= MAX_JOBS
      ensures r.Failed? ==> breaksLast || exists k :: breaks(k)
    {
      ghost var s := Abs();
      var failed;
      log, failed, gone := MakeRoom(breaks);
      RemoveAbsent(jobs, id);
      if failed {
        return Failed, log, gone;
      }
      RoomIff(s, gone);
      if |jobs.Keys + rows.Keys| >= MAX_JOBS {
        return Full, log, gone;
      }
      RemoveAdded(jobs, id, Placeholder(owner, now));
      jobs := jobs[id := Placeholder(owner, now)];
      if breaksLast {
        return Failed, log, gone;
      }
      rows := rows[id := StartingRow(owner, now, vmId)];
      r := Took;
    }

    /** Reserve a slot for a new id, in both views, before the guest is entered. `breaks`
        says which of the deleting calls to the store fail, `breaksLast` whether the final
        write does. Whatever stops it leaves both views as they were. */
    method Reserve(id: string, owner: Option<string>, now: int, vmId: string, breaks: nat -> bool, breaksLast: bool)
      returns (r: Reservation, ghost evicted: set<string>)
      requires Valid() && id !in Known(Abs())
      modifies this
      ensures Valid()
      ensures r.Took? ==>
        && OldestEvicted(old(Abs()), evicted) && |Known(old(Abs())) - Evictable(old(Abs()))| < MAX_JOBS
        && Abs() == Reserved(old(Abs()), id, owner, now, vmId, evicted)
      ensures !r.Took? ==> Abs() == old(Abs())
      ensures r.Full? ==> |Known(old(Abs())) - Evictable(old(Abs()))| >= MAX_JOBS
      ensures r.Failed? ==> breaksLast || exists k :: breaks(k)
    {
      ghost var s := Abs();
      var before, log := rows, [];
      r, log, evicted := TryReserve(id, owner, now, vmId, breaks, breaksLast);
      if r.Took? {
        ReservedKeepsSound(s, id, owner, now, vmId, evicted);
      } else {
        Unwind(id, log, before, s.jobs, evicted);
      }
    }

    /** Withdraw a reservation. A row that cannot be deleted keeps its placeholder. */
    method Release(id: string, broken: bool)
      modifies this
      ensures Abs() == Released(old(Abs()), id, broken)
      ensures if id in old(jobs) && old(jobs)[id].inFlight && !broken
        then jobs == old(jobs) - {id} && rows == old(rows) - {id} else Abs() == old(Abs())
    {
      if id !in jobs || !jobs[id].inFlight {
        return;
      }
      var entry := jobs[id];
      jobs := jobs - {id};
      if broken {
        jobs := jobs[id := entry];
        assert jobs == old(jobs);
      } else {
        rows := rows - {id};
      }
    }

    /** Record a started job: the row first, and memory whether or not that worked. */
    method Register(id: string, job: Job, broken: bool)
      modifies this
      ensures Abs() == Registered(old(Abs()), id, job, broken)
    {
      if !broken {
        rows := rows[id := RowOf(job, Active)];
      }
      jobs := jobs[id := job];
    }

    /** Start a job. The guest is entered once, after the reservation; a start that yields
        no process gives the slot back. */
    method Start(id: string, owner: Option<string>, vmId: string, cred: Cred, now: int, later: int,
                 breaks: nat -> bool, breaksLast: bool, leg: StartLeg, deleteBroken: bool, writeBroken: bool)
      returns (reply: StartReply, ghost evicted: set<string>)
      requires Valid() && id !in Known(Abs())
      modifies this
      ensures Valid()
      ensures reply.Started? ==> leg.Pid? && leg.pid > 0 && Live(Abs(), id, cred, RefOf(Some(cred)))
      ensures !reply.Started? ==> (id in jobs <==> id in rows)
      ensures (reply.LegFailed? || reply.NoPidReturned?) && !deleteBroken ==>
        Abs() == State(old(jobs) - evicted, old(rows) - evicted)
      ensures reply.RegistryFull? || reply.StoreDown? ==> Abs() == old(Abs())
      ensures !reply.RegistryFull? && !reply.StoreDown? ==>
        var reserved := Reserved(old(Abs()), id, owner, now, vmId, evicted);
        && OldestEvicted(old(Abs()), evicted)
        && Abs() == if reply.Started?
             then Registered(reserved, id, StartedJob(owner, later, leg.pid, vmId, cred), writeBroken)
             else Released(reserved, id, deleteBroken)
      ensures !reply.RegistryFull? && !reply.StoreDown? ==>
        && (reply.Started? <==> leg.Pid? && leg.pid > 0) && (reply.LegFailed? <==> leg.StartRaised?)
      ensures reply.Started? ==>
        && jobs == (old(jobs) - evicted)[
             id := Job(Info(owner, later, leg.pid, vmId), false, None, false, Some(cred), "")]
        && rows == (old(rows) - evicted)[
             id := if writeBroken then Row(Info(owner, now, 0, vmId), Starting, "inline")
                   else Row(Info(owner, later, leg.pid, vmId), Active,
                            if cred.source == "" then "inline" else cred.source)]
      ensures (reply.LegFailed? || reply.NoPidReturned?) && deleteBroken ==>
        && jobs == (old(jobs) - evicted)[id := Job(Info(owner, now, 0, ""), true, None, false, None, "")]
        && rows == (old(rows) - evicted)[id := Row(Info(owner, now, 0, vmId), Starting, "inline")]
    {
      hide Reserved, Registered, Released, RowOf, Evictable, OldestEvicted, Sound;
      var r;
      r, evicted := Reserve(id, owner, now, vmId, breaks, breaksLast);
      match r
      case Full => return RegistryFull, evicted;
      case Failed => return StoreDown, evicted;
      case Took =>
      ghost var reserved := Abs();
      ReleaseUndoesReservation(old(Abs()), id, owner, now, vmId, evicted);
      ReleaseHeldBack(old(Abs()), id, owner, now, vmId, evicted);
      match leg
      case StartRaised =>
        ReleasedKeepsSound(reserved, id, deleteBroken);
        Release(id, deleteBroken);
        reply := StartReply.LegFailed;
      case Pid(pid) =>
        if pid <= 0 {
          ReleasedKeepsSound(reserved, id, deleteBroken);
          Release(id, deleteBroken);
          reply := NoPidReturned;
        } else {
          var job := StartedJob(owner, later, pid, vmId, cred);
          RegisteredRows(old(Abs()), id, owner, now, later, pid, vmId, cred, evicted, writeBroken);
          RegisteredKeepsSound(reserved, id, job, writeBroken);
          Register(id, job, writeBroken);
          reply := Started;
        }
    }

    // ---- the other operations ----------------------------------------------

    /** Find a job for a caller, restoring it from its row if memory lost it. The answer is
        a snapshot. */
    method Find(id: string, owner: Option<string>, broken: bool) returns (found: Result<Job, LookupError>)
      modifies this
      ensures (found, jobs) == Lookup(old(Abs()), id, owner, broken) && rows == old(rows)
    {
      if id == "" {
        return Err(IdRequired);
      }
      var entry: Option<Job> := if id in jobs then Some(jobs[id]) else None;
      if entry.None? {
        if broken {
          return Err(StoreBroken);
        }
        if id in rows && rows[id].info.owner == owner {
          var row := rows[id];
          if row.state == Starting {
            return Err(StillStarting);
          }
          entry := Some(Restored(row));
          if row.state != Orphaned {
            jobs := jobs[id := entry.value];
          }
        }
      }
      if entry.None? {
        return Err(Unknown);
      }
      return Checked(entry.value, owner);
    }

    method Observe(id: string, owner: Option<string>, readBroken: bool, resolved: Option<Cred>,
                   leg: StatusLeg, writeBroken: bool) returns (reply: StatusReply)
      requires Valid()
      modifies this
      ensures Valid() && (reply, Abs()) == Status(old(Abs()), id, owner, readBroken, resolved, leg, writeBroken)
    {
      StatusKeepsSound(Abs(), id, owner, readBroken, resolved, leg, writeBroken);
      var found := Find(id, owner, readBroken);
      if found.Err? {
        return NotFound(found.error);
      }
      var job := found.value;
      if job.stopped {
        return Answered("stopped");
      }
      if job.rowState == Some(Orphaned) {
        return Answered("orphaned");
      }
      if job.cred.None? && resolved.None? {
        return CannotAuthenticate;
      }
      if leg.LegRaised? {
        return LegError;
      }
      if leg.status == "exited" && !writeBroken {
        rows := rows[id := RowOf(job, Stopped)];
      }
      return Answered(leg.status);
    }

    method StopJob(id: string, owner: Option<string>, readBroken: bool, resolved: Option<Cred>,
                   leg: StopLeg, writeBroken: bool) returns (reply: StopReply)
      requires Valid()
      modifies this
      ensures Valid() && (reply, Abs()) == Stop(old(Abs()), id, owner, readBroken, resolved, leg, writeBroken)
    {
      StopKeepsSound(Abs(), id, owner, readBroken, resolved, leg, writeBroken);
      var found := Find(id, owner, readBroken);
      if found.Err? {
        return StopNotFound(found.error);
      }
      var job := found.value;
      if job.stopped {
        return WasStopped;
      }
      if job.rowState == Some(Orphaned) {
        return NoPid;
      }
      if job.cred.None? && resolved.None? {
        return NoCredential;
      }
      match leg
      case VmBusy => reply := Busy;
      case LegThrew => reply := GuestFailed;
      case Reported(_, None) => reply := BadPayload;
      case Reported(gone, Some(alive)) =>
        if !gone || alive != [] {
          return Survived(alive);
        }
        reply := SettleStop(id, writeBroken);
    }

    /** Pin the credential's source, write the row, and only then let go of the credential. */
    method SettleStop(id: string, writeBroken: bool) returns (reply: StopReply)
      requires id in jobs
      modifies this
      ensures (reply, Abs()) == Settle(old(Abs()), id, writeBroken)
    {
      if jobs[id].credRef == "" {
        jobs := jobs[id := jobs[id].(credRef := RefOf(jobs[id].cred))];
      }
      var job := jobs[id];
      assert job == old(jobs[id]).(credRef := RefOfJob(old(jobs[id])));
      assert jobs == old(jobs)[id := job];
      if writeBroken {
        return StoreFailed;
      }
      rows := rows[id := Row(job.info, Stopped, job.credRef)];
      jobs := jobs[id := job.(stopped := true, cred := None)];
      assert jobs == old(jobs)[id := job.(stopped := true, cred := None)];
      reply := TreeGone;
    }
  }

  /** Both views after a job was started. */
  lemma RegisteredRows(s: State, id: string, owner: Option<string>, now: int, later: int, pid: int, vmId: string,
                       cred: Cred, evicted: set<string>, broken: bool)
    ensures var reserved := Reserved(s, id, owner, now, vmId, evicted);
      var t := Registered(reserved, id, StartedJob(owner, later, pid, vmId, cred), broken);
      && id in reserved.jobs && reserved.jobs[id].inFlight && reserved.jobs[id].info.owner == owner
      && id in t.jobs && id in t.rows && Live(t, id, cred, RefOf(Some(cred)))
      && t.jobs == (s.jobs - evicted)[id := Job(Info(owner, later, pid, vmId), false, None, false, Some(cred), "")]
      && t.rows == (s.rows - evicted)[
           id := if broken then Row(Info(owner, now, 0, vmId), Starting, "inline")
                 else Row(Info(owner, later, pid, vmId), Active, if cred.source == "" then "inline" else cred.source)]
  {}

  /** Both views after a start that failed, and whose row could not be deleted either way. */
  lemma ReleaseHeldBack(s: State, id: string, owner: Option<string>, now: int, vmId: string, evicted: set<string>)
    ensures var t := Released(Reserved(s, id, owner, now, vmId, evicted), id, true);
      && t.jobs == (s.jobs - evicted)[id := Job(Info(owner, now, 0, ""), true, None, false, None, "")]
      && t.rows == (s.rows - evicted)[id := Row(Info(owner, now, 0, vmId), Starting, "inline")]
    ensures var u := Released(Reserved(s, id, owner, now, vmId, evicted), id, false);
      id !in Known(s) ==> id !in u.jobs && id !in u.rows
  {}

  function StartedJob(owner: Option<string>, at: int, pid: int, vmId: string, cred: Cred): Job {
    Job(Info(owner, at, pid, vmId), false, None, false, Some(cred), "")
  }
}
