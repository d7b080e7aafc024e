/** Guest jobs on values: a registry in memory and the durable rows beside it. The
    registry that changes in place (JobRegistry) is proved to follow these functions. */
module JobModel {
  import opened Common

  /** Both views together may hold this many jobs. */
  const MAX_JOBS: nat := 128

  /** A credential and where it came from; "" when nobody recorded that. */
  datatype Cred = Cred(source: string, secret: string)

  datatype RowState = Starting | Active | Stopped | Orphaned

  /** What a job is and never changes. Start times are ordered as their timestamps are. */
  datatype Info = Info(owner: Option<string>, startedAt: int, pid: int, vmId: string)

  datatype Row = Row(info: Info, state: RowState, credRef: string)

  /** An entry in memory. An entry rebuilt from a row remembers the row's state. */
  datatype Job = Job(
    info: Info, inFlight: bool, rowState: Option<RowState>,
    stopped: bool, cred: Option<Cred>, credRef: string)

  datatype State = State(jobs: map<string, Job>, rows: map<string, Row>)

  function RefOf(cred: Option<Cred>): string {
    if cred.None? || cred.value.source == "" then "inline" else cred.value.source
  }

  function RefOfJob(job: Job): string {
    if job.credRef != "" then job.credRef else RefOf(job.cred)
  }

  function RowOf(job: Job, state: RowState): Row {
    Row(job.info, state, RefOfJob(job))
  }

  function Restored(row: Row): Job {
    Job(row.info, false, Some(row.state), row.state == Stopped, None, row.credRef)
  }

  /** The job was started, and registered, by this process. */
  predicate StartedHere(job: Job) {
    !job.inFlight && job.rowState.None?
  }

  // ---- what every operation keeps ----------------------------------------

  ghost predicate OwnersAgree(s: State) {
    forall id | id in s.jobs && id in s.rows :: s.jobs[id].info.owner == s.rows[id].info.owner
  }

  /** A job started here holds its credential exactly until it is stopped; no other entry
      holds one; a placeholder or a cached row is never taken for something else. */
  predicate CredentialKept(job: Job) {
    && (StartedHere(job) ==> (job.cred.None? <==> job.stopped))
    && (!StartedHere(job) ==> job.cred.None?)
    && (job.inFlight ==> !job.stopped && job.rowState.None?)
    && (job.rowState.Some? ==> job.rowState.value != Starting && job.rowState.value != Orphaned)
  }

  ghost predicate CredentialsKept(s: State) {
    forall id | id in s.jobs :: CredentialKept(s.jobs[id])
  }

  /** No entry is stopped ahead of its row. */
  ghost predicate StoppedIsDurable(s: State) {
    forall id | id in s.jobs && id in s.rows && s.jobs[id].stopped :: s.rows[id].state == Stopped
  }

  ghost predicate Sound(s: State) {
    OwnersAgree(s) && CredentialsKept(s) && StoppedIsDurable(s)
  }

  // ---- reservation -------------------------------------------------------

  function Known(s: State): set<string> {
    s.jobs.Keys + s.rows.Keys
  }

  /** Memory decides where it knows the job, the row where it does not. */
  predicate IsEvictable(s: State, id: string) {
    if id in s.jobs then s.jobs[id].stopped
    else id in s.rows && (s.rows[id].state == Stopped || s.rows[id].state == Orphaned)
  }

  function Evictable(s: State): set<string> {
    set id | id in Known(s) && IsEvictable(s, id)
  }

  function AgeOf(s: State, id: string): int {
    if id in s.jobs then s.jobs[id].info.startedAt
    else if id in s.rows then s.rows[id].info.startedAt else 0
  }

  /** How many jobs must go before one more fits. */
  function Needed(s: State): nat {
    if |Known(s)| < MAX_JOBS then 0 else |Known(s)| - MAX_JOBS + 1
  }

  /** The evicted jobs: as many of the oldest evictable ones as are needed and there. */
  ghost predicate OldestEvicted(s: State, evicted: set<string>) {
    && evicted <= Evictable(s)
    && |evicted| == (if Needed(s) <= |Evictable(s)| then Needed(s) else |Evictable(s)|)
    && forall out, kept | out in evicted && kept in Evictable(s) - evicted :: AgeOf(s, out) <= AgeOf(s, kept)
  }

  /** The evictable jobs in the order they would go. */
  ghost predicate OldestFirst(s: State, queue: seq<string>) {
    forall i, j | 0 <= i < j < |queue| :: queue[i] != queue[j] && AgeOf(s, queue[i]) <= AgeOf(s, queue[j])
  }

  function Ids(queue: seq<string>): set<string> {
    set i | 0 <= i < |queue| :: queue[i]
  }

  lemma {:induction false} IdsCount(s: State, queue: seq<string>)
    requires OldestFirst(s, queue)
    ensures |Ids(queue)| == |queue|
  {
    if queue != [] {
      var front, last := queue[..|queue| - 1], queue[|queue| - 1];
      IdsCount(s, front);
      assert Ids(queue) == Ids(front) + {last};
      assert last !in Ids(front);
    }
  }

  /** The front of the queue, as far as it is needed, is what eviction must remove. */
  lemma FrontIsOldest(s: State, queue: seq<string>, n: nat)
    requires OldestFirst(s, queue) && Ids(queue) == Evictable(s)
    requires n == if Needed(s) <= |queue| then Needed(s) else |queue|
    ensures OldestEvicted(s, Ids(queue[..n]))
  {
    IdsCount(s, queue);
    IdsCount(s, queue[..n]);
    forall j | 0 <= j < n ensures queue[j] in Ids(queue[..n]) {
      assert queue[..n][j] == queue[j];
    }
    forall out, kept | out in Ids(queue[..n]) && kept in Evictable(s) - Ids(queue[..n])
      ensures AgeOf(s, out) <= AgeOf(s, kept)
    {
      var i :| 0 <= i < n && queue[i] == out;
      var j :| 0 <= j < |queue| && queue[j] == kept;
    }
  }

  function Placeholder(owner: Option<string>, now: int): Job {
    Job(Info(owner, now, 0, ""), true, None, false, None, "")
  }

  function StartingRow(owner: Option<string>, now: int, vmId: string): Row {
    Row(Info(owner, now, 0, vmId), Starting, "inline")
  }

  function Reserved(s: State, id: string, owner: Option<string>, now: int, vmId: string, evicted: set<string>): State {
    State((s.jobs - evicted)[id := Placeholder(owner, now)],
          (s.rows - evicted)[id := StartingRow(owner, now, vmId)])
  }

  lemma SubsetSize(a: set<string>, b: set<string>)
    requires a <= b
    ensures |b - a| == |b| - |a|
  {
    assert a + (b - a) == b;
  }

  lemma KnownLeft(s: State, evicted: set<string>)
    ensures Known(State(s.jobs - evicted, s.rows - evicted)) == Known(s) - evicted
  {}

  /** There is room after eviction exactly when the jobs that cannot be evicted leave some. */
  lemma RoomIff(s: State, evicted: set<string>)
    requires OldestEvicted(s, evicted)
    ensures |Known(State(s.jobs - evicted, s.rows - evicted))| < MAX_JOBS <==> |Known(s) - Evictable(s)| < MAX_JOBS
  {
    KnownLeft(s, evicted);
    SubsetSize(evicted, Known(s));
    SubsetSize(Evictable(s), Known(s));
  }

  lemma ReservedKnown(s: State, id: string, owner: Option<string>, now: int, vmId: string, evicted: set<string>)
    ensures Known(Reserved(s, id, owner, now, vmId, evicted)) == Known(s) - evicted + {id}
  {
    var t := Reserved(s, id, owner, now, vmId, evicted);
    assert t.jobs.Keys == s.jobs.Keys - evicted + {id};
    assert t.rows.Keys == s.rows.Keys - evicted + {id};
  }

  /** A reservation puts the new job in both views, drops no other than the evicted ones
      and stays within the cap. */
  lemma ReservedFits(s: State, id: string, owner: Option<string>, now: int, vmId: string, evicted: set<string>)
    requires OldestEvicted(s, evicted) && id !in Known(s) && |Known(s) - Evictable(s)| < MAX_JOBS
    ensures var t := Reserved(s, id, owner, now, vmId, evicted);
      Known(t) == Known(s) - evicted + {id} && |Known(t)| <= MAX_JOBS && id in t.jobs && id in t.rows
  {
    RoomIff(s, evicted);
    KnownLeft(s, evicted);
    ReservedKnown(s, id, owner, now, vmId, evicted);
  }

  /** A job that memory holds and has not stopped outlives every reservation, unchanged. */
  lemma ReservedKeepsLive(s: State, id: string, owner: Option<string>, now: int, vmId: string,
                          evicted: set<string>, other: string)
    requires OldestEvicted(s, evicted) && id !in Known(s)
    requires other in s.jobs && !s.jobs[other].stopped
    ensures var t := Reserved(s, id, owner, now, vmId, evicted);
      other in t.jobs && t.jobs[other] == s.jobs[other] && (other in t.rows <==> other in s.rows)
  {
    assert other !in Evictable(s);
  }

  /** Eviction destroys no credential that is still in use. */
  lemma EvictedHoldNoCredential(s: State, evicted: set<string>)
    requires Sound(s) && OldestEvicted(s, evicted)
    ensures forall id | id in evicted && id in s.jobs :: s.jobs[id].cred.None?
  {
    forall id | id in evicted && id in s.jobs ensures s.jobs[id].cred.None? {
      assert CredentialKept(s.jobs[id]) && IsEvictable(s, id);
    }
  }

  lemma ReservedKeepsSound(s: State, id: string, owner: Option<string>, now: int, vmId: string, evicted: set<string>)
    requires Sound(s) && id !in Known(s)
    ensures Sound(Reserved(s, id, owner, now, vmId, evicted))
  {}

  // ---- lookup ------------------------------------------------------------

  datatype LookupError = IdRequired | Unknown | StillStarting | StoreBroken

  /** What a caller finds under an id, and the registry with whatever was cached. */
  function Lookup(s: State, id: string, owner: Option<string>, broken: bool):
    (r: (Result<Job, LookupError>, map<string, Job>))
    ensures r.0.Ok? ==> (id in r.1 && r.1[id] == r.0.value) || r.0.value.rowState == Some(Orphaned)
    ensures r.0.Ok? ==> !r.0.value.inFlight
  {
    if id == "" then (Err(IdRequired), s.jobs)
    else if id in s.jobs then (Checked(s.jobs[id], owner), s.jobs)
    else if broken then (Err(StoreBroken), s.jobs)
    else if id !in s.rows || s.rows[id].info.owner != owner then (Err(Unknown), s.jobs)
    else if s.rows[id].state == Starting then (Err(StillStarting), s.jobs)
    else
      var job := Restored(s.rows[id]);
      (Checked(job, owner), if s.rows[id].state == Orphaned then s.jobs else s.jobs[id := job])
  }

  /** An attributed caller reaches its own jobs only; nobody reaches one still starting. */
  function Checked(job: Job, owner: Option<string>): (r: Result<Job, LookupError>)
    ensures r.Ok? ==> r.value == job
  {
    if owner.Some? && job.info.owner != owner then Err(Unknown)
    else if job.inFlight then Err(StillStarting)
    else Ok(job)
  }

  lemma LookupKeepsSound(s: State, id: string, owner: Option<string>, broken: bool)
    requires Sound(s)
    ensures Sound(s.(jobs := Lookup(s, id, owner, broken).1))
  {}

  /** Looking up a job neither forgets one nor makes one up. */
  lemma LookupKeepsKnown(s: State, id: string, owner: Option<string>, broken: bool)
    ensures Known(s.(jobs := Lookup(s, id, owner, broken).1)) == Known(s)
  {}

  /** What is left of both views when everybody else's jobs are taken away. */
  function Own(s: State, p: string): State {
    State(map id | id in s.jobs && s.jobs[id].info.owner == Some(p) :: s.jobs[id],
          map id | id in s.rows && s.rows[id].info.owner == Some(p) :: s.rows[id])
  }

  /** What a principal finds depends on its own jobs alone, so a foreign job, a foreign
      start and a foreign row answer like no job at all. The exception is a store that
      cannot be read: then an id that memory holds for somebody else is still answered
      from memory while an absent one reports the failure. */
  lemma LookupHidesOthersIff(s: State, id: string, p: string, broken: bool)
    requires OwnersAgree(s)
    ensures Lookup(s, id, Some(p), broken).0 == Lookup(Own(s, p), id, Some(p), broken).0
      <==> id == "" || !broken || id !in s.jobs || id in Own(s, p).jobs
    ensures Own(s.(jobs := Lookup(s, id, Some(p), broken).1), p).jobs == Lookup(Own(s, p), id, Some(p), broken).1
  {
    hide Own;
    OwnAt(s, id, p);
    OwnCaches(s, id, p, broken);
  }

  /** Such an id: memory holds it for somebody else, and the store cannot be read. The
      caller is told that it is unknown, and of an id that nobody holds, that the store
      failed. */
  lemma BrokenStoreTells()
    ensures var info := Info(Some("q"), 0, 1, "vm");
      var s := State(map["j" := Job(info, false, None, false, Some(Cred("env", "")), "")], map[]);
      && OwnersAgree(s)
      && Lookup(s, "j", Some("p"), true).0 == Err(Unknown)
      && Lookup(s, "k", Some("p"), true).0 == Err(StoreBroken)
      && Lookup(Own(s, "p"), "j", Some("p"), true).0 == Err(StoreBroken)
  {}

  /** What one's own view holds under an id. */
  lemma OwnAt(s: State, id: string, p: string)
    requires OwnersAgree(s)
    ensures id in Own(s, p).jobs <==> id in s.jobs && s.jobs[id].info.owner == Some(p)
    ensures id in Own(s, p).jobs ==> Own(s, p).jobs[id] == s.jobs[id]
    ensures id in Own(s, p).rows <==> id in s.rows && s.rows[id].info.owner == Some(p)
    ensures id in Own(s, p).rows ==> Own(s, p).rows[id] == s.rows[id]
    ensures id in Own(s, p).rows && id in s.jobs ==> id in Own(s, p).jobs
  {}

  lemma OwnCaches(s: State, id: string, p: string, broken: bool)
    requires OwnersAgree(s)
    ensures Own(s.(jobs := Lookup(s, id, Some(p), broken).1), p).jobs == Lookup(Own(s, p), id, Some(p), broken).1
  {
    OwnAt(s, id, p);
  }

  // ---- status ------------------------------------------------------------

  datatype StatusLeg = LegRaised | Says(status: string)

  datatype StatusReply = NotFound(error: LookupError) | CannotAuthenticate | LegError | Answered(status: string)

  /** An observed exit retires the row only: memory keeps the job stoppable. */
  function Status(s: State, id: string, owner: Option<string>, readBroken: bool, resolved: Option<Cred>,
                  leg: StatusLeg, writeBroken: bool): (StatusReply, State)
  {
    var (found, jobs) := Lookup(s, id, owner, readBroken);
    var t := s.(jobs := jobs);
    if found.Err? then (NotFound(found.error), t)
    else if found.value.stopped then (Answered("stopped"), t)
    else if found.value.rowState == Some(Orphaned) then (Answered("orphaned"), t)
    else if found.value.cred.None? && resolved.None? then (CannotAuthenticate, t)
    else if leg.LegRaised? then (LegError, t)
    else if leg.status == "exited" && !writeBroken then
      (Answered(leg.status), t.(rows := t.rows[id := RowOf(found.value, Stopped)]))
    else (Answered(leg.status), t)
  }

  /** Retiring a row, as an observed exit does, disturbs nothing. */
  lemma RetiredKeepsSound(s: State, id: string, job: Job)
    requires Sound(s) && id in s.jobs && job == s.jobs[id]
    ensures Sound(s.(rows := s.rows[id := RowOf(job, Stopped)]))
  {}

  lemma StatusKeepsSound(s: State, id: string, owner: Option<string>, readBroken: bool, resolved: Option<Cred>,
                         leg: StatusLeg, writeBroken: bool)
    requires Sound(s)
    ensures Sound(Status(s, id, owner, readBroken, resolved, leg, writeBroken).1)
  {
    hide Lookup, Sound;
    LookupKeepsSound(s, id, owner, readBroken);
    var (found, jobs) := Lookup(s, id, owner, readBroken);
    if found.Ok? && found.value.rowState != Some(Orphaned) {
      RetiredKeepsSound(s.(jobs := jobs), id, found.value);
    }
  }

  /** Asking for a status changes no entry and forgets no job. */
  lemma StatusOnlyReads(s: State, id: string, owner: Option<string>, readBroken: bool, resolved: Option<Cred>,
                        leg: StatusLeg, writeBroken: bool)
    ensures var t := Status(s, id, owner, readBroken, resolved, leg, writeBroken).1;
      forall k | k in s.jobs :: k in t.jobs && t.jobs[k] == s.jobs[k]
    ensures var t := Status(s, id, owner, readBroken, resolved, leg, writeBroken).1;
      forall k | k in s.rows :: k in t.rows && (t.rows[k] == s.rows[k] || (k == id && t.rows[k].state == Stopped))
  {
    hide Lookup;
    LookupCaches(s, id, owner, readBroken);
  }

  // ---- stop --------------------------------------------------------------

  /** What the guest answers. A list of survivors with a member that is no number is None. */
  datatype StopLeg = VmBusy | LegThrew | Reported(stopped: bool, alive: Option<seq<int>>)

  datatype StopReply =
    | StopNotFound(error: LookupError) | WasStopped | NoPid | NoCredential
    | Busy | GuestFailed | BadPayload | Survived(alive: seq<int>) | StoreFailed | TreeGone

  function Stop(s: State, id: string, owner: Option<string>, readBroken: bool, resolved: Option<Cred>,
                leg: StopLeg, writeBroken: bool): (StopReply, State)
  {
    var (found, jobs) := Lookup(s, id, owner, readBroken);
    var t := s.(jobs := jobs);
    if found.Err? then (StopNotFound(found.error), t)
    else if found.value.stopped then (WasStopped, t)
    else if found.value.rowState == Some(Orphaned) then (NoPid, t)
    else if found.value.cred.None? && resolved.None? then (NoCredential, t)
    else match leg
      case VmBusy => (Busy, t)
      case LegThrew => (GuestFailed, t)
      case Reported(_, None) => (BadPayload, t)
      case Reported(gone, Some(alive)) =>
        if gone && alive == [] then Settle(t, id, writeBroken) else (Survived(alive), t)
  }

  /** Pin where the credential came from, write the row, and only then let go of it. */
  function Settle(s: State, id: string, writeBroken: bool): (StopReply, State)
    requires id in s.jobs
  {
    var job := s.jobs[id].(credRef := RefOfJob(s.jobs[id]));
    if writeBroken then (StoreFailed, s.(jobs := s.jobs[id := job]))
    else (TreeGone, State(s.jobs[id := job.(stopped := true, cred := None)], s.rows[id := RowOf(job, Stopped)]))
  }

  lemma StopKeepsSound(s: State, id: string, owner: Option<string>, readBroken: bool, resolved: Option<Cred>,
                       leg: StopLeg, writeBroken: bool)
    requires Sound(s)
    ensures Sound(Stop(s, id, owner, readBroken, resolved, leg, writeBroken).1)
  {
    hide Stop, Lookup, Sound, Settle;
    LookupKeepsSound(s, id, owner, readBroken);
    StopShape(s, id, owner, readBroken, resolved, leg, writeBroken);
    var (found, jobs) := Lookup(s, id, owner, readBroken);
    if found.Ok? && found.value.rowState != Some(Orphaned) {
      SettleKeepsSound(s.(jobs := jobs), id, writeBroken);
    }
  }

  /** A stop changes nothing but what the lookup cached, unless it settles the job. */
  lemma StopShape(s: State, id: string, owner: Option<string>, readBroken: bool, resolved: Option<Cred>,
                  leg: StopLeg, writeBroken: bool)
    ensures var (reply, t) := Stop(s, id, owner, readBroken, resolved, leg, writeBroken);
      var (found, jobs) := Lookup(s, id, owner, readBroken);
      if reply.TreeGone? || reply.StoreFailed? then
        && found.Ok? && found.value.rowState != Some(Orphaned)
        && (reply, t) == Settle(s.(jobs := jobs), id, writeBroken)
      else t == s.(jobs := jobs)
  {
    hide Lookup;
  }

  /** Looking up caches at most the id itself, and only where memory had nothing. */
  lemma LookupCaches(s: State, id: string, owner: Option<string>, broken: bool)
    ensures var jobs := Lookup(s, id, owner, broken).1;
      jobs == s.jobs || (id !in s.jobs && id in jobs && jobs == s.jobs[id := jobs[id]])
  {}

  lemma SettleKeepsSound(s: State, id: string, writeBroken: bool)
    requires Sound(s) && id in s.jobs && !s.jobs[id].inFlight
    ensures Sound(Settle(s, id, writeBroken).1)
  {}

  /** A stop succeeds exactly when the guest said the tree is gone, with no survivor, and
      the stopped row was written, naming the credential's real source. */
  lemma StopSucceedsIff(s: State, id: string, owner: Option<string>, readBroken: bool, resolved: Option<Cred>,
                        leg: StopLeg, writeBroken: bool)
    ensures var (reply, t) := Stop(s, id, owner, readBroken, resolved, leg, writeBroken);
      var (found, jobs) := Lookup(s, id, owner, readBroken);
      && (reply.TreeGone? <==>
          found.Ok? && !found.value.stopped && found.value.rowState != Some(Orphaned)
          && (found.value.cred.Some? || resolved.Some?) && leg == Reported(true, Some([])) && !writeBroken)
      && (reply.TreeGone? ==>
          && t.rows == s.rows[id := Row(found.value.info, Stopped, RefOfJob(found.value))]
          && t.jobs == jobs[id := found.value.(credRef := RefOfJob(found.value), stopped := true, cred := None)])
  {}

  /** Any other stop leaves the rows and every entry as they were, credential included, so
      it can be tried again. At most it recorded where the credential came from. */
  lemma FailedStopKeepsCredential(s: State, id: string, owner: Option<string>, readBroken: bool,
                                  resolved: Option<Cred>, leg: StopLeg, writeBroken: bool)
    ensures var (reply, t) := Stop(s, id, owner, readBroken, resolved, leg, writeBroken);
      !reply.TreeGone? ==>
        t.rows == s.rows && forall k | k in s.jobs :: k in t.jobs && SameButPinned(s.jobs[k], t.jobs[k])
  {
    hide Stop, Lookup;
    StopShape(s, id, owner, readBroken, resolved, leg, writeBroken);
    LookupCaches(s, id, owner, readBroken);
  }

  predicate SameButPinned(before: Job, after: Job) {
    after.(credRef := before.credRef) == before && RefOfJob(after) == RefOfJob(before)
  }

  /** A job started here never needs its credential resolved a second time. */
  lemma LiveJobAuthenticates(s: State, id: string, owner: Option<string>, readBroken: bool,
                             leg: StopLeg, writeBroken: bool)
    requires Sound(s) && id in s.jobs && StartedHere(s.jobs[id])
    ensures !Stop(s, id, owner, readBroken, None, leg, writeBroken).0.NoCredential?
  {
    assert CredentialKept(s.jobs[id]);
  }

  // ---- principals do not see or touch each other's jobs ------------------

  lemma LookupDependsOnOwn(s: State, t: State, id: string, p: string)
    requires OwnersAgree(s) && OwnersAgree(t) && Own(s, p) == Own(t, p)
    ensures var (found, jobs) := Lookup(s, id, Some(p), false);
      && Lookup(t, id, Some(p), false).0 == found
      && Own(s.(jobs := jobs), p) == Own(t.(jobs := Lookup(t, id, Some(p), false).1), p)
  {
    hide Lookup, Own;
    LookupHidesOthersIff(s, id, p, false);
    LookupHidesOthersIff(t, id, p, false);
    OwnRows(s, Lookup(s, id, Some(p), false).1, p);
    OwnRows(t, Lookup(t, id, Some(p), false).1, p);
  }

  lemma OwnRows(s: State, jobs: map<string, Job>, p: string)
    ensures Own(s.(jobs := jobs), p).rows == Own(s, p).rows
  {}

  /** Changing one's own job is changing it in one's own view. */
  lemma OwnUpdates(s: State, id: string, p: string, job: Job, row: Row)
    requires id in s.jobs && s.jobs[id].info.owner == Some(p) == job.info.owner && row.info.owner == Some(p)
    ensures Own(s.(jobs := s.jobs[id := job]), p) == Own(s, p).(jobs := Own(s, p).jobs[id := job])
    ensures Own(s.(rows := s.rows[id := row]), p) == Own(s, p).(rows := Own(s, p).rows[id := row])
  {}

  lemma FoundIsOwn(s: State, id: string, p: string)
    ensures var (found, jobs) := Lookup(s, id, Some(p), false);
      found.Ok? ==>
        && found.value.info.owner == Some(p)
        && (found.value.rowState != Some(Orphaned) ==>
             id in jobs && jobs[id] == found.value && id in Own(s.(jobs := jobs), p).jobs)
  {}

  /** A status answer, and what it leaves of the caller's own jobs, depend on those alone. */
  lemma StatusDependsOnOwn(s: State, t: State, id: string, p: string, resolved: Option<Cred>,
                           leg: StatusLeg, writeBroken: bool)
    requires OwnersAgree(s) && OwnersAgree(t) && Own(s, p) == Own(t, p)
    ensures var (reply, s') := Status(s, id, Some(p), false, resolved, leg, writeBroken);
      var (other, t') := Status(t, id, Some(p), false, resolved, leg, writeBroken);
      reply == other && Own(s', p) == Own(t', p)
  {
    hide Lookup, Own;
    LookupDependsOnOwn(s, t, id, p);
    FoundIsOwn(s, id, p);
    FoundIsOwn(t, id, p);
    var (found, jobs) := Lookup(s, id, Some(p), false);
    var others := Lookup(t, id, Some(p), false).1;
    if found.Ok? && found.value.rowState != Some(Orphaned) {
      var row := RowOf(found.value, Stopped);
      OwnUpdates(s.(jobs := jobs), id, p, found.value, row);
      OwnUpdates(t.(jobs := others), id, p, found.value, row);
    }
  }

  /** So do the answer to a stop and what it leaves: two registries that agree on a
      principal's jobs are the same registry to it, whatever else they hold. */
  lemma StopDependsOnOwn(s: State, t: State, id: string, p: string, resolved: Option<Cred>,
                         leg: StopLeg, writeBroken: bool)
    requires OwnersAgree(s) && OwnersAgree(t) && Own(s, p) == Own(t, p)
    ensures var (reply, s') := Stop(s, id, Some(p), false, resolved, leg, writeBroken);
      var (other, t') := Stop(t, id, Some(p), false, resolved, leg, writeBroken);
      reply == other && Own(s', p) == Own(t', p)
  {
    hide Lookup, Own, Settle;
    LookupDependsOnOwn(s, t, id, p);
    FoundIsOwn(s, id, p);
    FoundIsOwn(t, id, p);
    var (found, jobs) := Lookup(s, id, Some(p), false);
    if found.Ok? && found.value.rowState != Some(Orphaned) {
      SettleDependsOnOwn(s.(jobs := jobs), t.(jobs := Lookup(t, id, Some(p), false).1), id, p, writeBroken);
    }
  }

  lemma SettleDependsOnOwn(s: State, t: State, id: string, p: string, writeBroken: bool)
    requires id in s.jobs && id in t.jobs && s.jobs[id] == t.jobs[id] && s.jobs[id].info.owner == Some(p)
    requires Own(s, p) == Own(t, p)
    ensures Settle(s, id, writeBroken).0 == Settle(t, id, writeBroken).0
    ensures Own(Settle(s, id, writeBroken).1, p) == Own(Settle(t, id, writeBroken).1, p)
  {
    hide Own;
    var job := s.jobs[id].(credRef := RefOfJob(s.jobs[id]));
    var gone, row := job.(stopped := true, cred := None), RowOf(job, Stopped);
    OwnUpdates(s, id, p, job, row);
    OwnUpdates(t, id, p, job, row);
    OwnUpdates(s, id, p, gone, row);
    OwnUpdates(t, id, p, gone, row);
    OwnUpdates(s.(jobs := s.jobs[id := gone]), id, p, gone, row);
    OwnUpdates(t.(jobs := t.jobs[id := gone]), id, p, gone, row);
  }

  /** And whatever a principal stops or asks about, nothing of anybody else changes. */
  lemma OthersUntouched(s: State, id: string, p: string, readBroken: bool, resolved: Option<Cred>,
                        leg: StopLeg, look: StatusLeg, writeBroken: bool, other: string)
    requires OwnersAgree(s)
    requires other in s.jobs ==> s.jobs[other].info.owner != Some(p)
    requires other in s.rows ==> s.rows[other].info.owner != Some(p)
    requires other in Known(s)
    ensures SameAt(s, Stop(s, id, Some(p), readBroken, resolved, leg, writeBroken).1, other)
    ensures SameAt(s, Status(s, id, Some(p), readBroken, resolved, look, writeBroken).1, other)
  {
    hide SameAt;
    if other == id {
      SameEverywhere(s, id);
      ForeignIsRefused(s, id, p, readBroken);
    } else {
      hide Stop, Status;
      OnlyOneChanges(s, id, Some(p), readBroken, resolved, leg, look, writeBroken, other);
    }
  }

  lemma SameEverywhere(s: State, id: string)
    ensures SameAt(s, s, id)
  {}

  lemma ForeignIsRefused(s: State, id: string, p: string, broken: bool)
    requires id in Known(s)
    requires id in s.jobs ==> s.jobs[id].info.owner != Some(p)
    requires id in s.rows ==> s.rows[id].info.owner != Some(p)
    ensures Lookup(s, id, Some(p), broken).0.Err? && Lookup(s, id, Some(p), broken).1 == s.jobs
  {}

  lemma OnlyOneChanges(s: State, id: string, owner: Option<string>, readBroken: bool, resolved: Option<Cred>,
                       leg: StopLeg, look: StatusLeg, writeBroken: bool, other: string)
    requires other != id
    ensures SameAt(s, Stop(s, id, owner, readBroken, resolved, leg, writeBroken).1, other)
    ensures SameAt(s, Status(s, id, owner, readBroken, resolved, look, writeBroken).1, other)
  {
    hide Stop, Lookup;
    StopShape(s, id, owner, readBroken, resolved, leg, writeBroken);
    LookupCaches(s, id, owner, readBroken);
  }

  predicate SameAt(s: State, t: State, id: string) {
    && (id in s.jobs <==> id in t.jobs) && (id in s.jobs ==> s.jobs[id] == t.jobs[id])
    && (id in s.rows <==> id in t.rows) && (id in s.rows ==> s.rows[id] == t.rows[id])
  }

  // ---- registration and release ------------------------------------------

  /** A started job, row first; a row that cannot be written does not lose the job. */
  function Registered(s: State, id: string, job: Job, broken: bool): State {
    State(s.jobs[id := job], if broken then s.rows else s.rows[id := RowOf(job, Active)])
  }

  /** A reservation withdrawn from both views, or, if its row stays, from neither. */
  function Released(s: State, id: string, broken: bool): State {
    if id !in s.jobs || !s.jobs[id].inFlight || broken then s
    else State(s.jobs - {id}, s.rows - {id})
  }

  lemma RegisteredKeepsSound(s: State, id: string, job: Job, broken: bool)
    requires Sound(s) && CredentialKept(job) && StartedHere(job) && !job.stopped
    requires id in s.jobs && s.jobs[id].inFlight && s.jobs[id].info.owner == job.info.owner
    ensures Sound(Registered(s, id, job, broken))
  {}

  lemma ReleasedKeepsSound(s: State, id: string, broken: bool)
    requires Sound(s)
    ensures Sound(Released(s, id, broken))
  {}

  /** A start that is refused after its reservation leaves only the evictions behind. */
  lemma ReleaseUndoesReservation(
    s: State, id: string, owner: Option<string>, now: int, vmId: string, evicted: set<string>
  )
    requires id !in Known(s)
    ensures Released(Reserved(s, id, owner, now, vmId, evicted), id, false) == State(s.jobs - evicted, s.rows - evicted)
  {
    var t := Reserved(s, id, owner, now, vmId, evicted);
    assert t.jobs - {id} == s.jobs - evicted;
    assert t.rows - {id} == s.rows - evicted;
  }

  // ---- runs --------------------------------------------------------------

  /** One operation that changed something. Calls that failed before changing anything are
      not events; other processes sharing the store are. */
  datatype Event =
    | Reserving(id: string, owner: Option<string>, now: int, vmId: string, evicted: set<string>)
    | Registering(id: string, job: Job, broken: bool)
    | Releasing(id: string, broken: bool)
    | Observing(id: string, owner: Option<string>, readBroken: bool, resolved: Option<Cred>,
                statusLeg: StatusLeg, writeBroken: bool)
    | Stopping(id: string, owner: Option<string>, readBroken: bool, resolved: Option<Cred>,
               stopLeg: StopLeg, writeBroken: bool)
    | PeersWrite(newRows: map<string, Row>)

  ghost predicate Allowed(s: State, e: Event) {
    match e
    case Reserving(id, _, _, _, evicted) =>
      id !in Known(s) && OldestEvicted(s, evicted) && |Known(s) - Evictable(s)| < MAX_JOBS
    case Registering(id, job, _) =>
      && id in s.jobs && s.jobs[id].inFlight && s.jobs[id].info.owner == job.info.owner
      && StartedHere(job) && !job.stopped && job.cred.Some?
    case PeersWrite(newRows) =>
      forall id | id in newRows && id in s.jobs ::
        newRows[id].info.owner == s.jobs[id].info.owner && (s.jobs[id].stopped ==> newRows[id].state == Stopped)
    case _ => true
  }

  function Next(s: State, e: Event): State {
    match e
    case Reserving(id, owner, now, vmId, evicted) => Reserved(s, id, owner, now, vmId, evicted)
    case Registering(id, job, broken) => Registered(s, id, job, broken)
    case Releasing(id, broken) => Released(s, id, broken)
    case Observing(id, owner, readBroken, resolved, leg, writeBroken) =>
      Status(s, id, owner, readBroken, resolved, leg, writeBroken).1
    case Stopping(id, owner, readBroken, resolved, leg, writeBroken) =>
      Stop(s, id, owner, readBroken, resolved, leg, writeBroken).1
    case PeersWrite(newRows) => s.(rows := newRows)
  }

  ghost predicate IsRun(states: seq<State>, events: seq<Event>) {
    && |states| == |events| + 1
    && forall i | 0 <= i < |events| :: Allowed(states[i], events[i]) && states[i + 1] == Next(states[i], events[i])
  }

  lemma StepKeepsSound(s: State, e: Event)
    requires Sound(s) && Allowed(s, e)
    ensures Sound(Next(s, e))
  {
    match e
    case Reserving(id, owner, now, vmId, evicted) => ReservedKeepsSound(s, id, owner, now, vmId, evicted);
    case Registering(id, job, broken) => RegisteredKeepsSound(s, id, job, broken);
    case Releasing(id, broken) => ReleasedKeepsSound(s, id, broken);
    case Observing(id, owner, readBroken, resolved, leg, writeBroken) =>
      StatusKeepsSound(s, id, owner, readBroken, resolved, leg, writeBroken);
    case Stopping(id, owner, readBroken, resolved, leg, writeBroken) =>
      StopKeepsSound(s, id, owner, readBroken, resolved, leg, writeBroken);
    case PeersWrite(_) =>
  }

  lemma StepKeepsKnown(s: State, e: Event)
    requires Allowed(s, e) && !e.Reserving? && !e.PeersWrite?
    ensures Known(Next(s, e)) <= Known(s)
  {
    match e
    case Observing(id, owner, readBroken, resolved, leg, writeBroken) =>
      StatusKeepsKnown(s, id, owner, readBroken, resolved, leg, writeBroken);
    case Stopping(id, owner, readBroken, resolved, leg, writeBroken) =>
      StopKeepsKnown(s, id, owner, readBroken, resolved, leg, writeBroken);
    case Registering(id, job, broken) =>
      KnownAgain(s, id);
    case Releasing(_, _) =>
  }

  lemma KnownAgain(s: State, id: string)
    requires id in s.jobs
    ensures s.jobs.Keys + {id} == s.jobs.Keys && s.rows.Keys + {id} + s.jobs.Keys == Known(s)
  {}

  lemma StatusKeepsKnown(s: State, id: string, owner: Option<string>, readBroken: bool, resolved: Option<Cred>,
                         leg: StatusLeg, writeBroken: bool)
    ensures Known(Status(s, id, owner, readBroken, resolved, leg, writeBroken).1) == Known(s)
  {
    LookupKeepsKnown(s, id, owner, readBroken);
    var (found, jobs) := Lookup(s, id, owner, readBroken);
    if id in jobs {
      KnownAgain(s.(jobs := jobs), id);
    }
  }

  lemma StopKeepsKnown(s: State, id: string, owner: Option<string>, readBroken: bool, resolved: Option<Cred>,
                       leg: StopLeg, writeBroken: bool)
    ensures Known(Stop(s, id, owner, readBroken, resolved, leg, writeBroken).1) == Known(s)
  {
    LookupKeepsKnown(s, id, owner, readBroken);
    var (found, jobs) := Lookup(s, id, owner, readBroken);
    if id in jobs {
      KnownAgain(s.(jobs := jobs), id);
    }
  }

  /** In every reachable state, peers or not, a job started here holds its credential
      exactly until it is stopped, and no entry is stopped ahead of its row. A process
      starts with an empty registry, and with whatever rows it finds. */
  lemma {:induction false} RunKeepsSound(states: seq<State>, events: seq<Event>, i: nat)
    requires IsRun(states, events) && i < |states| && states[0].jobs == map[]
    ensures Sound(states[i])
  {
    if i > 0 {
      RunKeepsSound(states, events, i - 1);
      StepKeepsSound(states[i - 1], events[i - 1]);
    }
  }

  /** So in no reachable state is such a job refused, to be asked about or stopped, for want
      of a credential: nothing has to be resolved a second time. */
  lemma RunAuthenticates(states: seq<State>, events: seq<Event>, i: nat, id: string, owner: Option<string>,
                         broken: bool, leg: StopLeg, look: StatusLeg, writeBroken: bool)
    requires IsRun(states, events) && i < |states| && states[0].jobs == map[]
    requires id in states[i].jobs && StartedHere(states[i].jobs[id])
    ensures !Stop(states[i], id, owner, broken, None, leg, writeBroken).0.NoCredential?
    ensures !Status(states[i], id, owner, broken, None, look, writeBroken).0.CannotAuthenticate?
  {
    RunKeepsSound(states, events, i);
    hide IsRun;
    LiveJobAuthenticates(states[i], id, owner, broken, leg, writeBroken);
    assert CredentialKept(states[i].jobs[id]);
  }

  /** The peers' writes keep within the cap, and so did the registry at first. */
  ghost predicate PeersKeepCap(states: seq<State>, events: seq<Event>, n: nat)
    requires IsRun(states, events) && n <= |events|
  {
    && |Known(states[0])| <= MAX_JOBS
    && forall k | 0 <= k < n && events[k].PeersWrite? :: |Known(states[k + 1])| <= MAX_JOBS
  }

  /** The two views together hold at most the cap in every state of a run exactly when they
      did at first and after every write of a peer: this process never breaks the cap. */
  lemma {:induction false} RunKeepsCapIff(states: seq<State>, events: seq<Event>, n: nat)
    requires IsRun(states, events) && n <= |events|
    ensures (forall i | 0 <= i <= n :: |Known(states[i])| <= MAX_JOBS) <==> PeersKeepCap(states, events, n)
  {
    if n > 0 {
      RunKeepsCapIff(states, events, n - 1);
      if |Known(states[n - 1])| <= MAX_JOBS && !events[n - 1].PeersWrite? {
        StepKeepsCap(states[n - 1], events[n - 1]);
      }
    }
  }

  lemma StepKeepsCap(s: State, e: Event)
    requires Allowed(s, e) && !e.PeersWrite? && |Known(s)| <= MAX_JOBS
    ensures |Known(Next(s, e))| <= MAX_JOBS
  {
    hide Known, Reserved;
    if e.Reserving? {
      ReservedFits(s, e.id, e.owner, e.now, e.vmId, e.evicted);
    } else {
      StepKeepsKnown(s, e);
      SubsetSize(Known(Next(s, e)), Known(s));
    }
  }

  /** A job of this process that can still be stopped, with this credential, from this
      source. */
  predicate Live(s: State, id: string, cred: Cred, ref: string) {
    && id in s.jobs && StartedHere(s.jobs[id]) && !s.jobs[id].stopped && s.jobs[id].cred == Some(cred)
    && RefOfJob(s.jobs[id]) == ref
  }

  /** A job of this process that was stopped: no credential is left of it. */
  predicate Over(s: State, id: string) {
    id in s.jobs && StartedHere(s.jobs[id]) && s.jobs[id].stopped && s.jobs[id].cred.None?
  }

  /** Its row says so, and names the credential's source. */
  predicate OverIsWritten(s: State, id: string, ref: string) {
    id in s.rows && s.rows[id].state == Stopped && s.rows[id].credRef == ref
  }

  /** The event is a stop of this job that succeeded. */
  predicate StopsIt(s: State, e: Event, id: string) {
    e.Stopping? && e.id == id
    && Stop(s, id, e.owner, e.readBroken, e.resolved, e.stopLeg, e.writeBroken).0.TreeGone?
  }

  predicate EvictsIt(e: Event, id: string) {
    e.Reserving? && id in e.evicted
  }

  lemma StepKeepsLive(s: State, e: Event, id: string, cred: Cred, ref: string)
    requires Sound(s) && Allowed(s, e) && Live(s, id, cred, ref)
    ensures if StopsIt(s, e, id) then Over(Next(s, e), id) && OverIsWritten(Next(s, e), id, ref)
            else Live(Next(s, e), id, cred, ref)
  {
    match e
    case Reserving(other, owner, now, vmId, evicted) =>
      ReservedKeepsLive(s, other, owner, now, vmId, evicted, id);
    case Observing(other, owner, readBroken, resolved, leg, writeBroken) =>
      hide Status;
      StatusOnlyReads(s, other, owner, readBroken, resolved, leg, writeBroken);
    case Stopping(other, owner, readBroken, resolved, leg, writeBroken) =>
      hide Stop;
      StopKeepsOthersLive(s, other, owner, readBroken, resolved, leg, writeBroken, id, cred, ref);
    case _ =>
  }

  lemma StopKeepsOthersLive(s: State, other: string, owner: Option<string>, readBroken: bool, resolved: Option<Cred>,
                            leg: StopLeg, writeBroken: bool, id: string, cred: Cred, ref: string)
    requires Live(s, id, cred, ref)
    ensures var (reply, t) := Stop(s, other, owner, readBroken, resolved, leg, writeBroken);
      if reply.TreeGone? && other == id then Over(t, id) && OverIsWritten(t, id, ref)
      else Live(t, id, cred, ref)
  {
    hide Stop;
    StopSucceedsIff(s, other, owner, readBroken, resolved, leg, writeBroken);
    FailedStopKeepsCredential(s, other, owner, readBroken, resolved, leg, writeBroken);
  }

  lemma StepKeepsOver(s: State, e: Event, id: string)
    requires Sound(s) && Allowed(s, e) && Over(s, id)
    ensures EvictsIt(e, id) || Over(Next(s, e), id)
  {
    match e
    case Observing(other, owner, readBroken, resolved, leg, writeBroken) =>
      hide Status;
      StatusOnlyReads(s, other, owner, readBroken, resolved, leg, writeBroken);
    case Stopping(other, owner, readBroken, resolved, leg, writeBroken) =>
      hide Stop;
      StopKeepsOver(s, other, owner, readBroken, resolved, leg, writeBroken, id);
    case _ =>
  }

  lemma StopKeepsOver(s: State, other: string, owner: Option<string>, readBroken: bool, resolved: Option<Cred>,
                      leg: StopLeg, writeBroken: bool, id: string)
    requires Over(s, id)
    ensures Over(Stop(s, other, owner, readBroken, resolved, leg, writeBroken).1, id)
  {
    hide Stop;
    StopSucceedsIff(s, other, owner, readBroken, resolved, leg, writeBroken);
    FailedStopKeepsCredential(s, other, owner, readBroken, resolved, leg, writeBroken);
  }

  /** A job started here keeps its credential, and can be stopped, through every run of
      operations by anyone until a stop of it succeeds; and when one does, its stopped row
      is already written and names the credential's source. */
  lemma {:induction false} CredentialLastsUntilStopped(
    states: seq<State>, events: seq<Event>, id: string, cred: Cred, ref: string) returns (n: nat)
    requires IsRun(states, events) && Sound(states[0]) && Live(states[0], id, cred, ref)
    ensures n <= |events| && forall i | 0 <= i <= n :: Sound(states[i]) && Live(states[i], id, cred, ref)
    ensures n < |events| ==>
      && StopsIt(states[n], events[n], id)
      && Sound(states[n + 1]) && Over(states[n + 1], id) && OverIsWritten(states[n + 1], id, ref)
  {
    hide Sound, Live, Over, OverIsWritten, StopsIt, Allowed, Next;
    n := 0;
    while n < |events| && !StopsIt(states[n], events[n], id)
      invariant n <= |events| && forall i | 0 <= i <= n :: Sound(states[i]) && Live(states[i], id, cred, ref)
    {
      StepKeepsLive(states[n], events[n], id, cred, ref);
      StepKeepsSound(states[n], events[n]);
      n := n + 1;
    }
    if n < |events| {
      StepKeepsLive(states[n], events[n], id, cred, ref);
      StepKeepsSound(states[n], events[n]);
    }
  }

  /** The whole life of a credential: live up to the n-th event, which stops the job;
      stopped, and without it, from there to the m-th, which evicts the job. Either may lie
      beyond the run. */
  lemma {:induction false} CredentialLifetime(
    states: seq<State>, events: seq<Event>, id: string, cred: Cred, ref: string) returns (n: nat, m: nat)
    requires IsRun(states, events) && Sound(states[0]) && Live(states[0], id, cred, ref)
    ensures n <= m <= |events|
    ensures forall i | 0 <= i <= n :: Live(states[i], id, cred, ref)
    ensures n < |events| ==> StopsIt(states[n], events[n], id) && OverIsWritten(states[n + 1], id, ref)
    ensures forall i | n < i <= m :: Over(states[i], id)
    ensures n < m < |events| ==> EvictsIt(events[m], id)
    ensures n == m ==> n == |events|
  {
    hide Sound, Live, Over, OverIsWritten, StopsIt, EvictsIt, Allowed, Next;
    n := CredentialLastsUntilStopped(states, events, id, cred, ref);
    m := n;
    if n < |events| {
      m := n + 1;
      while m < |events| && !EvictsIt(events[m], id)
        invariant n < m <= |events| && Sound(states[m]) && forall i | n < i <= m :: Over(states[i], id)
      {
        StepKeepsOver(states[m], events[m], id);
        StepKeepsSound(states[m], events[m]);
        m := m + 1;
      }
    }
  }
}
