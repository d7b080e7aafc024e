/** Running a guest script over a pooled session: one retry on a fresh session, then the
    per-call path, and never the same script twice. */
module PooledExec {
  import opened Common

  /** What a worker wrote back, as far as anyone looks at it. */
  datatype Frame = Empty | Unreadable | NotAnObject | Object(phase: Option<string>)

  datatype Phase = SessionPhase | GuestPhase | UnknownPhase

  /** One attempt on a worker. `entered` says whether the guest script began to run, which
      the host cannot see; `timingFails` whether the timing report raises afterwards. */
  datatype Attempt =
    | Raises(entered: bool)
    | Answers(frame: Frame, timedOut: bool, timingFails: bool, entered: bool)

  function PhaseOf(frame: Frame): Phase {
    match frame
    case Object(phase) => if phase == Some("session") then SessionPhase else GuestPhase
    case _ => UnknownPhase
  }

  /** Worth a second session: the worker says the first one failed. */
  predicate Retryable(a: Attempt) {
    a.Answers? && !a.timingFails && !a.timedOut && PhaseOf(a.frame).SessionPhase?
  }

  /** The attempt's answer is not reported, so something else will be tried. */
  predicate Abandoned(a: Attempt) {
    a.Raises? || a.timingFails || Retryable(a)
  }

  /** What the worker protocol promises: raising, or a session-phase frame, means the guest
      was not entered. */
  predicate Honest(a: Attempt) {
    match a
    case Raises(entered) => !entered
    case Answers(frame, timedOut, timingFails, entered) =>
      (PhaseOf(frame).SessionPhase? && !timedOut ==> !entered) && !timingFails
  }

  // ---- the pool ----------------------------------------------------------

  class Pool {
    ghost var ever: set<nat>
    var idle: set<nat>
    var busy: set<nat>

    constructor ()
      ensures Valid() && idle == {} && busy == {}
    {
      ever, idle, busy := {}, {}, {};
    }

    /** A worker is idle, checked out, or gone for good. */
    ghost predicate Valid()
      reads this
    {
      idle !! busy && idle + busy <= ever
    }

    ghost predicate Gone(worker: nat)
      reads this
    {
      worker in ever && worker !in idle && worker !in busy
    }

    /** A worker the pool could hand out next: an idle one, or a new one. */
    ghost predicate Available(grant: Option<nat>)
      reads this
    {
      grant.Some? ==> grant.value in idle || grant.value !in ever
    }

    /** None when acquiring raises. */
    method Acquire(grant: Option<nat>) returns (worker: Option<nat>)
      requires Valid() && Available(grant)
      modifies this
      ensures Valid() && worker == grant
      ensures idle == old(idle) - (if grant.Some? then {grant.value} else {})
      ensures busy == old(busy) + (if grant.Some? then {grant.value} else {})
      ensures ever == old(ever) + (if grant.Some? then {grant.value} else {})
    {
      worker := grant;
      if grant.Some? {
        idle, busy := idle - {grant.value}, busy + {grant.value};
        ever := ever + {grant.value};
      }
    }

    /** Close a worker for good. Nothing happens to one that is already gone. */
    method Discard(worker: nat)
      requires Valid()
      modifies this`idle, this`busy
      ensures Valid() && idle == old(idle) - {worker} && busy == old(busy) - {worker}
    {
      idle, busy := idle - {worker}, busy - {worker};
    }

    /** Hand a worker back; one that has died meanwhile is dropped instead. */
    method Release(worker: nat, dead: bool)
      requires Valid()
      modifies this`idle, this`busy
      ensures Valid() && busy == old(busy) - {worker}
      ensures idle == if worker in old(busy) && !dead then old(idle) + {worker} else old(idle)
    {
      if worker in busy {
        busy := busy - {worker};
        if !dead {
          idle := idle + {worker};
        }
      }
    }
  }

  // ---- one pooled call ---------------------------------------------------

  /** What happens on the way: the workers granted and what an attempt on each would do. */
  datatype Fate = Fate(grant: Option<nat>, attempt: Attempt, again: Option<nat>, second: Attempt)

  /** The reported attempt, or None: fall back to the per-call path. */
  function Pooled(f: Fate): Option<Attempt> {
    if f.grant.None? then None
    else if !Abandoned(f.attempt) then Some(f.attempt)
    else if !Retryable(f.attempt) || f.again.None? || Abandoned(f.second) then None
    else Some(f.second)
  }

  /** The attempt's answer may be given to the caller: it came, in time or cut off by the
      time limit, and if in time it does not say that the session failed. */
  predicate Reportable(a: Attempt) {
    a.Answers? && !a.timingFails && (a.timedOut || a.frame != Object(Some("session")))
  }

  /** The worker says that the session failed, and said it in time. */
  predicate SaysSession(a: Attempt) {
    a.Answers? && !a.timingFails && !a.timedOut && a.frame == Object(Some("session"))
  }

  /** The attempts that are made, one a worker taken: a second one only after the first said
      that its session failed, and only if a second worker is to be had. */
  function Made(f: Fate): seq<Attempt> {
    (if f.grant.Some? then [f.attempt] else [])
    + (if f.grant.Some? && SaysSession(f.attempt) && f.again.Some? then [f.second] else [])
  }

  /** What a caller of the pooled path gets: the answer of the attempt on the last worker
      taken, or nothing exactly when no attempt made can be reported. */
  ghost predicate Reports(made: seq<Attempt>, result: Option<Attempt>) {
    && (result.Some? ==> made != [] && result.value == made[|made| - 1] && Reportable(result.value))
    && (result.None? <==> forall a | a in made :: !Reportable(a))
  }

  function Entries(made: seq<Attempt>): nat {
    if made == [] then 0 else Runs(made[0].entered) + Entries(made[1..])
  }

  lemma PhasesSay(a: Attempt)
    ensures Retryable(a) <==> SaysSession(a)
    ensures Abandoned(a) <==> !Reportable(a)
  {}

  lemma PooledReports(f: Fate)
    ensures Reports(Made(f), Pooled(f)) && PooledRuns(f) == Entries(Made(f))
  {
    PhasesSay(f.attempt);
    PhasesSay(f.second);
    assert Entries([]) == 0 && [f.attempt][1..] == [] && [f.second][1..] == [];
    if SaysSession(f.attempt) && f.again.Some? {
      assert [f.attempt, f.second][1..] == [f.second];
      assert f.grant.Some? ==> Made(f) == [f.attempt, f.second];
    } else {
      assert f.grant.Some? ==> Made(f) == [f.attempt];
    }
  }

  /** With honest workers an attempt that entered the guest is the one reported: the caller
      of a script that ran learns what it did. */
  lemma EnteredIsReported(f: Fate, a: Attempt)
    requires forall made | made in Made(f) :: Honest(made)
    requires a in Made(f) && a.entered
    ensures Pooled(f) == Some(a)
  {}

  function Runs(entered: bool): nat {
    if entered then 1 else 0
  }

  /** How often the guest is entered by the attempts that are made. */
  function PooledRuns(f: Fate): nat {
    if f.grant.None? then 0
    else Runs(f.attempt.entered) + if Retryable(f.attempt) && f.again.Some? then Runs(f.second.entered) else 0
  }

  /** Try one worker. None when anything raised. A worker that timed out is discarded on
      the spot. */
  method TryOn(pool: Pool, worker: nat, a: Attempt) returns (result: Option<Attempt>, runs: nat)
    requires pool.Valid() && worker in pool.busy
    modifies pool`idle, pool`busy
    ensures pool.Valid() && pool.idle == old(pool.idle) && runs == Runs(a.entered)
    ensures result == if a.Raises? || a.timingFails then None else Some(a)
    ensures pool.busy == if a.Answers? && a.timedOut then old(pool.busy) - {worker} else old(pool.busy)
  {
    runs := if a.entered then 1 else 0;
    if a.Raises? {
      return None, runs;
    }
    if a.timedOut {
      pool.Discard(worker);
    }
    result := if a.timingFails then None else Some(a);
  }

  /** The worker may be handed out again: its only attempt was reported and did not time out. */
  predicate Reusable(a: Attempt) {
    !Abandoned(a) && !a.timedOut
  }

  method RunPooled(pool: Pool, f: Fate, dead: bool) returns (result: Option<Attempt>, runs: nat)
    requires pool.Valid() && pool.Available(f.grant) && pool.Available(f.again)
    requires f.grant.Some? ==> f.again != f.grant
    modifies pool
    ensures pool.Valid() && pool.busy == old(pool.busy)
    ensures result == Pooled(f) && runs == PooledRuns(f)
    ensures Reports(Made(f), result) && runs == Entries(Made(f))
    ensures f.grant.Some? ==>
      if Reusable(f.attempt) && !dead then f.grant.value in pool.idle else pool.Gone(f.grant.value)
    ensures f.grant.Some? && Retryable(f.attempt) && f.again.Some? ==>
      if Reusable(f.second) && !dead then f.again.value in pool.idle else pool.Gone(f.again.value)
  {
    PooledReports(f);
    hide Reports, Made, Entries;
    runs := 0;
    var granted := pool.Acquire(f.grant);
    if granted.None? {
      return None, 0;
    }
    var worker := granted.value;
    result, runs := TryOn(pool, worker, f.attempt);
    if result.None? {
      pool.Discard(worker);
    } else if !result.value.timedOut && PhaseOf(result.value.frame).SessionPhase? {
      pool.Discard(worker);
      result := None;
      granted := pool.Acquire(f.again);
      if granted.Some? {
        worker := granted.value;
        var more;
        result, more := TryOn(pool, worker, f.second);
        runs := runs + more;
        if result.None? || (!result.value.timedOut && PhaseOf(result.value.frame).SessionPhase?) {
          pool.Discard(worker);
          result := None;
        }
      }
    }
    pool.Release(worker, dead);
  }

  /** The whole call: pooled when there is a pool, else, or failing that, per call; then the
      caller gets the per-call path's answer. `perCall` says whether that attempt would enter
      the guest. */
  method RunInner(pool: Pool?, f: Fate, dead: bool, perCall: bool) returns (pooled: Option<Attempt>, runs: nat)
    requires pool != null ==> pool.Valid() && pool.Available(f.grant) && pool.Available(f.again)
    requires f.grant.Some? ==> f.again != f.grant
    modifies pool
    ensures pool != null ==> pool.Valid() && pool.busy == old(pool.busy)
    ensures runs == TotalRuns(pool != null, f, perCall)
    ensures var made := if pool != null then Made(f) else [];
      && Reports(made, pooled)
      && runs == Entries(made) + if pooled.None? && perCall then 1 else 0
  {
    pooled, runs := None, 0;
    if pool != null {
      pooled, runs := RunPooled(pool, f, dead);
      if pooled.Some? {
        return;
      }
    }
    if perCall {
      runs := runs + 1;
    }
  }

  function TotalRuns(pooled: bool, f: Fate, perCall: bool): nat {
    if !pooled then Runs(perCall)
    else PooledRuns(f) + if Pooled(f).None? then Runs(perCall) else 0
  }

  /** Exactly what workers may do: let `may` be any class of attempts. Whatever is granted,
      retried or fallen back to, the guest script runs at most once if and only if no
      attempt of the class is abandoned after entering the guest. That includes one
      abandoned only because its timing report raised. */
  lemma RunsAtMostOnceIff(may: Attempt -> bool)
    ensures (forall f: Fate, perCall :: f.grant.Some? && may(f.attempt) && may(f.second) ==>
               TotalRuns(true, f, perCall) <= 1)
      <==> (forall a :: may(a) && Abandoned(a) ==> !a.entered)
  {
    forall a | may(a) && Abandoned(a) && a.entered
      ensures exists f: Fate, perCall ::
        f.grant.Some? && may(f.attempt) && may(f.second) && TotalRuns(true, f, perCall) > 1
    {
      var f := Fate(Some(0), a, None, a);
      assert TotalRuns(true, f, true) == 2 && f.grant.Some? && may(f.attempt) && may(f.second);
    }
  }

  /** With honest workers, and timing that does not raise, the guest script runs at most
      once. */
  lemma RunsAtMostOnce(pooled: bool, f: Fate, perCall: bool)
    requires Honest(f.attempt) && Honest(f.second)
    ensures TotalRuns(pooled, f, perCall) <= 1
  {
    if pooled && f.grant.Some? {
      RunsAtMostOnceIff(Honest);
    }
  }

  /** An answer that proves nothing about the guest is final: no retry, no fallback. */
  lemma UnknownIsFinal(f: Fate, perCall: bool)
    requires f.grant.Some? && f.attempt.Answers? && !f.attempt.timingFails
    requires f.attempt.timedOut || !PhaseOf(f.attempt.frame).SessionPhase?
    ensures Pooled(f) == Some(f.attempt)
    ensures TotalRuns(true, f, perCall) == Runs(f.attempt.entered)
  {}
}
