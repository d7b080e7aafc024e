/** Per-call rows: cross-process exclusion of tool calls, and what it rests on. */
module LeaseCalls {
  import opened Common
  import opened LeaseModel
  import opened LeaseInvariant
  import opened LeaseExclusion
  import opened LeaseOutcomes

  /** A heartbeat that arrives in time finds its row still live. */
  predicate Timely(s: Store, step: Step) {
    step.TouchStep? ==> forall r :: r in s.rows && r.key == step.key ==> r.expiresAt > s.clock
  }

  predicate TimelyRun(states: seq<Store>, steps: seq<Step>) {
    IsRun(states, steps) && forall i | 0 <= i < |steps| :: Timely(states[i], steps[i])
  }

  lemma GrantKeepsCallsApart(s: Store, step: Step)
    requires Inv(s) && Separated(s, Call, Call) && Enabled(s, step)
    requires step.AcquireStep? || step.BeginCallStep?
    ensures Separated(Next(s, step), Call, Call)
  {
    if step.BeginCallStep? {
      if BeginCall(s, step.proto, step.now).1.Ok? {
        forall r | r in s.rows && r.kind.Call? && Conflicts(r, step.proto) ensures r.expiresAt <= step.now {
          NoBlockersMeansOver(s.rows, step.proto, step.now, false, r);
        }
        InsertSeparated(s, step.proto, Call, Call);
      }
    } else if Acquire(s, step.limits, step.req, step.now, step.lease).1.Ok? {
      InsertAllKeepsCallsApart(
        s, Proto(step.req, step.lease, step.now, Ttl(step.limits, step.req.ttl).value), Dedupe(step.req.scopes));
    }
  }

  lemma {:induction false} InsertAllKeepsCallsApart(s: Store, proto: Row, scopes: seq<string>)
    requires RowsFromLog(s) && Separated(s, Call, Call) && proto.kind.Explicit?
    ensures RowsFromLog(InsertAll(s, proto, scopes)) && Separated(InsertAll(s, proto, scopes), Call, Call)
  {
    if scopes != [] {
      var init := scopes[..|scopes| - 1];
      InsertAllKeepsCallsApart(s, proto, init);
      InsertFromLog(InsertAll(s, proto, init), proto.(scope := scopes[|scopes| - 1]));
      InsertSeparated(InsertAll(s, proto, init), proto.(scope := scopes[|scopes| - 1]), Call, Call);
    }
  }

  lemma ExtendedKeepsCallsApart(s: Store, lease: string)
    requires Inv(s) && Separated(s, Call, Call)
    ensures Separated(Extended(s, lease), Call, Call)
  {
    var live := LiveOf(s.rows, lease, s.clock);
    if live != [] {
      RetimedSeparated(s, LiveUnder(lease, s.clock), Later(s.clock, live[0].ttl), Call, Call);
    }
  }

  lemma TimelyStepKeepsCallsApart(s: Store, step: Step)
    requires Inv(s) && Separated(s, Call, Call) && Enabled(s, step) && Timely(s, step)
    ensures Separated(Next(s, step), Call, Call)
  {
    if step.AcquireStep? || step.BeginCallStep? {
      GrantKeepsCallsApart(s, step);
    } else if step.RenewStep? {
      ExtendedKeepsCallsApart(s, step.lease);
    } else if step.TouchStep? {
      RetimedSeparated(s, HasKey(step.key), Later(step.now, step.ttl), Call, Call);
    }
  }

  lemma {:induction false} TimelyRunKeepsCallsApart(states: seq<Store>, steps: seq<Step>, i: nat)
    requires TimelyRun(states, steps) && i < |states|
    ensures Separated(states[i], Call, Call)
  {
    if i > 0 {
      TimelyRunKeepsCallsApart(states, steps, i - 1);
      RunKeepsInv(states, steps, i - 1);
      TimelyStepKeepsCallsApart(states[i - 1], steps[i - 1]);
    }
  }

  /** While every heartbeat finds its row alive, two live call rows of different calls
      and of different or unattributed principals on one VM are both reads. */
  lemma CallExclusion(states: seq<Store>, steps: seq<Step>, i: nat, a: Row, b: Row)
    requires TimelyRun(states, steps) && i < |states|
    requires LiveRow(states[i], a) && LiveRow(states[i], b) && a.kind.Call? && b.kind.Call?
    requires a.vm == b.vm && a.lease != b.lease && (a.holder.None? || a.holder != b.holder)
    ensures !a.write && !b.write
  {
    RunKeepsInv(states, steps, i);
    TimelyRunKeepsCallsApart(states, steps, i);
    if a.key < b.key {
      SeparatedMeansExclusive(states[i], a, b);
    } else if b.key < a.key {
      SeparatedMeansExclusive(states[i], b, a);
    }
  }

  /** In every run, timely or not, no call row taken after a lease is ever live beside
      that lease's live row unless the two are compatible. */
  lemma LeaseExcludesLaterCalls(states: seq<Store>, steps: seq<Step>, i: nat, lease: Row, call: Row)
    requires IsRun(states, steps) && i < |states|
    requires LiveRow(states[i], lease) && LiveRow(states[i], call) && lease.kind.Explicit? && call.kind.Call?
    requires lease.key < call.key
    ensures !Conflicts(lease, call)
  {
    RunKeepsInv(states, steps, i);
    SeparatedMeansExclusive(states[i], lease, call);
  }

  /** A live row of another principal and another call on the VM: a call, if either of the
      two writes, or a lease whose scope rules out this one's. */
  predicate InCallsWay(r: Row, proto: Row, now: real) {
    && r.vm == proto.vm && r.expiresAt > now && r.lease != proto.lease
    && (proto.holder.None? || r.holder != proto.holder)
    && if r.kind.Call? then r.write || proto.write else !ScopesCoexist(r.scope, proto.scope)
  }

  /** A call row is inserted exactly when nothing stands in its way, with the next token of
      its VM and scope. A refusal is Busy exactly when only calls are in the way; otherwise
      it tells of all that is. */
  lemma BeginCallOutcome(s: Store, proto: Row, now: real)
    requires proto.kind.Call?
    ensures var (t, res) := BeginCall(s, proto, now);
      && (res.Ok? <==> forall r | r in s.rows :: !InCallsWay(r, proto, now))
      && (res.Ok? ==>
            && res.value == proto.(key := |s.log|, token := Counter(s, proto.vm, proto.scope) + 1)
            && t == Store(s.rows + [res.value], s.counters[(proto.vm, proto.scope) := res.value.token], s.clock,
                          s.log + [res.value], s.ids + {proto.lease}))
      && (res.Err? ==> t == s)
      && (res.Err? ==> (res.error.Busy? <==> forall r | r in s.rows && InCallsWay(r, proto, now) :: r.kind.Call?))
      && (res.Err? && !res.error.Busy? ==> exists rows ::
            Tells(res.error, rows, now) && forall r :: r in rows <==> r in s.rows && InCallsWay(r, proto, now))
  {
    hide Tells;
    var blocking := Blockers(s.rows, proto, now, false);
    BlockersEmptyIff(s.rows, proto, now, false);
    assert forall r :: Blocks(proto, now, false)(r) <==> InCallsWay(r, proto, now);
    assert forall r :: r in blocking <==> r in s.rows && InCallsWay(r, proto, now);
    if blocking != [] {
      ConflictTells(blocking, now);
    }
  }

  lemma BlockersEmptyIff(rows: seq<Row>, mine: Row, now: real, explicitOnly: bool)
    ensures Blockers(rows, mine, now, explicitOnly) == [] <==>
      forall r :: r in rows ==> !Blocks(mine, now, explicitOnly)(r)
  {
    var blocking := Blockers(rows, mine, now, explicitOnly);
    if blocking != [] {
      assert blocking[0] in blocking;
    }
  }

  /** The gate for unleased calls and the call row agree: the gate passes exactly when a
      read-mode call under an id no stored row carries would be let in; its refusal tells of
      all that is in such a call's way, calls included. */
  lemma GateAgreesWithReadCall(s: Store, agent: Option<string>, scope: string, vm: string,
                               vmName: string, newId: string, ttl: int)
    requires forall r :: r in s.rows ==> r.lease != newId && r.lease != ""
    ensures AssertUnleased(s, agent, scope, vm).Ok? <==>
      BeginCall(s, CallProto(vm, vmName, scope, false, agent, newId, ttl, s.clock), s.clock).1.Ok?
    ensures AssertUnleased(s, agent, scope, vm).Err? ==> exists rows ::
      && Tells(AssertUnleased(s, agent, scope, vm).error, rows, s.clock)
      && forall r :: r in rows <==>
           r in s.rows && InCallsWay(r, CallProto(vm, vmName, scope, false, agent, newId, ttl, s.clock), s.clock)
  {
    hide Tells;
    var probe := CallProto(vm, "", scope, false, agent, "", 0, s.clock);
    var mine := CallProto(vm, vmName, scope, false, agent, newId, ttl, s.clock);
    BlockersEmptyIff(s.rows, probe, s.clock, false);
    BlockersEmptyIff(s.rows, mine, s.clock, false);
    assert forall r :: r in s.rows ==> Blocks(probe, s.clock, false)(r) == Blocks(mine, s.clock, false)(r);
    var blocking := Blockers(s.rows, probe, s.clock, false);
    assert forall r :: r in s.rows ==> (Blocks(mine, s.clock, false)(r) <==> InCallsWay(r, mine, s.clock));
    if blocking != [] {
      ConflictTells(blocking, s.clock);
    }
  }

  /** Ending a call deletes the one row that carries its key and keeps the others in
      order. */
  lemma EndCallRemovesOne(s: Store, i: nat)
    requires RowsFromLog(s) && i < |s.rows|
    ensures EndCall(s, s.rows[i].key) == s.(rows := s.rows[..i] + s.rows[i + 1..])
  {
    KeepsAllButOne(s.rows, i);
  }

  lemma {:induction false} KeepsAllButOne(rows: seq<Row>, i: nat)
    requires InKeyOrder(rows) && i < |rows|
    ensures Keep(rows, LacksKey(rows[i].key)) == rows[..i] + rows[i + 1..]
  {
    var init, last := rows[..|rows| - 1], rows[|rows| - 1];
    if i < |init| {
      KeepsAllButOne(init, i);
      assert LacksKey(rows[i].key)(last);
      DropOne(rows, i);
    } else {
      forall r | r in init ensures LacksKey(last.key)(r) {
      }
      KeepsAll(init, LacksKey(last.key));
      assert rows[..i] + rows[i + 1..] == init;
    }
  }

  lemma DropOne<T>(xs: seq<T>, i: nat)
    requires i < |xs| - 1
    ensures var init := xs[..|xs| - 1];
      xs[..i] + xs[i + 1..] == init[..i] + init[i + 1..] + [xs[|xs| - 1]]
  {}

  lemma {:induction false} KeepsAll(rows: seq<Row>, p: Row -> bool)
    requires forall r :: r in rows ==> p(r)
    ensures Keep(rows, p) == rows
  {
    if rows != [] {
      KeepsAll(rows[..|rows| - 1], p);
    }
  }

  // ---- late heartbeats ---------------------------------------------------

  ghost predicate CallsApart(s: Store) {
    forall a, b :: LiveRow(s, a) && LiveRow(s, b) && a.kind.Call? && b.kind.Call? ==> !Conflicts(a, b)
  }

  /** A heartbeat, early or late, keeps live calls apart exactly when no other live call
      conflicts with the row it re-arms: a row that has lapsed may be re-armed over the
      call that replaced it. */
  lemma HeartbeatKeepsApartIff(s: Store, r: Row, expiry: real)
    requires Inv(s) && CallsApart(s) && r in s.rows && r.kind.Call? && expiry > s.clock
    ensures CallsApart(Touch(s, r.key, expiry)) <==>
      forall q :: LiveRow(s, q) && q.kind.Call? ==> !Conflicts(r, q)
    ensures r.expiresAt > s.clock ==> CallsApart(Touch(s, r.key, expiry))
  {
    var t := Touch(s, r.key, expiry);
    var armed := r.(expiresAt := expiry);
    TouchedRows(s, r, expiry);
    if forall q :: LiveRow(s, q) && q.kind.Call? ==> !Conflicts(r, q) {
      forall a, b | LiveRow(t, a) && LiveRow(t, b) && a.kind.Call? && b.kind.Call? ensures !Conflicts(a, b) {
        ConflictsSymmetric(a, b);
        assert a != armed && b == armed ==> Conflicts(a, b) == Conflicts(r, a);
        assert a == armed ==> Conflicts(a, b) == Conflicts(r, b);
      }
    } else {
      var q :| LiveRow(s, q) && q.kind.Call? && Conflicts(r, q);
      assert LiveRow(t, q) && LiveRow(t, armed) && Conflicts(armed, q);
    }
  }

  lemma TouchedRows(s: Store, r: Row, expiry: real)
    requires RowsFromLog(s) && r in s.rows
    ensures var t := Touch(s, r.key, expiry);
      && r.(expiresAt := expiry) in t.rows
      && (forall q :: q in s.rows && q.key != r.key ==> q in t.rows)
      && (forall q :: q in t.rows ==> q == r.(expiresAt := expiry) || (q in s.rows && q.key != r.key))
  {
    var t := Touch(s, r.key, expiry);
    forall q | q in s.rows ensures (if q.key == r.key then q.(expiresAt := expiry) else q) in t.rows {
      var i :| 0 <= i < |s.rows| && s.rows[i] == q;
      assert t.rows[i] in t.rows;
    }
    forall q | q in t.rows ensures q == r.(expiresAt := expiry) || (q in s.rows && q.key != r.key) {
      var o := RetimedRow(s.rows, HasKey(r.key), expiry, q);
      if o.key == r.key {
        KeyIdentifiesRow(s, o, r);
      }
    }
  }

  // ---- the witness: a heartbeat that comes too late -----------------------

  function LateRow(key: nat, lease: string, agent: string, at: real): Row {
    Row(key, lease, "vm", "", "console", Some(agent), key + 1, at, 300, Later(at, 300), Call, true)
  }

  const EARLIER := LateRow(0, "L1", "a", 0.0)
  const REPLACEMENT := LateRow(1, "L2", "b", 400.0)
  const REVIVED := EARLIER.(expiresAt := 700.0)

  function LateSteps(): seq<Step> {
    [ BeginCallStep(EARLIER.(key := 0, token := 0), 0.0),
      Tick(400.0),
      BeginCallStep(REPLACEMENT.(key := 0, token := 0), 400.0),
      TouchStep(0, 300, 400.0) ]
  }

  function LateStates(): seq<Store> {
    var pair := ("vm", "console");
    [ Store([], map[], 0.0, [], {}),
      Store([EARLIER], map[pair := 1], 0.0, [EARLIER], {"L1"}),
      Store([EARLIER], map[pair := 1], 400.0, [EARLIER], {"L1"}),
      Store([EARLIER, REPLACEMENT], map[pair := 2], 400.0, [EARLIER, REPLACEMENT], {"L1", "L2"}),
      Store([REVIVED, REPLACEMENT], map[pair := 2], 400.0, [EARLIER, REPLACEMENT], {"L1", "L2"}) ]
  }

  lemma BeginsUnblocked(s: Store, proto: Row, now: real)
    requires proto.kind.Call? && forall r :: r in s.rows ==> r.expiresAt <= now
    ensures BeginCall(s, proto, now).0 == Insert(s, proto)
  {
    KeepsNone(s.rows, Blocks(proto, now, false));
  }

  lemma LateFirst()
    ensures Next(LateStates()[0], LateSteps()[0]) == LateStates()[1]
  {
    hide BeginCall;
    BeginsUnblocked(LateStates()[0], EARLIER.(key := 0, token := 0), 0.0);
  }

  lemma LateThird()
    ensures Next(LateStates()[2], LateSteps()[2]) == LateStates()[3]
  {
    hide BeginCall;
    BeginsUnblocked(LateStates()[2], REPLACEMENT.(key := 0, token := 0), 400.0);
    assert {"L1"} + {"L2"} == {"L1", "L2"};
    assert map[("vm", "console") := 1][("vm", "console") := 2] == map[("vm", "console") := 2];
  }

  lemma LateFourth()
    ensures Next(LateStates()[3], LateSteps()[3]) == LateStates()[4]
    ensures Enabled(LateStates()[3], LateSteps()[3])
  {
    assert Retime([EARLIER, REPLACEMENT], HasKey(0), 700.0) == [REVIVED, REPLACEMENT];
  }

  lemma LateIsRun()
    ensures IsRun(LateStates(), LateSteps())
  {
    LateFirst();
    LateThird();
    LateFourth();
    hide BeginCall, Touch;
    forall i | 0 <= i < 4
      ensures Enabled(LateStates()[i], LateSteps()[i]) && LateStates()[i + 1] == Next(LateStates()[i], LateSteps()[i])
    {
    }
  }

  lemma LateRows()
    ensures LateStates()[4].rows == [REVIVED, REPLACEMENT]
    ensures LiveRow(LateStates()[4], REVIVED) && LiveRow(LateStates()[4], REPLACEMENT)
    ensures REVIVED.write && REPLACEMENT.write && Conflicts(REVIVED, REPLACEMENT)
    ensures REVIVED.kind.Call? && REPLACEMENT.kind.Call? && REVIVED.vm == REPLACEMENT.vm
    ensures REVIVED.lease != REPLACEMENT.lease && REVIVED.holder.Some? && REVIVED.holder != REPLACEMENT.holder
    ensures |LateStates()| == 5
  {
    assert REVIVED == LateStates()[4].rows[0] && REPLACEMENT == LateStates()[4].rows[1];
  }

  /** A heartbeat that comes after its row has lapsed and been replaced leaves two live
      calls of different agents, both for writing, on one VM. */
  lemma LateHeartbeat()
    ensures IsRun(LateStates(), LateSteps()) && !TimelyRun(LateStates(), LateSteps())
    ensures LiveRow(LateStates()[4], REVIVED) && LiveRow(LateStates()[4], REPLACEMENT)
    ensures REVIVED.write && REPLACEMENT.write && Conflicts(REVIVED, REPLACEMENT)
    ensures !CallsApart(LateStates()[4])
  {
    LateIsRun();
    LateRows();
    hide LateStates, LateSteps, EARLIER, REPLACEMENT, REVIVED, IsRun, TimelyRun, LiveRow, Conflicts;
    if TimelyRun(LateStates(), LateSteps()) {
      CallExclusion(LateStates(), LateSteps(), 4, REVIVED, REPLACEMENT);
    }
  }
}
