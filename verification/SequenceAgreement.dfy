/** Where the script and the direct interpreter do the same to the virtual machine, where they
    report the same, and exactly where they do not. */
module SequenceAgreement {
  import opened Common
  import opened Sequence
  import opened SequenceScript
  import S = SettleWait

  // ---- the calls of one step ---------------------------------------------

  /** A click in process moves to its place twice; apart from that repetition. */
  function Once(calls: seq<Call>): seq<Call> {
    if |calls| >= 2 && calls[0] == calls[1] then calls[1..] else calls
  }

  /** The step comes to a call in process: its device, and for a pointer the display, is
      there when it runs. */
  predicate CanCall(world: World, tried: seq<Step>, step: Step) {
    !step.WaitStable? && world.has(tried, DirectDevice(step)) && (step.Pointer? ==> HasHead(world.head(tried)))
  }

  /** What the script bound at its start is still what a step finds: the keyboard; for the
      mouse, the synthetic one, bound by the script too; for a pointer also the place. A
      pointer step that neither transport can place, or bind, makes no call on either. */
  predicate Steady(world: World, bound: Bound, tried: seq<Step>, step: Step) {
    if step.WaitStable? then true
    else if step.Pointer? && !HasHead(bound.head) then !CanCall(world, tried, step)
    else
      && CanCall(world, tried, step) && ScriptDevice(step, bound) == DirectDevice(step)
      && (step.Pointer? ==> ScriptPlace(step, bound.head.value) == DirectPlace(step, world.head(tried).value))
  }

  lemma MakeOne(world: World, tried: seq<Step>, device: Device, act: Act)
    ensures Make(world, tried, device, [act]) == Made([Call(device, act)], world.takes(tried, device, act))
  {
    assert [act][1..] == [];
  }

  lemma MakeMore(world: World, tried: seq<Step>, device: Device, act: Act, rest: seq<Act>)
    ensures Make(world, tried, device, [act] + rest) ==
      if world.takes(tried, device, act).Some? then Made([Call(device, act)], world.takes(tried, device, act))
      else Made([Call(device, act)] + Make(world, tried, device, rest).calls, Make(world, tried, device, rest).trouble)
  {
    assert ([act] + rest)[1..] == rest;
  }

  /** Moving twice changes nothing but the count of moves. */
  lemma MoveOnce(world: World, tried: seq<Step>, step: Step, place: (int, int), device: Device)
    requires !step.WaitStable?
    ensures var d := Make(world, tried, device, DirectActs(step, place));
      var s := Make(world, tried, device, ScriptActs(step, place));
      Once(d.calls) == s.calls && d.trouble == s.trouble
  {
    if step.Pointer? {
      var move, click := MoveTo(place.0, place.1), Click(step.pointerButton);
      MakeOne(world, tried, device, move);
      MakeOne(world, tried, device, click);
      MakeMore(world, tried, device, move, [click]);
      MakeMore(world, tried, device, move, [move, click]);
      assert [move, click] == [move] + [click];
      if !step.click {
        assert [move] + [] == [move];
      }
    } else {
      MakeOne(world, tried, device, PlainActs(step)[0]);
      assert PlainActs(step) == [PlainActs(step)[0]];
    }
  }

  /** The first call says on which device, and for a pointer at which place. */
  lemma FirstCall(world: World, tried: seq<Step>, device: Device, acts: seq<Act>)
    requires acts != []
    ensures Make(world, tried, device, acts).calls != []
    ensures Make(world, tried, device, acts).calls[0] == Call(device, acts[0])
  {}

  lemma OnceKeepsFirst(calls: seq<Call>)
    ensures calls != [] ==> Once(calls) != [] && Once(calls)[0] == calls[0]
    ensures calls == [] ==> Once(calls) == []
  {}

  /** On one step both make the same calls exactly when it is steady, and then they also go
      right or wrong together. */
  lemma CallsAgreeIff(world: World, bound: Bound, tried: seq<Step>, step: Step)
    ensures var d, s := DirectEffect(world, tried, step), ScriptEffect(world, bound, tried, step);
      && (s.calls == Once(d.calls) <==> Steady(world, bound, tried, step))
      && (Steady(world, bound, tried, step) ==> (s.done.Wrong? <==> d.done.Wrong?))
      && (d.calls != [] <==> CanCall(world, tried, step))
  {
    hide S.Promised, S.SequenceOutcome, S.WaitFor, Rounded, Clamp, Make;
    if step.WaitStable? {
      var film := world.watch(tried, step);
      S.SequenceWaitAgreesIff(WaitOf(step, film), TraceOf(step, film));
    } else {
      var d, s := DirectDevice(step), ScriptDevice(step, bound);
      var dp :=
        if step.Pointer? && HasHead(world.head(tried)) then DirectPlace(step, world.head(tried).value) else (0, 0);
      var sp := if step.Pointer? && HasHead(bound.head) then ScriptPlace(step, bound.head.value) else (0, 0);
      FirstCall(world, tried, d, DirectActs(step, dp));
      FirstCall(world, tried, s, ScriptActs(step, sp));
      OnceKeepsFirst(DirectEffect(world, tried, step).calls);
      if d == s && dp == sp {
        MoveOnce(world, tried, step, dp, d);
      }
    }
  }

  // ---- the calls of a run ------------------------------------------------

  function CallsOf(calls: seq<seq<Call>>, k: nat): seq<Call> {
    if k < |calls| then calls[k] else []
  }

  /** The same calls, step by step, apart from repeated moves. */
  ghost predicate SameCalls(script: seq<seq<Call>>, direct: seq<seq<Call>>) {
    forall k: nat :: CallsOf(script, k) == Once(CallsOf(direct, k))
  }

  /** Every step the interpreter attempts is steady. */
  ghost predicate AllSteady(plan: seq<Step>, world: World) {
    forall k | 0 <= k < Attempted(DirectEffects(plan, world)) ::
      Steady(world, Bind(plan, world), plan[..k], plan[k])
  }

  /** No step the interpreter attempts comes to a call. */
  ghost predicate AllIdle(plan: seq<Step>, world: World) {
    forall k | 0 <= k < Attempted(DirectEffects(plan, world)) :: !CanCall(world, plan[..k], plan[k])
  }

  lemma StepAgrees(plan: seq<Step>, world: World, k: nat)
    requires k < |plan|
    ensures var d, s := DirectEffects(plan, world)[k], ScriptEffects(plan, world)[k];
      var steady := Steady(world, Bind(plan, world), plan[..k], plan[k]);
      && (s.calls == Once(d.calls) <==> steady) && (steady ==> (s.done.Wrong? <==> d.done.Wrong?))
      && (d.calls != [] <==> CanCall(world, plan[..k], plan[k]))
  {
    hide DirectEffect, ScriptEffect, Steady, CanCall, Bind;
    CallsAgreeIff(world, Bind(plan, world), plan[..k], plan[k]);
  }

  /** Steps before n that fail together: the script gets as far as the interpreter. */
  lemma FailTogether(d: seq<Effect>, s: seq<Effect>, n: nat)
    requires |d| == |s| && n <= Attempted(d) && forall k | 0 <= k < n :: s[k].done.Wrong? <==> d[k].done.Wrong?
    ensures n <= Attempted(s)
    ensures n == Attempted(d) ==> Attempted(s) == n && FirstFailure(s, 0) == FirstFailure(d, 0)
  {}

  lemma CallsToAgree(plan: seq<Step>, world: World)
    ensures var d, s := DirectEffects(plan, world), ScriptEffects(plan, world);
      SameCalls(CallsTo(s, Attempted(s)), CallsTo(d, Attempted(d))) <==> AllSteady(plan, world)
  {
    hide Steady, DirectEffects, ScriptEffects, Bind, Once;
    var d, s := DirectEffects(plan, world), ScriptEffects(plan, world);
    var n := Attempted(d);
    forall k | 0 <= k < |plan|
      ensures var steady := Steady(world, Bind(plan, world), plan[..k], plan[k]);
        && (s[k].calls == Once(d[k].calls) <==> steady) && (steady ==> (s[k].done.Wrong? <==> d[k].done.Wrong?))
    {
      StepAgrees(plan, world, k);
    }
    OnceOfNothing();
    if AllSteady(plan, world) {
      FailTogether(d, s, n);
      forall k: nat ensures CallsOf(CallsTo(s, Attempted(s)), k) == Once(CallsOf(CallsTo(d, n), k)) {
      }
    } else {
      var k := FirstUnsteady(plan, world);
      FailTogether(d, s, k);
      AttemptsNext(d, s, k);
      assert CallsOf(CallsTo(s, Attempted(s)), k) == s[k].calls;
      assert CallsOf(CallsTo(d, n), k) == d[k].calls;
    }
  }

  lemma OnceOfNothing()
    ensures Once([]) == []
  {}

  lemma FirstUnsteady(plan: seq<Step>, world: World) returns (k: nat)
    requires !AllSteady(plan, world)
    ensures k < Attempted(DirectEffects(plan, world)) && !Steady(world, Bind(plan, world), plan[..k], plan[k])
    ensures forall j | 0 <= j < k :: Steady(world, Bind(plan, world), plan[..j], plan[j])
  {
    hide Steady, Bind, DirectEffects;
    k := 0;
    while Steady(world, Bind(plan, world), plan[..k], plan[k])
      invariant k < Attempted(DirectEffects(plan, world))
      invariant forall j | 0 <= j < k :: Steady(world, Bind(plan, world), plan[..j], plan[j])
      decreases |plan| - k
    {
      k := k + 1;
    }
  }

  /** After steps that failed together the script attempts whatever the interpreter does. */
  lemma AttemptsNext(d: seq<Effect>, s: seq<Effect>, k: nat)
    requires |d| == |s| && k < Attempted(d) && forall j | 0 <= j < k :: s[j].done.Wrong? <==> d[j].done.Wrong?
    ensures k < Attempted(s)
  {}

  /** The script makes the calls of the direct interpreter, step by step and payload by
      payload, whichever arrays are compacted and however the payloads travel, exactly when
      every step finds what the script bound at its start; or, if the script threw because a
      device was missing then, when the interpreter comes to no call either. */
  lemma ScriptCallsTheSameIff(plan: seq<Step>, compact: set<nat>, remote: bool, world: World, guards: Guards)
    ensures SameCalls(ScriptRun(plan, compact, remote, world, guards).calls, DirectCalls(plan, world, guards)) <==>
      (guards.Pass() ==> if Throws(plan, world) then AllIdle(plan, world) else AllSteady(plan, world))
  {
    hide ScriptRun, Throws, AllSteady, DirectEffects, ScriptEffects, Bind;
    ScriptEnds(plan, compact, remote, world, guards);
    OnceOfNothing();
    if guards.Pass() && !Throws(plan, world) {
      CallsToAgree(plan, world);
      AttemptedAll(plan, world, ScriptRun(plan, compact, remote, world, guards));
    } else if guards.Pass() {
      IdleCalls(plan, world);
    }
  }

  lemma AttemptedAll(plan: seq<Step>, world: World, m: Machine)
    requires Reached(plan, world, |plan|, m)
    ensures m.calls == CallsTo(ScriptEffects(plan, world), Attempted(ScriptEffects(plan, world)))
  {
    hide ScriptEffects, Bind, Supplied;
  }

  lemma IdleCalls(plan: seq<Step>, world: World)
    ensures var d := DirectEffects(plan, world);
      SameCalls([], CallsTo(d, Attempted(d))) <==> AllIdle(plan, world)
  {
    hide DirectEffects, CanCall, ScriptEffects;
    var d := DirectEffects(plan, world);
    forall k | 0 <= k < |plan| ensures d[k].calls != [] <==> CanCall(world, plan[..k], plan[k]) {
      StepAgrees(plan, world, k);
    }
    forall k: nat ensures CallsOf([], k) == Once(CallsOf(CallsTo(d, Attempted(d)), k)) <==>
      (k < Attempted(d) ==> d[k].calls == [])
    {
      OnceKeepsFirst(CallsOf(CallsTo(d, Attempted(d)), k));
    }
    if AllIdle(plan, world) {
      assert forall k | 0 <= k < Attempted(d) :: d[k].calls == [];
    } else {
      var k :| 0 <= k < Attempted(d) && CanCall(world, plan[..k], plan[k]);
      assert CallsOf([], k) != Once(CallsOf(CallsTo(d, Attempted(d)), k));
    }
  }

  /** The display keeps its size, and the keyboard and the synthetic mouse stay. */
  ghost predicate Settled(world: World) {
    forall tried :: world.head(tried) == world.head([]) && world.has(tried, Keyboard) && world.has(tried, Synthetic)
  }

  lemma PlacesAgree(step: Step, head: (int, int))
    requires step.Pointer?
    ensures ScriptPlace(step, head) == DirectPlace(step, head)
  {}

  /** On a machine that stays as it is, the calls are the same for every plan. */
  lemma ScriptCallsTheSame(plan: seq<Step>, compact: set<nat>, remote: bool, world: World, guards: Guards)
    requires Settled(world)
    ensures SameCalls(ScriptRun(plan, compact, remote, world, guards).calls, DirectCalls(plan, world, guards))
  {
    hide ScriptRun, SameCalls, DirectCalls, Rounded, Clamp, DirectEffects;
    ScriptCallsTheSameIff(plan, compact, remote, world, guards);
    forall k | 0 <= k < Attempted(DirectEffects(plan, world))
      ensures Steady(world, Bind(plan, world), plan[..k], plan[k])
    {
      if plan[k].Pointer? {
        assert UsesPointer(plan);
        if HasHead(world.head([])) {
          PlacesAgree(plan[k], world.head([]).value);
        }
      }
    }
  }

  // ---- the replies -------------------------------------------------------

  /** What went wrong in a step, in the transport's words. */
  function TroubleOf(e: Effect): Option<Text> {
    if e.done.Wrong? then Some(e.done.text) else None
  }

  /** The wait ran out of time at the top of its loop with nothing but baseline frames. */
  ghost predicate RanOutStill(world: World, tried: seq<Step>, step: Step) {
    step.WaitStable? &&
    var film := world.watch(tried, step);
    S.RanOutStill(WaitOf(step, film), TraceOf(step, film))
  }

  /** On a step that goes wrong both say the same, and something; one that goes right is no
      pointer, whose place only the interpreter reports, and no wait that ran out of time at
      the top of its loop, which the script calls unchanged and the interpreter deadline. */
  ghost predicate SaysTheSame(world: World, bound: Bound, tried: seq<Step>, step: Step) {
    var s := TroubleOf(ScriptEffect(world, bound, tried, step));
    var d := TroubleOf(DirectEffect(world, tried, step));
    s == d && if s.Some? then s.value != [] else !step.Pointer? && !RanOutStill(world, tried, step)
  }

  /** Every step the interpreter attempts is reported alike. */
  ghost predicate AllSayTheSame(plan: seq<Step>, world: World) {
    forall k | 0 <= k < Attempted(DirectEffects(plan, world)) ::
      SaysTheSame(world, Bind(plan, world), plan[..k], plan[k])
  }

  /** Apart from a message that says nothing, equal records are what the predicate says. */
  lemma RecordsAgreeIff(world: World, bound: Bound, tried: seq<Step>, step: Step, k: nat)
    ensures var d, s := DirectEffect(world, tried, step), ScriptEffect(world, bound, tried, step);
      SaysTheSame(world, bound, tried, step) <==>
      RecordOf(k, s.done) == RecordOf(k, d.done) && (s.done.Wrong? ==> s.done.text != [])
  {
    hide S.Promised, S.SequenceOutcome, S.WaitFor, S.RanOutStill, Rounded, Clamp, Make, DirectPlace, ScriptPlace;
    if step.WaitStable? {
      var film := world.watch(tried, step);
      S.SequenceWaitAgreesIff(WaitOf(step, film), TraceOf(step, film));
    }
  }

  /** Two reports are equal when their records are, up to the step that fails. */
  lemma ReportsAgreeIff(d: seq<Effect>, s: seq<Effect>)
    requires |d| == |s|
    ensures Report(s) == Report(d) <==>
      forall k | 0 <= k < Attempted(d) :: RecordOf(k, s[k].done) == RecordOf(k, d[k].done)
  {
    var n := Attempted(d);
    if forall k | 0 <= k < n :: RecordOf(k, s[k].done) == RecordOf(k, d[k].done) {
      assert forall k | 0 <= k < n :: RecordOf(k, s[k].done).Failed? <==> RecordOf(k, d[k].done).Failed?;
      FailTogether(d, s, n);
      assert forall k | 0 <= k < |d| :: Report(s)[k] == Report(d)[k];
    } else {
      var k :| 0 <= k < n && RecordOf(k, s[k].done) != RecordOf(k, d[k].done);
      assert Report(d)[k] == RecordOf(k, d[k].done);
      assert Report(s)[k] == RecordOf(k, s[k].done) || Report(s)[k].Skipped?;
    }
  }

  lemma AllSayTheSameIff(plan: seq<Step>, world: World)
    ensures var d, s := DirectEffects(plan, world), ScriptEffects(plan, world);
      AllSayTheSame(plan, world) <==> Report(s) == Report(d) && !FailsSilently(s)
  {
    hide SaysTheSame, DirectEffect, ScriptEffect, Bind;
    var d, s := DirectEffects(plan, world), ScriptEffects(plan, world);
    forall k | 0 <= k < |plan|
      ensures SaysTheSame(world, Bind(plan, world), plan[..k], plan[k]) <==>
        RecordOf(k, s[k].done) == RecordOf(k, d[k].done) && (s[k].done.Wrong? ==> s[k].done.text != [])
    {
      RecordsAgreeIff(world, Bind(plan, world), plan[..k], plan[k], k);
    }
    ReportsAgreeIff(d, s);
    if Report(s) == Report(d) {
      SilenceIsLast(d, s);
    }
  }

  /** With equal reports, the step that fails is the only one that can fail silently. */
  lemma SilenceIsLast(d: seq<Effect>, s: seq<Effect>)
    requires |d| == |s| && forall k | 0 <= k < Attempted(d) :: RecordOf(k, s[k].done) == RecordOf(k, d[k].done)
    ensures FailsSilently(s) <==> exists k :: 0 <= k < Attempted(d) && s[k].done.Wrong? && s[k].done.text == []
  {
    forall k | 0 <= k < Attempted(d) ensures s[k].done.Wrong? <==> d[k].done.Wrong? {
      assert RecordOf(k, s[k].done).Failed? <==> RecordOf(k, d[k].done).Failed?;
    }
    FailTogether(d, s, Attempted(d));
  }

  /** A plan of one step, neither pointer nor wait, that fails in the script without a word
      and succeeds in process: the script's reader finds no record and takes it for a
      success. */
  ghost predicate ReadAsSuccess(plan: seq<Step>, world: World) {
    && |plan| == 1 && !plan[0].Pointer? && !plan[0].WaitStable?
    && TroubleOf(ScriptEffect(world, Bind(plan, world), [], plan[0])) == Some([])
    && TroubleOf(DirectEffect(world, [], plan[0])).None?
  }

  lemma ReadAsSuccessIff(plan: seq<Step>, world: World)
    ensures var d, s := DirectEffects(plan, world), ScriptEffects(plan, world);
      ReadAsSuccess(plan, world) <==>
      |plan| == 1 && FailsSilently(s) && Report(d) == [Good(0, None, None, None)]
  {
    hide S.Promised, S.SequenceOutcome, S.WaitFor, S.RanOutStill, Rounded, Clamp, Make, DirectPlace, ScriptPlace, Bind;
    if |plan| == 1 {
      var d, s := DirectEffects(plan, world), ScriptEffects(plan, world);
      assert plan[..0] == [];
      assert Report(d) == [RecordOf(0, d[0].done)];
      assert FailsSilently(s) <==> TroubleOf(s[0]) == Some([]);
      if plan[0].WaitStable? {
        var film := world.watch([], plan[0]);
        S.SequenceWaitAgreesIff(WaitOf(plan[0], film), TraceOf(plan[0], film));
      }
    }
  }

  /** What the script's output reads as. */
  lemma SilentReply(effects: seq<Effect>, m: Machine, guards: Guards)
    requires effects != [] && m.halted.None?
    requires m.out == LinesTo(effects, |effects|) && forall e | e in effects :: Plain(e.done)
    ensures !FailsSilently(effects) ==> ScriptReply(m, guards, |effects|) == Completed(guards.epoch, Report(effects))
    ensures FailsSilently(effects) && |effects| == 1 ==>
      ScriptReply(m, guards, |effects|) == Completed(guards.epoch, [Good(0, None, None, None)])
    ensures FailsSilently(effects) && |effects| > 1 ==>
      ScriptReply(m, guards, |effects|).Completed? && |ScriptReply(m, guards, |effects|).steps| < |effects|
  {
    hide LinesTo, RecordAt, Plain;
    ParseLines(effects, |effects|);
    var f, report := FirstFailure(effects, 0), Report(effects);
    if !FailsSilently(effects) {
      assert report[..|effects|] == report && report != [];
    } else if |effects| == 1 {
      assert Parse(m.out) == [];
      assert AllGood(1) == [Good(0, None, None, None)];
    } else {
      assert |Parse(m.out)| == |effects| - 1;
    }
  }

  /** The replies are equal exactly when the script did not throw over a missing device, no
      precondition on the frame missed, whose refusal only the interpreter dates with the
      boot epoch, and, if the preconditions passed, every attempted step is reported alike,
      or a plan's only step failed in the script without a word and succeeded in process. */
  lemma ScriptRepliesTheSameIff(plan: seq<Step>, compact: set<nat>, remote: bool, world: World, guards: Guards)
    requires plan != []
    ensures ScriptReply(ScriptRun(plan, compact, remote, world, guards), guards, |plan|) ==
            DirectReply(plan, world, guards)
      <==>
      && !Throws(plan, world) && !guards.HashMissed()
      && (guards.Pass() ==> AllSayTheSame(plan, world) || ReadAsSuccess(plan, world))
  {
    hide ScriptRun, Throws, AllSayTheSame, ReadAsSuccess, DirectEffects, ScriptEffects, Bind, Report, Supplied, Parse;
    ScriptEnds(plan, compact, remote, world, guards);
    if guards.Pass() && !Throws(plan, world) {
      ScriptIsPlain(plan, world);
      SilentReply(ScriptEffects(plan, world), ScriptRun(plan, compact, remote, world, guards), guards);
      AllSayTheSameIff(plan, world);
      ReadAsSuccessIff(plan, world);
    }
  }

  // ---- three inputs at which the transports part -------------------------

  const NO_GUARDS := Guards("", None, "", 0)

  const SAYS := Trouble([0x64], [0x73])

  /** A machine with these devices and this display on which every call succeeds. */
  function Easy(has: Device -> bool, head: seq<Step> -> Option<(int, int)>, film: Film): World {
    World((tried, d) => has(d), d => SAYS, head, SAYS, (tried, d, act) => None, (tried, step) => film)
  }

  const DARK := Film(0.0, i => S.Sample(0.0, "", 0.0, 0.0), SAYS)

  /** The display doubles in size after the first step. */
  const GROWING := Easy(d => true, tried => if tried == [] then Some((640, 480)) else Some((1280, 960)), DARK)

  const CLICK_PLAN: seq<Step> := [Codes([0x1C, 0x9C]), Pointer(100, 100, 640, 480, true, 1)]

  lemma ScriptClicks()
    ensures ScriptEffect(GROWING, Bind(CLICK_PLAN, GROWING), CLICK_PLAN[..1], CLICK_PLAN[1]).calls ==
      [Call(Synthetic, MoveTo(100, 100)), Call(Synthetic, Click(1))]
  {
    assert UsesPointer(CLICK_PLAN) by { assert CLICK_PLAN[1].Pointer?; }
    MakeMore(GROWING, CLICK_PLAN[..1], Synthetic, MoveTo(100, 100), [Click(1)]);
    MakeOne(GROWING, CLICK_PLAN[..1], Synthetic, Click(1));
  }

  lemma DirectClicks()
    ensures DirectEffect(GROWING, CLICK_PLAN[..1], CLICK_PLAN[1]).calls ==
      [Call(Synthetic, MoveTo(200, 200)), Call(Synthetic, MoveTo(200, 200)), Call(Synthetic, Click(1))]
  {
    assert CLICK_PLAN[..1] == [CLICK_PLAN[0]] && CLICK_PLAN[..1] != [];
    var far, click := MoveTo(200, 200), Click(1);
    MakeMore(GROWING, CLICK_PLAN[..1], Synthetic, far, [far, click]);
    MakeMore(GROWING, CLICK_PLAN[..1], Synthetic, far, [click]);
    MakeOne(GROWING, CLICK_PLAN[..1], Synthetic, click);
    assert [far, click] == [far] + [click];
  }

  /** A display that changes under a sequence: the script clicks at (100, 100), as the
      display was when it started, the interpreter at (200, 200). */
  lemma DisplayGrows(compact: set<nat>, remote: bool)
    ensures CallsOf(ScriptRun(CLICK_PLAN, compact, remote, GROWING, NO_GUARDS).calls, 1) ==
      [Call(Synthetic, MoveTo(100, 100)), Call(Synthetic, Click(1))]
    ensures CallsOf(DirectCalls(CLICK_PLAN, GROWING, NO_GUARDS), 1) ==
      [Call(Synthetic, MoveTo(200, 200)), Call(Synthetic, MoveTo(200, 200)), Call(Synthetic, Click(1))]
  {
    hide ScriptRun, CLICK_PLAN, GROWING, DirectEffect, ScriptEffect, Reached;
    ScriptClicks();
    DirectClicks();
    ClickAttempts();
    ScriptEnds(CLICK_PLAN, compact, remote, GROWING, NO_GUARDS);
    AttemptedAll(CLICK_PLAN, GROWING, ScriptRun(CLICK_PLAN, compact, remote, GROWING, NO_GUARDS));
  }

  lemma ClickAttempts()
    ensures |CLICK_PLAN| == 2 && !Throws(CLICK_PLAN, GROWING)
    ensures Attempted(DirectEffects(CLICK_PLAN, GROWING)) == 2 && Attempted(ScriptEffects(CLICK_PLAN, GROWING)) == 2
  {
    MakeOne(GROWING, [], Keyboard, SendCodes([0x1C, 0x9C]));
    assert CLICK_PLAN[..0] == [];
    assert DirectEffects(CLICK_PLAN, GROWING)[0].done.Fine? && ScriptEffects(CLICK_PLAN, GROWING)[0].done.Fine?;
  }

  /** No synthetic mouse, only a PS/2 one. */
  const OLD_MOUSE := Easy(d => d != Synthetic, tried => None, DARK)

  const SCROLL_PLAN: seq<Step> := [Scroll(1)]

  /** On a machine with only a PS/2 mouse the script scrolls and the interpreter fails. */
  lemma Ps2Scrolls(compact: set<nat>, remote: bool)
    ensures ScriptRun(SCROLL_PLAN, compact, remote, OLD_MOUSE, NO_GUARDS).calls == [[Call(Ps2, Turn(1))]]
    ensures DirectCalls(SCROLL_PLAN, OLD_MOUSE, NO_GUARDS) == [[]]
    ensures ScriptReply(ScriptRun(SCROLL_PLAN, compact, remote, OLD_MOUSE, NO_GUARDS), NO_GUARDS, 1)
      != DirectReply(SCROLL_PLAN, OLD_MOUSE, NO_GUARDS)
  {
    hide ScriptRun;
    ScrollEffects();
    ScriptEnds(SCROLL_PLAN, compact, remote, OLD_MOUSE, NO_GUARDS);
    ScriptRepliesTheSameIff(SCROLL_PLAN, compact, remote, OLD_MOUSE, NO_GUARDS);
  }

  lemma ScrollEffects()
    ensures !Throws(SCROLL_PLAN, OLD_MOUSE)
    ensures CallsTo(ScriptEffects(SCROLL_PLAN, OLD_MOUSE), 1) == [[Call(Ps2, Turn(1))]]
    ensures CallsTo(DirectEffects(SCROLL_PLAN, OLD_MOUSE), 1) == [[]]
    ensures !AllSayTheSame(SCROLL_PLAN, OLD_MOUSE) && !ReadAsSuccess(SCROLL_PLAN, OLD_MOUSE)
  {
    MakeOne(OLD_MOUSE, [], Ps2, Turn(1));
    assert SCROLL_PLAN[..0] == [];
    assert UsesMouse(SCROLL_PLAN) by { assert OnMouse(SCROLL_PLAN[0]); }
    assert DirectEffects(SCROLL_PLAN, OLD_MOUSE)[0].done.Wrong?;
    assert !SaysTheSame(OLD_MOUSE, Bind(SCROLL_PLAN, OLD_MOUSE), SCROLL_PLAN[..0], SCROLL_PLAN[0]);
  }

  /** A machine whose wait sees nothing but the baseline until time is up. */
  const STILL := Easy(d => true, tried => None, Film(0.0, S.StillSample, SAYS))

  const WAIT_PLAN: seq<Step> := [WaitStable(1000, 5, 250, "h")]

  /** On it the reports differ: the script says unchanged, the interpreter deadline. */
  lemma StillWaitReports(compact: set<nat>, remote: bool)
    ensures ScriptReply(ScriptRun(WAIT_PLAN, compact, remote, STILL, NO_GUARDS), NO_GUARDS, 1)
      != DirectReply(WAIT_PLAN, STILL, NO_GUARDS)
  {
    hide ScriptRun, ScriptReply, DirectReply;
    StillWaitSaysOtherwise();
    ScriptRepliesTheSameIff(WAIT_PLAN, compact, remote, STILL, NO_GUARDS);
  }

  lemma StillWaitSaysOtherwise()
    ensures !AllSayTheSame(WAIT_PLAN, STILL) && !ReadAsSuccess(WAIT_PLAN, STILL)
  {
    hide S.Promised, S.SequenceOutcome, S.RanOutStill, S.WaitFor, S.StillSample;
    var step, film := WAIT_PLAN[0], STILL.watch([], WAIT_PLAN[0]);
    assert WAIT_PLAN[..0] == [];
    assert WaitOf(step, film) == S.STILL_WAIT && TraceOf(step, film) == S.StillTrace();
    S.StillRanOut();
    assert RanOutStill(STILL, WAIT_PLAN[..0], step);
    assert Attempted(DirectEffects(WAIT_PLAN, STILL)) == 1;
    assert !SaysTheSame(STILL, Bind(WAIT_PLAN, STILL), WAIT_PLAN[..0], step);
  }
}
