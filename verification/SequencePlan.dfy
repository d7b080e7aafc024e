/** Checking a batch of console steps before anything runs, and normalising it to a plan. */
module SequencePlan {
  import opened Common
  import opened Sequence
  import Scancodes

  /** A step as the caller wrote it; None is a field left out. */
  datatype Raw =
    | PressKey(key: string, modifiers: seq<string>)
    | KeyCombo(keys: seq<string>)
    | TypeText(text: Text)
    | TypeScancodes(raw: seq<int>)
    | MouseMove(x: Option<int>, y: Option<int>, frameWidth: int, frameHeight: int)
    | Click(x: Option<int>, y: Option<int>, frameWidth: int, frameHeight: int, button: int)
    | MouseButton(button: int, isDown: bool)
    | ScrollBy(delta: Option<int>)
    | WaitFrameStable(stableMs: Option<int>, timeoutS: Option<int>, intervalMs: Option<int>, baseline: string)
    | UnknownAction

  datatype Rejection = BadCount | BadStep(index: nat)

  const MAX_STEPS: nat := 50

  predicate IsHexDigest(s: string) {
    |s| == 64 && forall i | 0 <= i < 64 :: '0' <= s[i] <= '9' || 'a' <= s[i] <= 'f'
  }

  predicate IsButton(button: int) {
    button == 1 || button == 2
  }

  predicate AreBytes(codes: seq<int>) {
    forall i | 0 <= i < |codes| :: 0 <= codes[i] < 256
  }

  // ---- what a plan may hold ----------------------------------------------

  /** What later stages rely on: bytes to send, ASCII to type, a button the mouse has, and
      a quiet window that can be observed before the wait is over. */
  predicate Fit(step: Step, callTimeout: int) {
    match step
    case Codes(codes) => codes != []
    case Typing(text) => text != [] && forall i | 0 <= i < |text| :: text[i] < 128
    case Pointer(_, _, width, height, _, button) => FrameFits(width, height) && IsButton(button)
    case ClickHere(button) => IsButton(button)
    case Button(button, _) => IsButton(button)
    case Scroll(_) => true
    case WaitStable(stableMs, timeoutS, intervalMs, baseline) =>
      && 1 <= timeoutS <= callTimeout && 1 <= stableMs < timeoutS * 1000 && intervalMs >= 1
      && (baseline == "" || IsHexDigest(baseline))
  }

  function WaitOf(step: Step): int {
    if step.WaitStable? then step.timeoutS else 0
  }

  function TotalWait(plan: seq<Step>): int {
    if plan == [] then 0 else TotalWait(plan[..|plan| - 1]) + WaitOf(plan[|plan| - 1])
  }

  // ---- one step ----------------------------------------------------------

  function Encoded(codes: Result<seq<nat>, Scancodes.EncodeError>): (step: Option<Step>)
    ensures codes.Ok? && AreBytes(codes.value) ==> step == Some(Codes(codes.value))
  {
    if codes.Ok? && AreBytes(codes.value) then Some(Codes(codes.value)) else None
  }

  function Modifiers(names: seq<string>): seq<string> {
    Scancodes.Held(Scancodes.SET_ONE, names)
  }

  /** A pressed key is tapped even when it is a modifier; only the names given as modifiers
      are held. */
  function Pressed(key: string, modifiers: seq<string>): Option<Step> {
    if key == "" then None
    else
      var held := Modifiers(modifiers);
      var tapped := [key] + Scancodes.Tapped(Scancodes.SET_ONE, modifiers);
      Encoded(Scancodes.Combo(Scancodes.SET_ONE, held, tapped))
  }

  function WaitStep(stableMs: Option<int>, timeoutS: Option<int>, intervalMs: Option<int>, baseline: string,
                    callTimeout: int): Option<Step>
  {
    var timeout := if timeoutS.Some? then timeoutS.value else callTimeout;
    var interval := if intervalMs.Some? then intervalMs.value else 250;
    if stableMs.None? || stableMs.value < 1 || timeout < 1
      || stableMs.value >= Min(timeout, callTimeout) * 1000
      || interval < 1 || (baseline != "" && !IsHexDigest(baseline)) then None
    else Some(WaitStable(stableMs.value, Min(timeout, callTimeout), interval, baseline))
  }

  /** The plan step for one raw step, wait budgets aside. */
  function Normal(raw: Raw, callTimeout: int): Option<Step> {
    match raw
    case PressKey(key, modifiers) => Pressed(key, modifiers)
    case KeyCombo(keys) => if keys == [] then None else Encoded(Scancodes.KeyCombo(Scancodes.SET_ONE, keys))
    case TypeText(text) =>
      if text == [] || exists i | 0 <= i < |text| :: text[i] > 127 then None else Some(Typing(text))
    case TypeScancodes(codes) => if codes == [] || !AreBytes(codes) then None else Some(Codes(codes))
    case MouseMove(x, y, width, height) =>
      if x.None? || y.None? || !FrameFits(width, height) then None
      else Some(Pointer(x.value, y.value, width, height, false, 1))
    case Click(x, y, width, height, button) =>
      if !IsButton(button) then None
      else if x.None? && y.None? then Some(ClickHere(button))
      else if x.None? || y.None? || !FrameFits(width, height) then None
      else Some(Pointer(x.value, y.value, width, height, true, button))
    case MouseButton(button, isDown) => if IsButton(button) then Some(Button(button, isDown)) else None
    case ScrollBy(delta) => if delta.None? then None else Some(Scroll(delta.value))
    case WaitFrameStable(stableMs, timeoutS, intervalMs, baseline) =>
      WaitStep(stableMs, timeoutS, intervalMs, baseline, callTimeout)
    case UnknownAction => None
  }

  /** What a raw wait is charged against the call's time, checked before anything else. */
  function Charge(raw: Raw, callTimeout: int): int {
    if !raw.WaitFrameStable? then 0
    else Min(if raw.timeoutS.Some? then raw.timeoutS.value else callTimeout, callTimeout)
  }

  lemma CodeIsBytes(c: Scancodes.Code)
    requires c.WellFormed()
    ensures AreBytes(c.Down()) && AreBytes(c.Up()) && c.Down() != []
  {}

  lemma {:induction false} GroupsAreBytes(cs: seq<Scancodes.Code>)
    requires Scancodes.AllWellFormed(cs)
    ensures AreBytes(Scancodes.Downs(cs)) && AreBytes(Scancodes.Taps(cs)) && AreBytes(Scancodes.Ups(cs))
    ensures cs != [] ==> Scancodes.Taps(cs) != []
  {
    if cs != [] {
      GroupsAreBytes(cs[..|cs| - 1]);
      CodeIsBytes(cs[|cs| - 1]);
    }
  }

  lemma BytesJoin(a: seq<nat>, b: seq<nat>, c: seq<nat>)
    requires AreBytes(a) && AreBytes(b) && AreBytes(c)
    ensures AreBytes(a + b + c)
  {}

  /** Every combo the key table knows is a non-empty string of bytes. */
  lemma ComboIsBytes(mods: seq<string>, rest: seq<string>)
    ensures var codes := Scancodes.Combo(Scancodes.SET_ONE, mods, rest);
      codes.Ok? ==> AreBytes(codes.value) && codes.value != []
  {
    hide Scancodes.Lookup, Scancodes.Normal, Scancodes.Downs, Scancodes.Taps, Scancodes.Ups, AreBytes;
    if Scancodes.Combo(Scancodes.SET_ONE, mods, rest).Ok? {
      Scancodes.SetOneIsGood();
      var ms, rs := Scancodes.Entries(Scancodes.SET_ONE, mods), Scancodes.Entries(Scancodes.SET_ONE, rest);
      GroupsAreBytes(ms);
      GroupsAreBytes(rs);
      BytesJoin(Scancodes.Downs(ms), Scancodes.Taps(rs), Scancodes.Ups(ms));
    }
  }

  lemma NormalFits(raw: Raw, callTimeout: int)
    requires Normal(raw, callTimeout).Some?
    ensures Fit(Normal(raw, callTimeout).value, callTimeout)
    ensures Charge(raw, callTimeout) == WaitOf(Normal(raw, callTimeout).value) >= 0
  {
    match raw
    case PressKey(key, modifiers) =>
      ComboIsBytes(Modifiers(modifiers), [key] + Scancodes.Tapped(Scancodes.SET_ONE, modifiers));
    case KeyCombo(keys) =>
      ComboIsBytes(Modifiers(keys), Scancodes.Tapped(Scancodes.SET_ONE, keys));
    case _ =>
  }

  // ---- what becomes of a raw step ----------------------------------------

  predicate InTable(key: string) {
    Scancodes.Find(Scancodes.SET_ONE, key).Some?
  }

  predicate NamesModifier(key: string) {
    Scancodes.IsModifier(Scancodes.SET_ONE, key)
  }

  predicate PlaceGiven(x: Option<int>, y: Option<int>, width: int, height: int) {
    x.Some? && y.Some? && ((width == 0 && height == 0) || (width > 0 && height > 0))
  }

  /** A raw step can be run: its keys are in the table and, in a combo, not all modifiers;
      its text is ASCII, its codes are bytes, its button is the left or the right one, a
      place is given whole; and its quiet window is shorter than its wait. */
  ghost predicate Acceptable(raw: Raw, callTimeout: int) {
    match raw
    case PressKey(key, modifiers) => key != "" && InTable(key) && forall m | m in modifiers :: InTable(m)
    case KeyCombo(keys) => (exists k :: k in keys && !NamesModifier(k)) && forall k | k in keys :: InTable(k)
    case TypeText(text) => text != [] && forall i | 0 <= i < |text| :: text[i] <= 127
    case TypeScancodes(codes) => codes != [] && forall i | 0 <= i < |codes| :: 0 <= codes[i] <= 255
    case MouseMove(x, y, width, height) => PlaceGiven(x, y, width, height)
    case Click(x, y, width, height, button) =>
      (button == 1 || button == 2) && ((x.None? && y.None?) || PlaceGiven(x, y, width, height))
    case MouseButton(button, _) => button == 1 || button == 2
    case ScrollBy(delta) => delta.Some?
    case WaitFrameStable(stableMs, timeoutS, intervalMs, baseline) =>
      && stableMs.Some? && 1 <= stableMs.value < Min(timeoutS.GetOr(callTimeout), callTimeout) * 1000
      && timeoutS.GetOr(callTimeout) >= 1 && intervalMs.GetOr(250) >= 1 && (baseline == "" || IsHexDigest(baseline))
    case UnknownAction => false
  }

  lemma KnownIff(names: seq<string>)
    ensures Scancodes.Known(Scancodes.SET_ONE, names) <==> forall m | m in names :: InTable(m)
  {
    assert forall i | 0 <= i < |names| :: names[i] in names;
  }

  lemma PressIff(key: string, modifiers: seq<string>)
    ensures Scancodes.Combo(Scancodes.SET_ONE, Modifiers(modifiers),
                            [key] + Scancodes.Tapped(Scancodes.SET_ONE, modifiers)).Ok?
      <==> InTable(key) && forall m | m in modifiers :: InTable(m)
  {
    hide Scancodes.Lookup, Scancodes.Normal, Scancodes.Downs, Scancodes.Taps, Scancodes.Ups;
    var held, tapped := Modifiers(modifiers), Scancodes.Tapped(Scancodes.SET_ONE, modifiers);
    var rest := [key] + tapped;
    assert forall m :: m in modifiers <==> m in held || m in tapped;
    KnownIff(held);
    KnownIff(rest);
    assert forall m :: m in rest <==> m == key || m in tapped;
  }

  /** Exactly the acceptable raw steps become steps of the plan. */
  lemma NormalIff(raw: Raw, callTimeout: int)
    requires callTimeout >= 1
    ensures Normal(raw, callTimeout).Some? <==> Acceptable(raw, callTimeout)
  {
    hide Scancodes.Lookup, Scancodes.Normal, Scancodes.Combo, Scancodes.KeyCombo;
    match raw
    case PressKey(key, modifiers) =>
      PressIff(key, modifiers);
      ComboIsBytes(Modifiers(modifiers), [key] + Scancodes.Tapped(Scancodes.SET_ONE, modifiers));
    case KeyCombo(keys) =>
      Scancodes.KeyComboIff(Scancodes.SET_ONE, keys);
      KeyComboIsBytes(keys);
    case _ =>
  }

  lemma KeyComboIsBytes(keys: seq<string>)
    ensures var codes := Scancodes.KeyCombo(Scancodes.SET_ONE, keys); codes.Ok? ==> AreBytes(codes.value)
  {
    hide Scancodes.Combo;
    ComboIsBytes(Modifiers(keys), Scancodes.Tapped(Scancodes.SET_ONE, keys));
  }

  /** The codes press and release keys: the held ones go down in order, the others are
      tapped in order, and the held ones come up in reverse. */
  ghost predicate Strikes(codes: seq<nat>, held: seq<string>, tapped: seq<string>) {
    var l := Scancodes.SET_ONE;
    && Scancodes.Known(l, held) && Scancodes.Known(l, tapped)
    && var hs, ts := Scancodes.Entries(l, held), Scancodes.Entries(l, tapped);
       Scancodes.Decode(codes) == Some(Scancodes.Presses(hs) + Scancodes.TapEvents(ts) + Scancodes.Releases(hs))
  }

  /** The names of a list that are modifiers and those that are not, each as often and in the
      order they are given. */
  ghost predicate Sorted(all: seq<string>, held: seq<string>, others: seq<string>) {
    && Subsequence(held, all) && Subsequence(others, all)
    && (forall k :: k in held <==> k in all && NamesModifier(k))
    && (forall k :: k in others <==> k in all && !NamesModifier(k))
    && |held| + |others| == |all|
  }

  /** The step of the plan does what the raw step asks for. */
  ghost predicate Faithful(raw: Raw, callTimeout: int, step: Step) {
    match raw
    case PressKey(key, modifiers) =>
      step.Codes? && exists held, others ::
        Sorted(modifiers, held, others) && Strikes(step.codes, held, [key] + others)
    case KeyCombo(keys) =>
      step.Codes? && exists held, others :: Sorted(keys, held, others) && Strikes(step.codes, held, others)
    case TypeText(text) => step.Typing? && step.text == text
    case TypeScancodes(codes) => step.Codes? && step.codes == codes
    case MouseMove(x, y, width, height) =>
      && step.Pointer? && Some(step.x) == x && Some(step.y) == y && !step.click
      && step.frameWidth == width && step.frameHeight == height
    case Click(x, y, width, height, button) =>
      if x.None? then step == ClickHere(button) else
        && step.Pointer? && Some(step.x) == x && Some(step.y) == y && step.click && step.pointerButton == button
        && step.frameWidth == width && step.frameHeight == height
    case MouseButton(button, isDown) => step == Button(button, isDown)
    case ScrollBy(delta) => step.Scroll? && Some(step.delta) == delta
    case WaitFrameStable(stableMs, timeoutS, intervalMs, baseline) =>
      && step.WaitStable? && Some(step.stableMs) == stableMs && step.baseline == baseline
      && step.intervalMs == intervalMs.GetOr(250) && step.timeoutS <= callTimeout
      && if timeoutS.Some? && timeoutS.value <= callTimeout then step.timeoutS == timeoutS.value
         else step.timeoutS == callTimeout
    case UnknownAction => false
  }

  lemma {:induction false} KeepSplits(xs: seq<string>, p: string -> bool, q: string -> bool)
    requires forall x | x in xs :: p(x) != q(x)
    ensures |Keep(xs, p)| + |Keep(xs, q)| == |xs|
  {
    if xs != [] {
      KeepSplits(xs[..|xs| - 1], p, q);
    }
  }

  lemma SortsThem(names: seq<string>)
    ensures Sorted(names, Modifiers(names), Scancodes.Tapped(Scancodes.SET_ONE, names))
  {
    hide Scancodes.Normal;
    var held := Modifiers(names);
    KeepIsSubsequence(names, (k: string) => Scancodes.IsModifier(Scancodes.SET_ONE, k));
    KeepIsSubsequence(names, (k: string) => k !in held);
    KeepSplits(names, (k: string) => Scancodes.IsModifier(Scancodes.SET_ONE, k), (k: string) => k !in held);
  }

  lemma ComboStrikes(held: seq<string>, tapped: seq<string>)
    ensures var codes := Scancodes.Combo(Scancodes.SET_ONE, held, tapped);
      codes.Ok? ==> Strikes(codes.value, held, tapped)
  {
    hide Scancodes.Lookup, Scancodes.Normal, Scancodes.Downs, Scancodes.Taps, Scancodes.Ups;
    if Scancodes.Combo(Scancodes.SET_ONE, held, tapped).Ok? {
      Scancodes.SetOneIsGood();
      Scancodes.ComboRoundTrip(Scancodes.SET_ONE, held, tapped);
    }
  }

  /** Whatever becomes of a raw step asks for what the raw step did. */
  lemma NormalIsFaithful(raw: Raw, callTimeout: int)
    requires Normal(raw, callTimeout).Some?
    ensures Faithful(raw, callTimeout, Normal(raw, callTimeout).value)
  {
    hide Scancodes.Lookup, Scancodes.Normal, Scancodes.Combo, Strikes, Sorted;
    match raw
    case PressKey(key, modifiers) =>
      SortsThem(modifiers);
      var held, others := Modifiers(modifiers), Scancodes.Tapped(Scancodes.SET_ONE, modifiers);
      ComboStrikes(held, [key] + others);
    case KeyCombo(keys) =>
      SortsThem(keys);
      ComboStrikes(Modifiers(keys), Scancodes.Tapped(Scancodes.SET_ONE, keys));
    case _ =>
  }

  // ---- the whole batch ---------------------------------------------------

  /** The plan of the first n steps, when each of them is sound on its own. */
  ghost predicate Plans(steps: seq<Raw>, callTimeout: int, n: nat, plan: seq<Step>) {
    && n <= |steps| && |plan| == n
    && forall i | 0 <= i < n :: Normal(steps[i], callTimeout) == Some(plan[i])
  }

  /** Step i is the one to blame: everything before it plans within the time, and it does
      not plan at all or takes the waits over the call's time. */
  ghost predicate Blamed(steps: seq<Raw>, callTimeout: int, i: nat, plan: seq<Step>) {
    && i < |steps| && Plans(steps, callTimeout, i, plan) && TotalWait(plan) <= callTimeout
    && (Normal(steps[i], callTimeout).None?
        || TotalWait(plan) + Charge(steps[i], callTimeout) > callTimeout)
  }

  /** Every step is sound on its own and all the waits together fit into the call. */
  ghost predicate Feasible(steps: seq<Raw>, callTimeout: int) {
    exists plan :: Plans(steps, callTimeout, |steps|, plan) && TotalWait(plan) <= callTimeout
  }

  lemma {:induction false} TotalWaitGrows(plan: seq<Step>, n: nat)
    requires n <= |plan| && forall i | 0 <= i < |plan| :: WaitOf(plan[i]) >= 0
    ensures TotalWait(plan[..n]) <= TotalWait(plan)
  {
    if n < |plan| {
      TotalWaitGrows(plan[..|plan| - 1], n);
      assert plan[..|plan| - 1][..n] == plan[..n];
    } else {
      assert plan[..n] == plan;
    }
  }

  lemma ChargedOver(steps: seq<Raw>, callTimeout: int, i: nat, before: seq<Step>, plan: seq<Step>)
    requires Blamed(steps, callTimeout, i, before) && Plans(steps, callTimeout, |steps|, plan)
    ensures TotalWait(plan) > callTimeout
  {
    hide Normal, Charge, Fit, TotalWait;
    forall k | 0 <= k < |steps| ensures WaitOf(plan[k]) >= 0 {
      NormalFits(steps[k], callTimeout);
    }
    assert before == plan[..i];
    NormalFits(steps[i], callTimeout);
    assert plan[..i + 1] == plan[..i] + [plan[i]];
    TotalWaitOneMore(plan[..i], plan[i]);
    TotalWaitGrows(plan, i + 1);
  }

  /** A batch with a step to blame has no plan that fits the call: refusing at the first
      such step refuses nothing that could have run. */
  lemma BlamedHasNoPlan(steps: seq<Raw>, callTimeout: int, i: nat, before: seq<Step>)
    requires Blamed(steps, callTimeout, i, before)
    ensures !Feasible(steps, callTimeout)
  {
    forall plan | Plans(steps, callTimeout, |steps|, plan) ensures TotalWait(plan) > callTimeout {
      ChargedOver(steps, callTimeout, i, before, plan);
    }
  }

  predicate AllFit(plan: seq<Step>, callTimeout: int) {
    forall i | 0 <= i < |plan| :: Fit(plan[i], callTimeout)
  }

  lemma NothingYet(steps: seq<Raw>, callTimeout: int)
    ensures Plans(steps, callTimeout, 0, []) && TotalWait([]) == 0 && AllFit([], callTimeout)
  {}

  lemma OneMore(steps: seq<Raw>, callTimeout: int, i: nat, plan: seq<Step>, step: Step)
    requires i < |steps| && Plans(steps, callTimeout, i, plan) && AllFit(plan, callTimeout)
    requires Normal(steps[i], callTimeout) == Some(step)
    ensures Plans(steps, callTimeout, i + 1, plan + [step]) && AllFit(plan + [step], callTimeout)
    ensures TotalWait(plan + [step]) == TotalWait(plan) + Charge(steps[i], callTimeout)
  {
    hide Normal, Charge, Fit, TotalWait, WaitOf;
    NormalFits(steps[i], callTimeout);
    TotalWaitOneMore(plan, step);
  }

  method Validate(steps: seq<Raw>, callTimeout: int) returns (r: Result<seq<Step>, Rejection>, ghost sofar: seq<Step>)
    requires callTimeout >= 1
    ensures r.Ok? <==> 1 <= |steps| <= MAX_STEPS && Feasible(steps, callTimeout)
    ensures r == Err(BadCount) <==> |steps| == 0 || |steps| > MAX_STEPS
    ensures r.Ok? ==> Plans(steps, callTimeout, |steps|, r.value) && TotalWait(r.value) <= callTimeout
    ensures r.Ok? ==> AllFit(r.value, callTimeout)
    ensures r.Err? && r.error.BadStep? ==> Blamed(steps, callTimeout, r.error.index, sofar)
  {
    NothingYet(steps, callTimeout);
    hide Normal, Charge, Fit, Feasible, TotalWait, Plans, AllFit, WaitOf;
    sofar := [];
    if |steps| == 0 || |steps| > MAX_STEPS {
      return Err(BadCount), [];
    }
    var plan: seq<Step>, used := [], 0;
    var i := 0;
    while i < |steps|
      invariant 0 <= i <= |steps| && Plans(steps, callTimeout, i, plan)
      invariant used == TotalWait(plan) <= callTimeout
      invariant AllFit(plan, callTimeout)
    {
      var charge := Charge(steps[i], callTimeout);
      var step := Normal(steps[i], callTimeout);
      if used + charge > callTimeout || step.None? {
        BlamedHasNoPlan(steps, callTimeout, i, plan);
        return Err(BadStep(i)), plan;
      }
      OneMore(steps, callTimeout, i, plan, step.value);
      plan, used := plan + [step.value], used + charge;
      i := i + 1;
    }
    r := Ok(plan);
    IsFeasible(steps, callTimeout, plan);
  }

  lemma TotalWaitOneMore(plan: seq<Step>, step: Step)
    ensures TotalWait(plan + [step]) == TotalWait(plan) + WaitOf(step)
  {
    assert (plan + [step])[..|plan|] == plan;
  }

  lemma IsFeasible(steps: seq<Raw>, callTimeout: int, plan: seq<Step>)
    requires Plans(steps, callTimeout, |steps|, plan) && TotalWait(plan) <= callTimeout
    ensures Feasible(steps, callTimeout)
  {}

  /** The wait of a plan is the sum of its waits' own times. */
  lemma {:induction false} WaitsAddUp(a: seq<Step>, b: seq<Step>)
    ensures TotalWait(a + b) == TotalWait(a) + TotalWait(b)
    ensures forall step: Step :: TotalWait([step]) == if step.WaitStable? then step.timeoutS else 0
  {
    if b == [] {
      assert a + b == a;
    } else {
      WaitsAddUp(a, b[..|b| - 1]);
      assert (a + b)[..|a + b| - 1] == a + b[..|b| - 1];
    }
    forall step: Step ensures TotalWait([step]) == if step.WaitStable? then step.timeoutS else 0 {
      assert [step][..0] == [];
    }
  }

  /** A plan is made of the steps asked for, and of acceptable ones only. */
  lemma PlanIsFaithful(steps: seq<Raw>, callTimeout: int, plan: seq<Step>)
    requires callTimeout >= 1 && Plans(steps, callTimeout, |steps|, plan)
    ensures |plan| == |steps|
    ensures forall i | 0 <= i < |steps| :: Acceptable(steps[i], callTimeout) && Faithful(steps[i], callTimeout, plan[i])
  {
    hide Normal, Acceptable, Faithful;
    forall i | 0 <= i < |steps|
      ensures Acceptable(steps[i], callTimeout) && Faithful(steps[i], callTimeout, plan[i])
    {
      NormalIff(steps[i], callTimeout);
      NormalIsFaithful(steps[i], callTimeout);
    }
  }
}
