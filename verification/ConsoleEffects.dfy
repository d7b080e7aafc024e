/** What the calls of a sequence do to the console, and where on it a pointer points. */
module ConsoleEffects {
  import opened Common
  import opened Sequence
  import opened SequenceScript
  import S = SettleWait
  import Utf8

  // ---- a console ---------------------------------------------------------

  datatype Key = Raw(code: Byte) | Typed(letter: Utf8.Scalar)

  datatype Press = Press(button: int, at: (int, int))

  /** What has come in from the keyboard, in order, and what the mouse has done: where it
      points, which buttons are down, its clicks and how far its wheel has turned. */
  datatype Console = Console(keys: seq<Key>, at: (int, int), down: set<int>, clicks: seq<Press>, wheel: int)

  function RawKeys(codes: seq<Byte>): seq<Key> {
    seq(|codes|, i requires 0 <= i < |codes| => Raw(codes[i]))
  }

  function TypedKeys(text: Text): seq<Key> {
    seq(|text|, i requires 0 <= i < |text| => Typed(text[i]))
  }

  predicate ForKeyboard(act: Act) {
    act.SendCodes? || act.SendText?
  }

  /** One call that succeeds. On a device of the wrong kind it does nothing. */
  function Felt(c: Console, call: Call): Console {
    if ForKeyboard(call.act) != call.device.Keyboard? then c else
      match call.act
      case SendCodes(codes) => c.(keys := c.keys + RawKeys(codes))
      case SendText(text) => c.(keys := c.keys + TypedKeys(text))
      case MoveTo(x, y) => c.(at := (x, y))
      case Click(button) => c.(clicks := c.clicks + [Press(button, c.at)])
      case SetButton(button, isDown) => c.(down := c.down - {button} + if isDown then {button} else {})
      case Turn(delta) => c.(wheel := c.wheel + delta)
  }

  function Replay(c: Console, calls: seq<Call>): Console {
    if calls == [] then c else Felt(Replay(c, calls[..|calls| - 1]), calls[|calls| - 1])
  }

  lemma {:induction false} ReplayJoins(c: Console, a: seq<Call>, b: seq<Call>)
    ensures Replay(c, a + b) == Replay(Replay(c, a), b)
  {
    if b == [] {
      assert a + b == a;
    } else {
      ReplayJoins(c, a, b[..|b| - 1]);
      assert (a + b)[..|a + b| - 1] == a + b[..|b| - 1];
    }
  }

  // ---- what a step is for ------------------------------------------------

  /** What a step that points at `spot` is for: the console before it and after it. */
  ghost predicate Meant(before: Console, step: Step, spot: (int, int), after: Console) {
    match step
    case Codes(codes) => after == before.(keys := before.keys + RawKeys(codes))
    case Typing(text) => after == before.(keys := before.keys + TypedKeys(text))
    case Pointer(_, _, _, _, click, button) =>
      && after == before.(at := spot, clicks := after.clicks)
      && after.clicks == before.clicks + if click then [Press(button, spot)] else []
    case ClickHere(button) => after == before.(clicks := before.clicks + [Press(button, before.at)])
    case Button(button, isDown) =>
      && after == before.(down := after.down) && (button in after.down <==> isDown)
      && forall other | other != button :: other in after.down <==> other in before.down
    case Scroll(delta) => after == before.(wheel := before.wheel + delta)
    case WaitStable(_, _, _, _) => after == before
  }

  /** Every step of a plan did what it is for, one after another. */
  ghost predicate AllMeant(c: Console, plan: seq<Step>, spots: seq<(int, int)>, calls: seq<seq<Call>>) {
    && |calls| <= |plan| && |calls| <= |spots|
    && forall k | 0 <= k < |calls| ::
         Meant(Replay(c, Joined(calls[..k])), plan[k], spots[k], Replay(c, Joined(calls[..k + 1])))
  }

  function Joined(calls: seq<seq<Call>>): seq<Call> {
    if calls == [] then [] else Joined(calls[..|calls| - 1]) + calls[|calls| - 1]
  }

  function On(device: Device, acts: seq<Act>): seq<Call> {
    seq(|acts|, i requires 0 <= i < |acts| => Call(device, acts[i]))
  }

  /** Calls that all succeed are those that were asked for. */
  lemma {:induction false} MakesAll(world: World, tried: seq<Step>, device: Device, acts: seq<Act>)
    ensures var made := Make(world, tried, device, acts);
      if made.trouble.None?
        then made.calls == On(device, acts) && forall act | act in acts :: world.takes(tried, device, act).None?
      else made.calls <= On(device, acts)
  {
    if acts != [] {
      MakesAll(world, tried, device, acts[1..]);
      assert On(device, acts) == [Call(device, acts[0])] + On(device, acts[1..]);
      assert acts == [acts[0]] + acts[1..];
    }
  }

  lemma ReplayOne(c: Console, call: Call)
    ensures Replay(c, [call]) == Felt(c, call)
  {
    assert [call][..0] == [];
  }

  lemma ActsMean(c: Console, step: Step, spot: (int, int), device: Device)
    requires !step.WaitStable? && (device.Keyboard? <==> OnKeyboard(step))
    ensures Meant(c, step, spot, Replay(c, On(device, DirectActs(step, spot))))
    ensures Meant(c, step, spot, Replay(c, On(device, ScriptActs(step, spot))))
  {
    if step.Pointer? {
      var move, click := Call(device, MoveTo(spot.0, spot.1)), Call(device, Click(step.pointerButton));
      ReplayOne(c, move);
      ReplayOne(Felt(c, move), move);
      ReplayOne(Felt(c, move), click);
      ReplayJoins(c, [move], [click]);
      ReplayJoins(c, [move], [move]);
      ReplayJoins(c, [move] + [move], [click]);
      assert On(device, ScriptActs(step, spot)) == if step.click then [move] + [click] else [move];
      assert On(device, DirectActs(step, spot)) == if step.click then [move] + [move] + [click] else [move];
    } else {
      var acts := PlainActs(step);
      assert On(device, acts) == [Call(device, acts[0])];
      ReplayOne(c, Call(device, acts[0]));
    }
  }

  // ---- one step, and a whole run, on either transport --------------------

  /** Where a pointer step points in process, on the display as it finds it. */
  function DirectSpot(world: World, tried: seq<Step>, step: Step): (int, int) {
    if step.Pointer? && HasHead(world.head(tried)) then DirectPlace(step, world.head(tried).value) else (0, 0)
  }

  /** Where it points in the script, on the display as the script found it. */
  function ScriptSpot(bound: Bound, step: Step): (int, int) {
    if step.Pointer? && HasHead(bound.head) then ScriptPlace(step, bound.head.value) else (0, 0)
  }

  /** A step that goes right does what it is for, and in process reports the place it
      pointed at. */
  lemma StepDoes(world: World, bound: Bound, tried: seq<Step>, step: Step, c: Console)
    requires !bound.mouse.Keyboard?
    ensures var d := DirectEffect(world, tried, step);
      d.done.Fine? ==>
        && Meant(c, step, DirectSpot(world, tried, step), Replay(c, d.calls))
        && d.done.head == if step.Pointer? then Some(DirectSpot(world, tried, step)) else None
    ensures var s := ScriptEffect(world, bound, tried, step);
      s.done.Fine? ==> Meant(c, step, ScriptSpot(bound, step), Replay(c, s.calls))
  {
    hide Make, DirectPlace, ScriptPlace, Replay, Meant, DirectActs, ScriptActs;
    if step.WaitStable? {
      WaitDoesNothing(c, step);
    } else {
      var spot, other := DirectSpot(world, tried, step), ScriptSpot(bound, step);
      MakesAll(world, tried, DirectDevice(step), DirectActs(step, spot));
      MakesAll(world, tried, ScriptDevice(step, bound), ScriptActs(step, other));
      ActsMean(c, step, spot, DirectDevice(step));
      ActsMean(c, step, other, ScriptDevice(step, bound));
    }
  }

  lemma WaitDoesNothing(c: Console, step: Step)
    requires step.WaitStable?
    ensures Meant(c, step, (0, 0), Replay(c, []))
  {}

  /** Something that kept a step from going right in process: no display to point at, no
      device, or a call that the device did not take. */
  predicate InTheWay(world: World, tried: seq<Step>, step: Step, trouble: Trouble) {
    || (step.Pointer? && !HasHead(world.head(tried)) && trouble == world.noHead)
    || (!world.has(tried, DirectDevice(step)) && trouble == world.lacks(DirectDevice(step)))
    || exists act :: act in DirectActs(step, DirectSpot(world, tried, step))
                     && world.takes(tried, DirectDevice(step), act) == Some(trouble)
  }

  lemma {:induction false} MakeMeets(world: World, tried: seq<Step>, device: Device, acts: seq<Act>)
    ensures var trouble := Make(world, tried, device, acts).trouble;
      trouble.Some? ==> exists act :: act in acts && world.takes(tried, device, act) == trouble
  {
    if acts != [] && world.takes(tried, device, acts[0]).None? {
      MakeMeets(world, tried, device, acts[1..]);
    }
  }

  /** What the interpreter records of a step: of a wait, what its promise says but for the
      late deadline; of another step, that it went right, or the words for what kept it. */
  lemma StepReported(world: World, tried: seq<Step>, step: Step, k: nat)
    ensures var d := DirectEffect(world, tried, step);
      var r := RecordOf(k, d.done);
      if step.WaitStable? then
        var film := world.watch(tried, step);
        var o := S.SequenceOutcome(WaitOf(step, film), TraceOf(step, film));
        if o.stop.Broke? then r == Failed(k, film.trouble.direct)
        else r == Good(k, Some(o.stop), if o.lastHash == "" then None else Some(o.lastHash), None)
      else if d.done.Fine? then
        r == Good(k, None, None, if step.Pointer? then Some(DirectSpot(world, tried, step)) else None)
      else exists trouble :: InTheWay(world, tried, step, trouble) && r == Failed(k, trouble.direct)
    ensures !step.WaitStable? ==>
      (DirectEffect(world, tried, step).done.Fine? <==> forall trouble :: !InTheWay(world, tried, step, trouble))
  {
    hide Make, DirectPlace, DirectActs, S.WaitFor, S.SequenceOutcome;
    if !step.WaitStable? {
      var acts := DirectActs(step, DirectSpot(world, tried, step));
      MakeMeets(world, tried, DirectDevice(step), acts);
      MakesAll(world, tried, DirectDevice(step), acts);
      var trouble := Make(world, tried, DirectDevice(step), acts).trouble;
      assert step.Pointer? && !HasHead(world.head(tried)) ==> InTheWay(world, tried, step, world.noHead);
      assert !world.has(tried, DirectDevice(step)) ==>
          InTheWay(world, tried, step, world.lacks(DirectDevice(step)));
      assert trouble.Some? ==> InTheWay(world, tried, step, trouble.value);
    }
  }

  /** The same in the script, by what it bound at its start. */
  predicate InScriptsWay(world: World, bound: Bound, tried: seq<Step>, step: Step, trouble: Trouble) {
    || (step.Pointer? && !HasHead(bound.head) && trouble == world.noHead)
    || exists act :: act in ScriptActs(step, ScriptSpot(bound, step))
                     && world.takes(tried, ScriptDevice(step, bound), act) == Some(trouble)
  }

  /** What the script's block says of a step that is not a wait. */
  lemma ScriptStepTells(world: World, bound: Bound, tried: seq<Step>, step: Step)
    requires !step.WaitStable?
    ensures var s := ScriptEffect(world, bound, tried, step);
      && (s.done.Fine? <==> forall trouble :: !InScriptsWay(world, bound, tried, step, trouble))
      && (s.done.Fine? ==> s.done == Fine(None, "", None))
      && (s.done.Wrong? ==> exists trouble ::
            InScriptsWay(world, bound, tried, step, trouble) && s.done.text == trouble.script)
  {
    hide Make, ScriptPlace, ScriptActs;
    var acts := ScriptActs(step, ScriptSpot(bound, step));
    MakeMeets(world, tried, ScriptDevice(step, bound), acts);
    MakesAll(world, tried, ScriptDevice(step, bound), acts);
    var trouble := Make(world, tried, ScriptDevice(step, bound), acts).trouble;
    assert step.Pointer? && !HasHead(bound.head) ==> InScriptsWay(world, bound, tried, step, world.noHead);
    assert trouble.Some? ==> InScriptsWay(world, bound, tried, step, trouble.value);
  }

  ghost function DirectSpots(plan: seq<Step>, world: World): (spots: seq<(int, int)>)
    ensures |spots| == |plan|
  {
    seq(|plan|, k requires 0 <= k < |plan| => DirectSpot(world, plan[..k], plan[k]))
  }

  ghost function ScriptSpots(plan: seq<Step>, world: World): (spots: seq<(int, int)>)
    ensures |spots| == |plan|
  {
    seq(|plan|, k requires 0 <= k < |plan| => ScriptSpot(Bind(plan, world), plan[k]))
  }

  lemma JoinedNext(calls: seq<seq<Call>>, k: nat)
    requires k < |calls|
    ensures Joined(calls[..k + 1]) == Joined(calls[..k]) + calls[k]
  {
    assert calls[..k + 1][..k] == calls[..k];
  }

  lemma EffectsMean(c: Console, plan: seq<Step>, spots: seq<(int, int)>, effects: seq<Effect>, n: nat)
    requires |effects| == |plan| == |spots| && n <= |plan|
    requires forall k, b | 0 <= k < n :: Meant(b, plan[k], spots[k], Replay(b, effects[k].calls))
    ensures AllMeant(c, plan, spots, CallsTo(effects, n))
  {
    hide Meant, Replay;
    var calls := CallsTo(effects, n);
    forall k | 0 <= k < n
      ensures Meant(Replay(c, Joined(calls[..k])), plan[k], spots[k], Replay(c, Joined(calls[..k + 1])))
    {
      JoinedNext(calls, k);
      ReplayJoins(c, Joined(calls[..k]), calls[k]);
    }
  }

  /** In process, every step before the first that fails did what it is for, in order. */
  lemma DirectRunDoes(plan: seq<Step>, world: World, c: Console)
    ensures var effects := DirectEffects(plan, world);
      AllMeant(c, plan, DirectSpots(plan, world), CallsTo(effects, FirstFailure(effects, 0)))
  {
    hide DirectEffect, Meant, Replay, AllMeant, DirectSpot;
    var effects := DirectEffects(plan, world);
    forall k, b | 0 <= k < FirstFailure(effects, 0)
      ensures Meant(b, plan[k], DirectSpots(plan, world)[k], Replay(b, effects[k].calls))
    {
      StepDoes(world, Bound(Synthetic, None), plan[..k], plan[k], b);
    }
    EffectsMean(c, plan, DirectSpots(plan, world), effects, FirstFailure(effects, 0));
  }

  /** So did they in a script that neither threw nor refused, whichever arrays it compacts
      and however its payloads travel. */
  lemma ScriptRunDoes(
    plan: seq<Step>, compact: set<nat>, remote: bool, world: World, guards: Guards, c: Console)
    requires !Throws(plan, world) && guards.Pass()
    ensures var effects, m := ScriptEffects(plan, world), ScriptRun(plan, compact, remote, world, guards);
      && m.calls == CallsTo(effects, Attempted(effects))
      && AllMeant(c, plan, ScriptSpots(plan, world), m.calls[..FirstFailure(effects, 0)])
  {
    hide ScriptEffect, Meant, Replay, AllMeant, ScriptSpot, ScriptRun, Throws;
    var effects := ScriptEffects(plan, world);
    ScriptEnds(plan, compact, remote, world, guards);
    var f := FirstFailure(effects, 0);
    assert CallsTo(effects, Attempted(effects))[..f] == CallsTo(effects, f);
    forall k, b | 0 <= k < f ensures Meant(b, plan[k], ScriptSpots(plan, world)[k], Replay(b, effects[k].calls)) {
      StepDoes(world, Bind(plan, world), plan[..k], plan[k], b);
    }
    EffectsMean(c, plan, ScriptSpots(plan, world), effects, f);
  }

  /** A script throws exactly when a step needs a keyboard, or any mouse, that is not there
      at the start. It only ever calls devices that were there, and the PS/2 mouse only if
      the synthetic one was not. */
  lemma ScriptCallsWhatIsThere(
    plan: seq<Step>, compact: set<nat>, remote: bool, world: World, guards: Guards)
    ensures var m := ScriptRun(plan, compact, remote, world, guards);
      && (m.halted == Some(Uncaught) <==>
            || ((exists k | 0 <= k < |plan| :: plan[k].Codes? || plan[k].Typing?) && !world.has([], Keyboard))
            || ((exists k | 0 <= k < |plan| :: !plan[k].Codes? && !plan[k].Typing? && !plan[k].WaitStable?)
                && !world.has([], Synthetic) && !world.has([], Ps2)))
      && forall calls, call | calls in m.calls && call in calls ::
           world.has([], call.device) && (call.device.Ps2? ==> !world.has([], Synthetic))
  {
    hide ScriptRun, ScriptEffect;
    ScriptEnds(plan, compact, remote, world, guards);
    ThrowsOverDevices(plan, world);
    if !Throws(plan, world) {
      forall k, call | 0 <= k < |plan| && call in ScriptEffects(plan, world)[k].calls
        ensures world.has([], call.device) && (call.device.Ps2? ==> !world.has([], Synthetic))
      {
        CallsOnOwnDevice(world, Bind(plan, world), plan[..k], plan[k]);
        BoundIsThere(plan, world, k);
      }
    }
  }

  lemma ThrowsOverDevices(plan: seq<Step>, world: World)
    ensures Throws(plan, world) <==>
      || ((exists k | 0 <= k < |plan| :: plan[k].Codes? || plan[k].Typing?) && !world.has([], Keyboard))
      || ((exists k | 0 <= k < |plan| :: !plan[k].Codes? && !plan[k].Typing? && !plan[k].WaitStable?)
          && !world.has([], Synthetic) && !world.has([], Ps2))
  {
    assert forall k | 0 <= k < |plan| :: OnKeyboard(plan[k]) <==> plan[k].Codes? || plan[k].Typing?;
    assert forall k | 0 <= k < |plan| ::
        OnMouse(plan[k]) <==> !plan[k].Codes? && !plan[k].Typing? && !plan[k].WaitStable?;
  }

  lemma CallsOnOwnDevice(world: World, bound: Bound, tried: seq<Step>, step: Step)
    ensures forall call | call in ScriptEffect(world, bound, tried, step).calls ::
      !step.WaitStable? && call.device == ScriptDevice(step, bound)
  {
    hide Make, ScriptActs, ScriptPlace;
    if !step.WaitStable? {
      MakesAll(world, tried, ScriptDevice(step, bound), ScriptActs(step, ScriptSpot(bound, step)));
    }
  }

  lemma BoundIsThere(plan: seq<Step>, world: World, k: nat)
    requires k < |plan| && !plan[k].WaitStable? && !Throws(plan, world)
    ensures var device := ScriptDevice(plan[k], Bind(plan, world));
      world.has([], device) && (device.Ps2? ==> !world.has([], Synthetic))
  {
    assert OnKeyboard(plan[k]) ==> UsesKeyboard(plan);
    assert OnMouse(plan[k]) ==> UsesMouse(plan);
  }

  // ---- where a pointer points --------------------------------------------

  function Abs(n: int): nat {
    if n < 0 then -n else n
  }

  /** On a display of `size` places, no place is nearer to n / d; of two that are equally
      near, it is the even one. */
  ghost predicate Nearest(place: int, n: int, d: int, size: int) {
    && 0 <= place < size
    && forall p | 0 <= p < size && p != place ::
         Abs(place * d - n) < Abs(p * d - n) || (Abs(place * d - n) == Abs(p * d - n) && place % 2 == 0)
  }

  lemma RoundedIsClose(n: int, d: int)
    requires d > 0
    ensures var q := Rounded(n, d);
      2 * Abs(q * d - n) <= d && (2 * Abs(q * d - n) == d ==> q % 2 == 0)
  {
    var q, r := n / d, n % d;
    assert q * d + r == n;
    assert (q + 1) * d == q * d + d;
  }

  lemma ClampedIsNearest(n: int, d: int, size: int)
    requires d > 0 && size > 0
    ensures Nearest(Clamp(Rounded(n, d), size), n, d, size)
  {
    hide Rounded;
    RoundedIsClose(n, d);
    var q := Rounded(n, d);
    var place := Clamp(q, size);
    forall p | 0 <= p < size && p != place
      ensures Abs(place * d - n) < Abs(p * d - n) || (Abs(place * d - n) == Abs(p * d - n) && place % 2 == 0)
    {
      OutOfReach(q, place, p, n, d);
    }
  }

  /** Seen from q, which is as close as can be, `place` lies on the way to p. */
  lemma OutOfReach(q: int, place: int, p: int, n: int, d: int)
    requires d > 0 && 2 * Abs(q * d - n) <= d && (2 * Abs(q * d - n) == d ==> q % 2 == 0)
    requires p != place && (q <= place < p || p < place <= q)
    ensures Abs(place * d - n) < Abs(p * d - n) || (Abs(place * d - n) == Abs(p * d - n) && place % 2 == 0)
  {
    Apart(q, place, d);
    Apart(place, p, d);
    Farther(q * d - n, place * d - q * d, p * d - place * d, d);
  }

  /** Different multiples lie at least one step apart. */
  lemma Apart(a: int, b: int, d: int)
    requires d > 0
    ensures a < b ==> b * d - a * d >= d
    ensures a > b ==> b * d - a * d <= -d
    ensures a == b ==> b * d == a * d
  {
    var gap: int := b - a;
    assert b * d == a * d + gap * d;
    assert (gap >= 1 ==> gap * d >= d) && (gap <= -1 ==> gap * d <= -d);
  }

  lemma Farther(off: int, way: int, more: int, d: int)
    requires 2 * Abs(off) <= d && d > 0
    requires ((way == 0 || way >= d) && more >= d) || ((way == 0 || way <= -d) && more <= -d)
    ensures Abs(off + way) < Abs(off + way + more)
      || (Abs(off + way) == Abs(off + way + more) && way == 0 && 2 * Abs(off) == d)
  {}

  /** Both transports point at the place on the display nearest to the one meant: the step's
      own place, or, if the step gives the size of the frame it was read off, that place
      scaled to the display. */
  lemma PointsAtNearest(step: Step, head: (int, int))
    requires step.Pointer? && head.0 > 0 && head.1 > 0
    ensures ScriptPlace(step, head) == DirectPlace(step, head)
    ensures var (x, y) := DirectPlace(step, head);
      if step.frameWidth > 0 then
        && Nearest(x, step.x * head.0, step.frameWidth, head.0)
        && Nearest(y, step.y * head.1, step.frameHeight, head.1)
      else Nearest(x, step.x, 1, head.0) && Nearest(y, step.y, 1, head.1)
  {
    hide Rounded, Clamp, Nearest;
    if step.frameWidth > 0 {
      ClampedIsNearest(step.x * head.0, step.frameWidth, head.0);
      ClampedIsNearest(step.y * head.1, step.frameHeight, head.1);
    } else {
      ClampedIsNearest(step.x, 1, head.0);
      ClampedIsNearest(step.y, 1, head.1);
      RoundedWhole(step.x);
      RoundedWhole(step.y);
    }
  }

  lemma RoundedWhole(n: int)
    ensures Rounded(n, 1) == n
  {}
}
