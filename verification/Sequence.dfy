/** A validated plan of console steps, what each transport does with one step, and the
    direct interpreter over the in-process backend. */
module Sequence {
  import opened Common
  import S = SettleWait
  import Utf8

  type Text = seq<Utf8.Scalar>

  datatype Action =
    | Codes(codes: seq<Byte>)
    | Typing(text: Text)
    | Pointer(x: int, y: int, frameWidth: int, frameHeight: int, click: bool, pointerButton: int)
    | ClickHere(clickButton: int)
    | Button(button: int, isDown: bool)
    | Scroll(delta: int)
    | WaitStable(stableMs: int, timeoutS: int, intervalMs: int, baseline: string)

  /** A frame size is given whole and positive, or not at all. */
  predicate FrameFits(width: int, height: int) {
    (width == 0 && height == 0) || (width > 0 && height > 0)
  }

  predicate Runnable(a: Action) {
    match a
    case Pointer(_, _, width, height, _, _) => FrameFits(width, height)
    case WaitStable(stableMs, timeoutS, intervalMs, _) => stableMs >= 1 && timeoutS >= 1 && intervalMs >= 1
    case _ => true
  }

  /** A validated step. */
  type Step = a: Action | Runnable(a) witness Scroll(0)

  predicate OnKeyboard(step: Step) {
    step.Codes? || step.Typing?
  }

  predicate OnMouse(step: Step) {
    !OnKeyboard(step) && !step.WaitStable?
  }

  // ---- the virtual machine -----------------------------------------------

  datatype Device = Keyboard | Synthetic | Ps2

  /** One method call on a device. */
  datatype Act =
    | SendCodes(codes: seq<Byte>)
    | SendText(text: Text)
    | MoveTo(headX: int, headY: int)
    | Click(button: int)
    | SetButton(button: int, isDown: bool)
    | Turn(delta: int)

  datatype Call = Call(device: Device, act: Act)

  /** What went wrong, as each transport words it. */
  datatype Trouble = Trouble(direct: Text, script: Text)

  /** What a wait gets to see, poll by poll, and what it says if a capture raises. */
  datatype Film = Film(started: real, sample: nat -> S.Sample, trouble: Trouble)

  /** All answers may depend on every step taken before: whether a device can be bound, how
      big the display is if there is one, how a device takes a call (None: it succeeds), and
      what a wait sees. Asked the same twice within a step, a device answers the same. */
  datatype World = World(
    has: (seq<Step>, Device) -> bool,
    lacks: Device -> Trouble,
    head: seq<Step> -> Option<(int, int)>,
    noHead: Trouble,
    takes: (seq<Step>, Device, Act) -> Option<Trouble>,
    watch: (seq<Step>, Step) -> Film)

  /** How a step ended. Only a wait has a stop reason and a digest, "" when it saw no
      frame; only the direct interpreter says where on the display it pointed. */
  datatype Done = Fine(stop: Option<S.Stop>, hash: string, head: Option<(int, int)>) | Wrong(text: Text)

  datatype Effect = Effect(calls: seq<Call>, done: Done)

  datatype Made = Made(calls: seq<Call>, trouble: Option<Trouble>)

  /** Calls on a device, one after another until one goes wrong. */
  function Make(world: World, tried: seq<Step>, device: Device, acts: seq<Act>): Made {
    if acts == [] then Made([], None) else
      var call, trouble := Call(device, acts[0]), world.takes(tried, device, acts[0]);
      if trouble.Some? then Made([call], trouble) else
        var rest := Make(world, tried, device, acts[1..]);
        Made([call] + rest.calls, rest.trouble)
  }

  function WaitOf(step: Step, film: Film): S.Wait
    requires step.WaitStable?
  {
    S.WaitFor(step.baseline, step.stableMs, step.timeoutS * 1000, step.intervalMs, film.started)
  }

  function TraceOf(step: Step, film: Film): (trace: seq<S.Sample>)
    requires step.WaitStable?
    ensures S.Sampled(WaitOf(step, film), trace)
  {
    seq(WaitOf(step, film).maxPolls, i requires 0 <= i => film.sample(i))
  }

  function Waited(o: S.Outcome, text: Text): Effect {
    Effect([], if o.stop.Broke? then Wrong(text) else Fine(Some(o.stop), o.lastHash, None))
  }

  // ---- pointing ----------------------------------------------------------

  function Clamp(v: int, size: int): int {
    var low := if v < size - 1 then v else size - 1;
    if low > 0 then low else 0
  }

  /** The quotient rounded to the nearest integer, ties to even. */
  function Rounded(n: int, d: int): int
    requires d > 0
  {
    var q, r := n / d, n % d;
    if 2 * r < d || (2 * r == d && q % 2 == 0) then q else q + 1
  }

  predicate HasHead(head: Option<(int, int)>) {
    head.Some? && head.value.0 != 0 && head.value.1 != 0
  }

  /** The place as the backend's helper computes it. */
  function DirectPlace(step: Step, head: (int, int)): (int, int)
    requires step.Pointer?
  {
    if step.frameWidth != 0 || step.frameHeight != 0 then
      (Clamp(Rounded(step.x * head.0, step.frameWidth), head.0),
       Clamp(Rounded(step.y * head.1, step.frameHeight), head.1))
    else (Clamp(step.x, head.0), Clamp(step.y, head.1))
  }

  /** The place as the script computes it: scale if both sizes are given, clamp last. */
  function ScriptPlace(step: Step, head: (int, int)): (int, int)
    requires step.Pointer?
  {
    var (hx, hy) :=
      if step.frameWidth != 0 && step.frameHeight != 0 then
        (Rounded(step.x * head.0, step.frameWidth), Rounded(step.y * head.1, step.frameHeight))
      else (step.x, step.y);
    (Clamp(hx, head.0), Clamp(hy, head.1))
  }

  // ---- one step in process -----------------------------------------------

  /** The calls of a step that is not a wait. A click at a place moves there twice: once to
      point, once more before clicking. */
  function DirectActs(step: Step, place: (int, int)): seq<Act> {
    match step
    case Pointer(_, _, _, _, click, button) =>
      var move := MoveTo(place.0, place.1);
      [move] + if click then [move, Click(button)] else []
    case _ => PlainActs(step)
  }

  function PlainActs(step: Step): seq<Act> {
    match step
    case Codes(codes) => [SendCodes(codes)]
    case Typing(text) => [SendText(text)]
    case ClickHere(button) => [Click(button)]
    case Button(button, isDown) => [SetButton(button, isDown)]
    case Scroll(delta) => [Turn(delta)]
    case _ => []
  }

  function DirectDevice(step: Step): Device {
    if OnKeyboard(step) then Keyboard else Synthetic
  }

  /** The display's size is read at the step, then the device is bound at the step. There is
      no PS/2 mouse in process. */
  ghost function DirectEffect(world: World, tried: seq<Step>, step: Step): Effect {
    var head, device := world.head(tried), DirectDevice(step);
    if step.WaitStable? then
      var film := world.watch(tried, step);
      Waited(S.SequenceOutcome(WaitOf(step, film), TraceOf(step, film)), film.trouble.direct)
    else if step.Pointer? && !HasHead(head) then Effect([], Wrong(world.noHead.direct))
    else if !world.has(tried, device) then Effect([], Wrong(world.lacks(device).direct))
    else
      var place := if step.Pointer? then DirectPlace(step, head.value) else (0, 0);
      var made := Make(world, tried, device, DirectActs(step, place));
      Effect(made.calls, Ended(made.trouble, step, place))
  }

  function Ended(trouble: Option<Trouble>, step: Step, place: (int, int)): Done {
    if trouble.Some? then Wrong(trouble.value.direct)
    else Fine(None, "", if step.Pointer? then Some(place) else None)
  }

  // ---- a run, from the effects of its steps ------------------------------

  datatype Record =
    | Good(index: nat, stop: Option<S.Stop>, frameHash: Option<string>, head: Option<(int, int)>)
    | Failed(index: nat, error: Text)
    | Skipped(index: nat)

  /** The first step from k on that goes wrong, or the end of the plan. */
  function FirstFailure(effects: seq<Effect>, k: nat): (f: nat)
    requires k <= |effects|
    ensures k <= f <= |effects|
    ensures f < |effects| ==> effects[f].done.Wrong?
    ensures forall i | k <= i < f :: effects[i].done.Fine?
    decreases |effects| - k
  {
    if k == |effects| || effects[k].done.Wrong? then k else FirstFailure(effects, k + 1)
  }

  function RecordOf(k: nat, done: Done): Record {
    match done
    case Fine(stop, hash, head) => Good(k, stop, if hash == "" then None else Some(hash), head)
    case Wrong(text) => Failed(k, text)
  }

  function RecordAt(effects: seq<Effect>, k: nat): Record
    requires k < |effects|
  {
    if k > FirstFailure(effects, 0) then Skipped(k) else RecordOf(k, effects[k].done)
  }

  /** One record a step, in order: successes, at most one failure, then all skipped. */
  function Report(effects: seq<Effect>): (steps: seq<Record>)
    ensures |steps| == |effects|
    ensures var f := FirstFailure(effects, 0);
      forall k | 0 <= k < |effects| ::
        steps[k].index == k && steps[k].Good? == (k < f) && steps[k].Failed? == (k == f)
  {
    seq(|effects|, k requires 0 <= k < |effects| => RecordAt(effects, k))
  }

  /** The steps that are attempted: up to and including the one that fails. */
  function Attempted(effects: seq<Effect>): (n: nat)
    ensures n <= |effects|
  {
    var f := FirstFailure(effects, 0);
    if f < |effects| then f + 1 else f
  }

  /** The calls of the first n steps, step by step. */
  function CallsTo(effects: seq<Effect>, n: nat): (calls: seq<seq<Call>>)
    requires n <= |effects|
    ensures |calls| == n
  {
    seq(n, k requires 0 <= k < n => effects[k].calls)
  }

  ghost function DirectEffects(plan: seq<Step>, world: World): (effects: seq<Effect>)
    ensures |effects| == |plan|
  {
    seq(|plan|, k requires 0 <= k < |plan| => DirectEffect(world, plan[..k], plan[k]))
  }

  // ---- the whole call ----------------------------------------------------

  datatype Precondition = FrameHash | BootEpoch

  /** What a caller gets, the VM's name and the timings aside: an exception, a refusal with
      what was found, or the boot epoch and the records. */
  datatype Reply =
    | Raised
    | Refused(precondition: Precondition, foundHash: Option<string>, foundEpoch: Option<int>)
    | Completed(bootEpoch: int, steps: seq<Record>)

  /** Preconditions the caller asked for ("" or None: not asked) and what is found. */
  datatype Guards = Guards(expectHash: string, expectEpoch: Option<int>, hash: string, epoch: int)
  {
    predicate HashMissed() {
      expectHash != "" && hash != expectHash
    }

    predicate EpochMissed() {
      expectEpoch.Some? && !(-5 <= epoch - expectEpoch.value <= 5)
    }

    predicate Pass() {
      !HashMissed() && !EpochMissed()
    }
  }

  ghost function DirectReply(plan: seq<Step>, world: World, guards: Guards): (reply: Reply)
    ensures reply.Completed? <==> guards.Pass()
    ensures reply.Completed? <==>
      && (guards.expectHash == "" || guards.hash == guards.expectHash)
      && (guards.expectEpoch.None? || -5 <= guards.epoch - guards.expectEpoch.value <= 5)
    ensures reply.Completed? ==> reply.bootEpoch == guards.epoch && |reply.steps| == |plan|
    ensures reply.Refused? ==> reply.foundEpoch == Some(guards.epoch)
    ensures reply.Refused? ==>
      if reply.precondition.FrameHash? then
        reply.foundHash == Some(guards.hash) && guards.hash != guards.expectHash && guards.expectHash != ""
      else
        && reply.foundHash.None? && guards.expectEpoch.Some?
        && !(-5 <= guards.epoch - guards.expectEpoch.value <= 5)
  {
    if guards.EpochMissed() then Refused(BootEpoch, None, Some(guards.epoch))
    else if guards.HashMissed() then Refused(FrameHash, Some(guards.hash), Some(guards.epoch))
    else Completed(guards.epoch, Report(DirectEffects(plan, world)))
  }

  ghost function DirectCalls(plan: seq<Step>, world: World, guards: Guards): seq<seq<Call>> {
    var effects := DirectEffects(plan, world);
    if guards.Pass() then CallsTo(effects, Attempted(effects)) else []
  }

  /** The backend: it performs one step after another. */
  class Backend {
    const world: World
    var tried: seq<Step>
    var calls: seq<seq<Call>>

    constructor (world: World)
      ensures this.world == world && tried == [] && calls == []
    {
      this.world := world;
      tried, calls := [], [];
    }

    /** Call a device, once for each act, until a call goes wrong. */
    method Send(device: Device, acts: seq<Act>) returns (made: seq<Call>, trouble: Option<Trouble>)
      ensures Made(made, trouble) == Make(world, tried, device, acts)
    {
      made := [];
      var i := 0;
      while i < |acts|
        invariant 0 <= i <= |acts|
        invariant var rest := Make(world, tried, device, acts[i..]);
          Make(world, tried, device, acts) == Made(made + rest.calls, rest.trouble)
      {
        assert acts[i..][1..] == acts[i + 1..];
        made := made + [Call(device, acts[i])];
        var answer := world.takes(tried, device, acts[i]);
        if answer.Some? {
          return made, answer;
        }
        i := i + 1;
      }
      assert acts[i..] == [] && made + [] == made;
      trouble := None;
    }

    method Perform(step: Step) returns (done: Done)
      modifies this
      ensures tried == old(tried) + [step]
      ensures calls == old(calls) + [DirectEffect(world, old(tried), step).calls]
      ensures done == DirectEffect(world, old(tried), step).done
    {
      var made: seq<Call> := [];
      if step.WaitStable? {
        var film := world.watch(tried, step);
        var o := S.WaitInSequence(WaitOf(step, film), TraceOf(step, film));
        done := if o.stop.Broke? then Wrong(film.trouble.direct) else Fine(Some(o.stop), o.lastHash, None);
      } else {
        var head, device := world.head(tried), DirectDevice(step);
        if step.Pointer? && !HasHead(head) {
          done := Wrong(world.noHead.direct);
        } else if !world.has(tried, device) {
          done := Wrong(world.lacks(device).direct);
        } else {
          var place := if step.Pointer? then DirectPlace(step, head.value) else (0, 0);
          var trouble;
          made, trouble := Send(device, DirectActs(step, place));
          done := Ended(trouble, step, place);
        }
      }
      tried, calls := tried + [step], calls + [made];
    }

    method RunSteps(plan: seq<Step>) returns (steps: seq<Record>)
      requires tried == [] && calls == []
      modifies this
      ensures var effects := DirectEffects(plan, world);
        steps == Report(effects) && calls == CallsTo(effects, Attempted(effects))
    {
      hide DirectEffect;
      ghost var effects := DirectEffects(plan, world);
      steps := [];
      var i := 0;
      while i < |plan|
        invariant 0 <= i <= FirstFailure(effects, 0)
        invariant tried == plan[..i] && calls == CallsTo(effects, i)
        invariant steps == Report(effects)[..i]
      {
        var done := Perform(plan[i]);
        assert tried == plan[..i + 1] && done == effects[i].done;
        assert calls == CallsTo(effects, i + 1);
        if done.Wrong? {
          steps := steps + [Failed(i, done.text)];
          var j := i + 1;
          while j < |plan|
            invariant i < j <= |plan| && FirstFailure(effects, 0) == i
            invariant steps == Report(effects)[..j]
          {
            steps := steps + [Skipped(j)];
            j := j + 1;
          }
          return;
        }
        steps := steps + [RecordOf(i, done)];
        i := i + 1;
      }
    }

    /** The whole call: the boot epoch is checked first, the frame digest second. */
    method Run(plan: seq<Step>, guards: Guards) returns (reply: Reply)
      requires tried == [] && calls == []
      modifies this
      ensures reply == DirectReply(plan, world, guards)
      ensures calls == DirectCalls(plan, world, guards)
    {
      if guards.EpochMissed() {
        return Refused(BootEpoch, None, Some(guards.epoch));
      }
      if guards.HashMissed() {
        return Refused(FrameHash, Some(guards.hash), Some(guards.epoch));
      }
      var steps := RunSteps(plan);
      reply := Completed(guards.epoch, steps);
    }
  }
}
