/** The plan as one script: devices bound once at the start, every step an unrolled, guarded
    block, and its output read back. */
module SequenceScript {
  import opened Common
  import opened Sequence
  import Base64
  import S = SettleWait
  import Utf8

  // ---- what the script binds ---------------------------------------------

  predicate UsesKeyboard(plan: seq<Step>) {
    exists k | 0 <= k < |plan| :: OnKeyboard(plan[k])
  }

  predicate UsesMouse(plan: seq<Step>) {
    exists k | 0 <= k < |plan| :: OnMouse(plan[k])
  }

  predicate UsesPointer(plan: seq<Step>) {
    exists k | 0 <= k < |plan| :: plan[k].Pointer?
  }

  /** What the script holds on to from its start: one mouse and one reading of the display. */
  datatype Bound = Bound(mouse: Device, head: Option<(int, int)>)

  /** The synthetic mouse, or else the PS/2 one. */
  function Bind(plan: seq<Step>, world: World): Bound {
    Bound(if UsesMouse(plan) && !world.has([], Synthetic) then Ps2 else Synthetic,
          if UsesPointer(plan) then world.head([]) else None)
  }

  /** A device the plan needs is missing at the start: the script throws before any step. */
  predicate Throws(plan: seq<Step>, world: World) {
    || (UsesKeyboard(plan) && !world.has([], Keyboard))
    || (UsesMouse(plan) && !world.has([], Synthetic) && !world.has([], Ps2))
  }

  // ---- one step in the script --------------------------------------------

  function ScriptActs(step: Step, place: (int, int)): seq<Act> {
    match step
    case Pointer(_, _, _, _, click, button) => [MoveTo(place.0, place.1)] + if click then [Click(button)] else []
    case _ => PlainActs(step)
  }

  function ScriptDevice(step: Step, bound: Bound): Device {
    if OnKeyboard(step) then Keyboard else bound.mouse
  }

  ghost function ScriptEffect(world: World, bound: Bound, tried: seq<Step>, step: Step): Effect {
    if step.WaitStable? then
      var film := world.watch(tried, step);
      Waited(S.Promised(WaitOf(step, film), TraceOf(step, film)), film.trouble.script)
    else if step.Pointer? && !HasHead(bound.head) then Effect([], Wrong(world.noHead.script))
    else
      var place := if step.Pointer? then ScriptPlace(step, bound.head.value) else (0, 0);
      var made := Make(world, tried, ScriptDevice(step, bound), ScriptActs(step, place));
      Effect(made.calls, if made.trouble.Some? then Wrong(made.trouble.value.script) else Fine(None, "", None))
  }

  ghost function ScriptEffects(plan: seq<Step>, world: World): (effects: seq<Effect>)
    ensures |effects| == |plan|
  {
    seq(|plan|, k requires 0 <= k < |plan| => ScriptEffect(world, Bind(plan, world), plan[..k], plan[k]))
  }

  // ---- the script --------------------------------------------------------

  /** A code array stands in the script literally or as a base64 seed. */
  datatype Array = Literal(codes: seq<Byte>) | Seed(b64: string)

  datatype Body = TypeCodes(source: Array) | TypeText | Other(step: Step)

  datatype Command =
    | BindKeyboard
    | BindMouse
    | BindHead
    | FrameGuard(expected: string)
    | EpochGuard(expectedEpoch: int)
    | Block(index: nat, body: Body)
    | NextPayload

  function BodyOf(step: Step, compact: bool): Body {
    match step
    case Codes(codes) => TypeCodes(if compact then Seed(Base64.Encode(codes)) else Literal(codes))
    case Typing(_) => TypeText
    case _ => Other(step)
  }

  /** The unrolled blocks of the steps from k on. The payload index moves past a text
      step whether or not the step ran. */
  function Blocks(plan: seq<Step>, k: nat, compact: set<nat>): seq<Command>
    requires k <= |plan|
    decreases |plan| - k
  {
    if k == |plan| then [] else
      [Block(k, BodyOf(plan[k], k in compact))]
      + (if plan[k].Typing? then [NextPayload] else [])
      + Blocks(plan, k + 1, compact)
  }

  /** A command that is there only if it is needed. */
  function If(needed: bool, command: Command): seq<Command> {
    if needed then [command] else []
  }

  function Script(plan: seq<Step>, compact: set<nat>, guards: Guards): seq<Command> {
    If(UsesKeyboard(plan), BindKeyboard)
    + (If(UsesMouse(plan), BindMouse)
    + (If(UsesPointer(plan), BindHead)
    + (If(guards.expectHash != "", FrameGuard(guards.expectHash))
    + (If(guards.expectEpoch.Some?, EpochGuard(guards.expectEpoch.GetOr(0)))
    + Blocks(plan, 0, compact)))))
  }

  /** One base64 line a text step. */
  function Payloads(plan: seq<Step>): seq<string> {
    if plan == [] then []
    else (if plan[0].Typing? then [Base64.Encode(Utf8.Encode(plan[0].text))] else []) + Payloads(plan[1..])
  }

  datatype Line =
    | OkLine(index: nat)
    | WaitLine(index: nat, stop: S.Stop, hash: string)
    | ErrLine(index: nat, b64: string)
    | SkippedLine(index: nat)

  /** Why a script ended before its first block. */
  datatype Halt = Missed(precondition: Precondition) | Uncaught

  /** A running script. A remote script holds its payloads in an array that `next`
      indexes; a local one reads them off standard input. */
  datatype Machine = Machine(
    remote: bool, payloads: seq<string>, next: nat, unread: seq<string>, bound: Bound,
    failed: bool, halted: Option<Halt>, tried: seq<Step>, calls: seq<seq<Call>>, out: seq<Line>)

  function Started(remote: bool, payloads: seq<string>): Machine {
    Machine(remote, if remote then payloads else [], 0, if remote then [] else payloads,
            Bound(Synthetic, None), false, None, [], [], [])
  }

  /** The payload line the next text step reads, if there is one. */
  function PayloadRead(m: Machine): Option<string> {
    if m.remote then (if m.next < |m.payloads| then Some(m.payloads[m.next]) else None)
    else if m.unread != [] then Some(m.unread[0]) else None
  }

  function TextOf(b64: Option<string>): Option<Step> {
    if b64.None? then None else
      match Base64.Decode(b64.value)
      case None => None
      case Some(bytes) => Some(Typing(Utf8.DecodeIgnoring(bytes)))
  }

  /** The step a block hands to the virtual machine; None if it throws before that. */
  function Prepared(body: Body, m: Machine): Option<Step> {
    match body
    case Other(step) => Some(step)
    case TypeCodes(Literal(codes)) => Some(Codes(codes))
    case TypeCodes(Seed(b64)) =>
      (match Base64.Decode(b64) case None => None case Some(codes) => Some(Codes(codes)))
    case TypeText => TextOf(PayloadRead(m))
  }

  function LineFor(k: nat, done: Done): Line {
    match done
    case Fine(stop, hash, _) => if stop.Some? then WaitLine(k, stop.value, hash) else OkLine(k)
    case Wrong(text) => ErrLine(k, Base64.Encode(Utf8.Encode(text)))
  }

  const UNREADABLE: seq<Byte> := [0x3F]

  /** One guarded block: skipped once a step failed, else tried and caught. */
  ghost function ExecBlock(k: nat, body: Body, m: Machine, world: World): Machine {
    if m.failed then m.(out := m.out + [SkippedLine(k)]) else
      var step := Prepared(body, m);
      var unread := if body.TypeText? && !m.remote && m.unread != [] then m.unread[1..] else m.unread;
      if step.None? then
        m.(unread := unread, failed := true, out := m.out + [ErrLine(k, Base64.Encode(UNREADABLE))])
      else
        var effect := ScriptEffect(world, m.bound, m.tried, step.value);
        m.(unread := unread, failed := effect.done.Wrong?, tried := m.tried + [step.value],
           calls := m.calls + [effect.calls], out := m.out + [LineFor(k, effect.done)])
  }

  ghost function Exec(command: Command, m: Machine, world: World, guards: Guards): Machine {
    if m.halted.Some? then m else
      match command
      case BindKeyboard => if world.has([], Keyboard) then m else m.(halted := Some(Uncaught))
      case BindMouse =>
        if world.has([], Synthetic) then m
        else if world.has([], Ps2) then m.(bound := m.bound.(mouse := Ps2))
        else m.(halted := Some(Uncaught))
      case BindHead => m.(bound := m.bound.(head := world.head([])))
      case FrameGuard(expected) => if guards.hash != expected then m.(halted := Some(Missed(FrameHash))) else m
      case EpochGuard(expected) =>
        if -5 <= guards.epoch - expected <= 5 then m else m.(halted := Some(Missed(BootEpoch)))
      case NextPayload => m.(next := m.next + 1)
      case Block(k, body) => ExecBlock(k, body, m, world)
  }

  ghost function Run(script: seq<Command>, m: Machine, world: World, guards: Guards): Machine {
    if script == [] then m else Run(script[1..], Exec(script[0], m, world, guards), world, guards)
  }

  ghost function ScriptRun(plan: seq<Step>, compact: set<nat>, remote: bool, world: World, guards: Guards): Machine {
    Run(Script(plan, compact, guards), Started(remote, Payloads(plan)), world, guards)
  }

  // ---- reading the script's output ---------------------------------------

  /** A line becomes a record only in the shapes the reader's pattern knows: an error
      must have at least one base64 character. */
  function ParseLine(line: Line): Option<Record> {
    match line
    case OkLine(k) => Some(Good(k, None, None, None))
    case WaitLine(k, stop, hash) => Some(Good(k, Some(stop), if hash == "" then None else Some(hash), None))
    case SkippedLine(k) => Some(Skipped(k))
    case ErrLine(k, b64) =>
      if b64 == "" then None else
        match Base64.Decode(b64)
        case None => Some(Failed(k, STEP_FAILED))
        case Some(bytes) => Some(Failed(k, Utf8.DecodeIgnoring(bytes)))
  }

  const STEP_FAILED: Text := [0x73, 0x74, 0x65, 0x70, 0x20, 0x66, 0x61, 0x69, 0x6C, 0x65, 0x64]

  function Parse(lines: seq<Line>): seq<Record> {
    if lines == [] then [] else
      Parse(lines[..|lines| - 1])
      + (match ParseLine(lines[|lines| - 1]) case None => [] case Some(r) => [r])
  }

  function AllGood(n: nat): seq<Record> {
    seq(n, k requires 0 <= k < n => Good(k, None, None, None))
  }

  /** A refusal over the frame digest says nothing of the boot epoch. */
  function ScriptReply(m: Machine, guards: Guards, n: nat): Reply {
    match m.halted
    case Some(Uncaught) => Raised
    case Some(Missed(FrameHash)) => Refused(FrameHash, Some(guards.hash), None)
    case Some(Missed(BootEpoch)) => Refused(BootEpoch, None, Some(guards.epoch))
    case None =>
      var steps := Parse(m.out);
      Completed(guards.epoch, if steps == [] then AllGood(n) else steps)
  }

  // ---- the script follows the effects of its steps -----------------------

  function LineAt(effects: seq<Effect>, k: nat): Line
    requires k < |effects|
  {
    if k > FirstFailure(effects, 0) then SkippedLine(k) else LineFor(k, effects[k].done)
  }

  function LinesTo(effects: seq<Effect>, n: nat): (lines: seq<Line>)
    requires n <= |effects|
    ensures |lines| == n
  {
    seq(n, k requires 0 <= k < n => LineAt(effects, k))
  }

  /** The payloads the script has left are those of the steps from k on. */
  predicate Supplied(plan: seq<Step>, k: nat, m: Machine)
    requires k <= |plan|
  {
    && (m.remote ==> m.next <= |m.payloads| && m.payloads[m.next..] == Payloads(plan[k..]))
    && (!m.remote && !m.failed ==> m.unread == Payloads(plan[k..]))
  }

  /** The script is about to enter block k: what it did, and the payloads it has left. */
  ghost predicate Reached(plan: seq<Step>, world: World, k: nat, m: Machine) {
    var effects := ScriptEffects(plan, world);
    var f := FirstFailure(effects, 0);
    && k <= |plan| && m.halted.None? && m.bound == Bind(plan, world)
    && m.failed == (f < k) && Supplied(plan, k, m)
    && (!m.failed ==> m.tried == plan[..k])
    && m.calls == CallsTo(effects, if f < k then f + 1 else k)
    && m.out == LinesTo(effects, k)
  }

  lemma PayloadOf(plan: seq<Step>, k: nat)
    requires k < |plan|
    ensures Payloads(plan[k..]) ==
      (if plan[k].Typing? then [Base64.Encode(Utf8.Encode(plan[k].text))] else []) + Payloads(plan[k + 1..])
  {
    assert plan[k..][1..] == plan[k + 1..];
  }

  lemma TextRoundTrip(text: Text)
    ensures TextOf(Some(Base64.Encode(Utf8.Encode(text)))) == Some(Typing(text))
  {
    Base64.RoundTrip(Utf8.Encode(text));
    Utf8.RoundTrip(text);
  }

  /** A block hands over exactly its own step, however its bytes travelled. */
  lemma PreparedIsStep(plan: seq<Step>, k: nat, compact: bool, m: Machine)
    requires k < |plan| && Supplied(plan, k, m) && !m.failed
    ensures Prepared(BodyOf(plan[k], compact), m) == Some(plan[k])
  {
    hide Base64.Encode, Base64.Decode, Utf8.Encode, Utf8.DecodeIgnoring;
    match plan[k]
    case Codes(codes) => Base64.RoundTrip(codes);
    case Typing(text) =>
      PayloadOf(plan, k);
      TextRoundTrip(text);
      assert PayloadRead(m) == Some(Payloads(plan[k..])[0]);
    case _ =>
  }

  /** The script past block k and the counter step after it. */
  ghost function PastBlock(plan: seq<Step>, world: World, k: nat, compact: bool, m: Machine): Machine
    requires k < |plan|
  {
    var after := ExecBlock(k, BodyOf(plan[k], compact), m, world);
    if plan[k].Typing? then after.(next := after.next + 1) else after
  }

  lemma PastBlockSupplied(plan: seq<Step>, world: World, k: nat, compact: bool, m: Machine)
    requires k < |plan| && Supplied(plan, k, m)
    ensures Supplied(plan, k + 1, PastBlock(plan, world, k, compact, m))
  {
    hide ScriptEffect, Base64.Encode, Base64.Decode, Utf8.Encode, Utf8.DecodeIgnoring;
    PayloadOf(plan, k);
  }

  lemma PastBlockReaches(plan: seq<Step>, world: World, k: nat, compact: bool, m: Machine)
    requires k < |plan| && Reached(plan, world, k, m)
    ensures Reached(plan, world, k + 1, PastBlock(plan, world, k, compact, m))
  {
    hide ScriptEffect, Supplied, Prepared, Bind, Base64.Encode, Utf8.Encode;
    var effects := ScriptEffects(plan, world);
    PastBlockSupplied(plan, world, k, compact, m);
    assert LinesTo(effects, k + 1) == LinesTo(effects, k) + [LineAt(effects, k)];
    if !m.failed {
      PreparedIsStep(plan, k, compact, m);
      assert FirstFailure(effects, 0) == k <==> effects[k].done.Wrong?;
      assert CallsTo(effects, k + 1) == CallsTo(effects, k) + [effects[k].calls];
      assert plan[..k] + [plan[k]] == plan[..k + 1];
    }
  }

  lemma RunBlock(plan: seq<Step>, world: World, guards: Guards, k: nat, compact: set<nat>, m: Machine)
    requires k < |plan| && m.halted.None?
    ensures Run(Blocks(plan, k, compact), m, world, guards) ==
      Run(Blocks(plan, k + 1, compact), PastBlock(plan, world, k, k in compact, m), world, guards)
  {
    hide ExecBlock, BodyOf;
    var blocks, rest := Blocks(plan, k, compact), Blocks(plan, k + 1, compact);
    BlockNeverHalts(k, BodyOf(plan[k], k in compact), m, world);
    if plan[k].Typing? {
      assert blocks[1..] == [NextPayload] + rest && blocks[1..][1..] == rest;
    } else {
      assert blocks[1..] == rest;
    }
  }

  lemma BlockNeverHalts(k: nat, body: Body, m: Machine, world: World)
    ensures ExecBlock(k, body, m, world).halted == m.halted
  {}

  lemma {:induction false} BlocksReachEnd(
    plan: seq<Step>, world: World, guards: Guards, k: nat, compact: set<nat>, m: Machine)
    requires k <= |plan| && Reached(plan, world, k, m)
    ensures Reached(plan, world, |plan|, Run(Blocks(plan, k, compact), m, world, guards))
    decreases |plan| - k
  {
    hide PastBlock;
    if k < |plan| {
      RunBlock(plan, world, guards, k, compact, m);
      PastBlockReaches(plan, world, k, k in compact, m);
      BlocksReachEnd(plan, world, guards, k + 1, compact, PastBlock(plan, world, k, k in compact, m));
    }
  }

  // ---- the opening: what is bound, and the preconditions -----------------

  /** A script that halted stays as it is, whatever follows. */
  lemma {:induction false} HaltedStays(script: seq<Command>, m: Machine, world: World, guards: Guards)
    requires m.halted.Some?
    ensures Run(script, m, world, guards) == m
  {
    if script != [] {
      HaltedStays(script[1..], m, world, guards);
    }
  }

  ghost function ExecIf(needed: bool, command: Command, m: Machine, world: World, guards: Guards): Machine {
    if needed then Exec(command, m, world, guards) else m
  }

  lemma RunIf(needed: bool, command: Command, rest: seq<Command>, m: Machine, world: World, guards: Guards)
    ensures Run(If(needed, command) + rest, m, world, guards) ==
      Run(rest, ExecIf(needed, command, m, world, guards), world, guards)
  {
    if needed {
      assert ([command] + rest)[1..] == rest;
    } else {
      assert [] + rest == rest;
    }
  }

  ghost function BindAll(plan: seq<Step>, m: Machine, world: World, guards: Guards): Machine {
    var k := ExecIf(UsesKeyboard(plan), BindKeyboard, m, world, guards);
    ExecIf(UsesPointer(plan), BindHead, ExecIf(UsesMouse(plan), BindMouse, k, world, guards), world, guards)
  }

  ghost function GuardAll(m: Machine, world: World, guards: Guards): Machine {
    var hash := ExecIf(guards.expectHash != "", FrameGuard(guards.expectHash), m, world, guards);
    ExecIf(guards.expectEpoch.Some?, EpochGuard(guards.expectEpoch.GetOr(0)), hash, world, guards)
  }

  /** The script after its opening: what it bound, and why it halted if it did. */
  function Opened(plan: seq<Step>, remote: bool, world: World, guards: Guards): Machine
    requires !Throws(plan, world)
  {
    Started(remote, Payloads(plan)).(
      bound := Bind(plan, world),
      halted := if guards.HashMissed() then Some(Missed(FrameHash))
                else if guards.EpochMissed() then Some(Missed(BootEpoch)) else None)
  }

  lemma BindAllBinds(plan: seq<Step>, m: Machine, world: World, guards: Guards)
    requires m.halted.None? && m.bound == Bound(Synthetic, None)
    ensures var b := BindAll(plan, m, world, guards);
      if Throws(plan, world) then b.halted == Some(Uncaught) && b.calls == m.calls
      else b == m.(bound := Bind(plan, world))
  {
    hide UsesKeyboard, UsesMouse, UsesPointer, ExecBlock;
  }

  lemma GuardAllGuards(m: Machine, world: World, guards: Guards)
    ensures GuardAll(m, world, guards) ==
      if m.halted.Some? then m
      else if guards.HashMissed() then m.(halted := Some(Missed(FrameHash)))
      else if guards.EpochMissed() then m.(halted := Some(Missed(BootEpoch)))
      else m
  {}

  lemma OpeningOnly(plan: seq<Step>, compact: set<nat>, m: Machine, world: World, guards: Guards)
    ensures Run(Script(plan, compact, guards), m, world, guards) ==
      Run(Blocks(plan, 0, compact), GuardAll(BindAll(plan, m, world, guards), world, guards), world, guards)
  {
    hide Run, Blocks, UsesKeyboard, UsesMouse, UsesPointer, If, Exec, ExecIf;
    var blocks := Blocks(plan, 0, compact);
    var epoch := If(guards.expectEpoch.Some?, EpochGuard(guards.expectEpoch.GetOr(0))) + blocks;
    var hash := If(guards.expectHash != "", FrameGuard(guards.expectHash)) + epoch;
    var head := If(UsesPointer(plan), BindHead) + hash;
    var mouse := If(UsesMouse(plan), BindMouse) + head;
    RunIf(UsesKeyboard(plan), BindKeyboard, mouse, m, world, guards);
    var m1 := ExecIf(UsesKeyboard(plan), BindKeyboard, m, world, guards);
    RunIf(UsesMouse(plan), BindMouse, head, m1, world, guards);
    var m2 := ExecIf(UsesMouse(plan), BindMouse, m1, world, guards);
    RunIf(UsesPointer(plan), BindHead, hash, m2, world, guards);
    var m3 := ExecIf(UsesPointer(plan), BindHead, m2, world, guards);
    RunIf(guards.expectHash != "", FrameGuard(guards.expectHash), epoch, m3, world, guards);
    var m4 := ExecIf(guards.expectHash != "", FrameGuard(guards.expectHash), m3, world, guards);
    RunIf(guards.expectEpoch.Some?, EpochGuard(guards.expectEpoch.GetOr(0)), blocks, m4, world, guards);
  }

  lemma OpeningRuns(plan: seq<Step>, compact: set<nat>, remote: bool, world: World, guards: Guards)
    ensures var m := ScriptRun(plan, compact, remote, world, guards);
      if Throws(plan, world) then m.halted == Some(Uncaught) && m.calls == []
      else m == Run(Blocks(plan, 0, compact), Opened(plan, remote, world, guards), world, guards)
  {
    hide Run, Blocks, Payloads, BindAll, GuardAll, Throws, Bind;
    var m0 := Started(remote, Payloads(plan));
    var bound := BindAll(plan, m0, world, guards);
    OpeningOnly(plan, compact, m0, world, guards);
    BindAllBinds(plan, m0, world, guards);
    GuardAllGuards(bound, world, guards);
    if Throws(plan, world) {
      HaltedStays(Blocks(plan, 0, compact), bound, world, guards);
    }
  }

  /** A script that neither throws nor refuses goes through all its blocks; any other makes
      no call. */
  lemma ScriptEnds(plan: seq<Step>, compact: set<nat>, remote: bool, world: World, guards: Guards)
    ensures var m := ScriptRun(plan, compact, remote, world, guards);
      if Throws(plan, world) then m.halted == Some(Uncaught) && m.calls == []
      else if guards.HashMissed() then m.halted == Some(Missed(FrameHash)) && m.calls == []
      else if guards.EpochMissed() then m.halted == Some(Missed(BootEpoch)) && m.calls == []
      else Reached(plan, world, |plan|, m)
  {
    hide Run, Blocks, Bind, Throws, ScriptRun;
    OpeningRuns(plan, compact, remote, world, guards);
    if !Throws(plan, world) {
      var m := Opened(plan, remote, world, guards);
      if guards.Pass() {
        assert plan[0..] == plan;
        BlocksReachEnd(plan, world, guards, 0, compact, m);
      } else {
        HaltedStays(Blocks(plan, 0, compact), m, world, guards);
      }
    }
  }

  // ---- what is read back -------------------------------------------------

  /** The step that failed said nothing: its message is empty. */
  predicate FailsSilently(effects: seq<Effect>) {
    var f := FirstFailure(effects, 0);
    f < |effects| && effects[f].done.text == []
  }

  lemma ParseError(k: nat, message: Text)
    ensures ParseLine(ErrLine(k, Base64.Encode(Utf8.Encode(message)))) ==
      if message == [] then None else Some(Failed(k, message))
  {
    Base64.RoundTrip(Utf8.Encode(message));
    Utf8.RoundTrip(message);
  }

  /** A script's step says nothing of places, and of digests only after a wait. */
  predicate Plain(done: Done) {
    done.Fine? ==> done.head.None? && (done.stop.None? ==> done.hash == "")
  }

  lemma ScriptIsPlain(plan: seq<Step>, world: World)
    ensures forall e | e in ScriptEffects(plan, world) :: Plain(e.done)
  {
    hide S.WaitFor, S.Promised, Rounded, Clamp, TraceOf, WaitOf, Make, Bind;
  }

  lemma ParseLineAt(effects: seq<Effect>, k: nat)
    requires k < |effects| && Plain(effects[k].done)
    ensures ParseLine(LineAt(effects, k)) ==
      if k == FirstFailure(effects, 0) && FailsSilently(effects) then None else Some(RecordAt(effects, k))
  {
    hide Base64.Encode, Base64.Decode, Utf8.Encode, Utf8.DecodeIgnoring;
    var f := FirstFailure(effects, 0);
    if k <= f && effects[k].done.Wrong? {
      assert k == f;
      ParseError(k, effects[k].done.text);
    }
  }

  /** All but the one at f, of the first n. */
  function Without<T>(xs: seq<T>, f: nat, n: nat): seq<T>
    requires n <= |xs|
  {
    if f < n then xs[..f] + xs[f + 1..n] else xs[..n]
  }

  lemma WithoutNext<T>(xs: seq<T>, f: nat, n: nat)
    requires 0 < n <= |xs|
    ensures Without(xs, f, n) == Without(xs, f, n - 1) + if f == n - 1 then [] else [xs[n - 1]]
  {}

  lemma ParseNext(effects: seq<Effect>, n: nat)
    requires 0 < n <= |effects| && Plain(effects[n - 1].done)
    ensures Parse(LinesTo(effects, n)) == Parse(LinesTo(effects, n - 1)) +
      if n - 1 == FirstFailure(effects, 0) && FailsSilently(effects) then [] else [Report(effects)[n - 1]]
  {
    hide LineAt, ParseLine, RecordAt, FailsSilently, Plain;
    var lines := LinesTo(effects, n);
    assert lines[..n - 1] == LinesTo(effects, n - 1);
    ParseLineAt(effects, n - 1);
  }

  /** Reading the output back gives the report, less the record of a silent failure. */
  lemma {:induction false} ParseLines(effects: seq<Effect>, n: nat)
    requires n <= |effects| && forall e | e in effects :: Plain(e.done)
    ensures Parse(LinesTo(effects, n)) ==
      Without(Report(effects), if FailsSilently(effects) then FirstFailure(effects, 0) else |effects|, n)
  {
    hide Parse, Report, FailsSilently, Plain, Without;
    var skip := if FailsSilently(effects) then FirstFailure(effects, 0) else |effects|;
    if n == 0 {
      NothingYet(effects, skip);
    } else {
      ParseLines(effects, n - 1);
      ParseNext(effects, n);
      WithoutNext(Report(effects), skip, n);
    }
  }

  lemma NothingYet(effects: seq<Effect>, skip: nat)
    ensures Parse(LinesTo(effects, 0)) == Without(Report(effects), skip, 0) == []
  {}

  // ---- choosing what to compact ------------------------------------------

  function CodeSteps(plan: seq<Step>): set<nat> {
    set k: nat | k < |plan| && plan[k].Codes?
  }

  /** Compact the longest code arrays, one at a time, while the script is over budget;
      `size` prices the script that a choice gives. */
  method Compaction(plan: seq<Step>, size: set<nat> -> nat, budget: nat) returns (compact: set<nat>)
    ensures compact <= CodeSteps(plan)
    ensures size(compact) <= budget || compact == CodeSteps(plan)
    ensures forall i, j | i in compact && j in CodeSteps(plan) - compact :: |plan[i].codes| >= |plan[j].codes|
    ensures compact == {} || exists last :: last in compact && size(compact - {last}) > budget
  {
    compact := {};
    while size(compact) > budget && CodeSteps(plan) - compact != {}
      invariant compact <= CodeSteps(plan)
      invariant forall i, j | i in compact && j in CodeSteps(plan) - compact :: |plan[i].codes| >= |plan[j].codes|
      invariant compact == {} || exists last :: last in compact && size(compact - {last}) > budget
      decreases CodeSteps(plan) - compact
    {
      var longest := Longest(plan, CodeSteps(plan) - compact);
      assert compact + {longest} - {longest} == compact;
      compact := compact + {longest};
    }
    assert CodeSteps(plan) - compact == {} ==> compact == CodeSteps(plan);
  }

  method Longest(plan: seq<Step>, among: set<nat>) returns (k: nat)
    requires among <= CodeSteps(plan) && among != {}
    ensures k in among && forall j | j in among :: |plan[k].codes| >= |plan[j].codes|
  {
    var rest := among;
    k :| k in among;
    while rest != {}
      invariant k in among && rest <= among
      invariant forall j | j in among - rest :: |plan[k].codes| >= |plan[j].codes|
      decreases rest
    {
      var j :| j in rest;
      if |plan[j].codes| > |plan[k].codes| {
        k := j;
      }
      rest := rest - {j};
    }
  }
}
