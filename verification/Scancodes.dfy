/** PS/2 scan-code set 1: the key table, the encoders of keys and combos, and a decoder
    to read their byte streams back. */
module Scancodes {
  import opened Common

  /** A key as the keyboard controller sees it: its make code, and whether the E0 prefix
      tells it from the key that shares the code. */
  datatype Key = Key(extended: bool, make: nat)

  /** A table entry: the make and break bytes, plain or behind E0. */
  datatype Code = Plain(make: nat, brk: nat) | Extended(make: nat, brk: nat)
  {
    function Physical(): Key {
      Key(Extended?, make)
    }

    /** No byte of an entry can be taken for the prefix or for the other half. */
    predicate WellFormed() {
      0 < make < 0x80 && make != 0x60 && brk == make + 0x80
    }

    function Down(): seq<nat> {
      if Extended? then [PREFIX, make] else [make]
    }

    function Up(): seq<nat> {
      if Extended? then [PREFIX, brk] else [brk]
    }
  }

  const PREFIX: nat := 0xE0

  const MODIFIERS: set<string> := {
    "ctrl", "alt", "shift", "leftctrl", "rightctrl", "leftalt", "rightalt",
    "leftshift", "rightshift", "win", "leftwin", "rightwin" }

  const MODIFIER_KEYS: set<Key> := {
    Key(false, 0x1D), Key(true, 0x1D), Key(false, 0x38), Key(true, 0x38),
    Key(false, 0x2A), Key(false, 0x36), Key(true, 0x5B), Key(true, 0x5C) }

  // ---- the table ---------------------------------------------------------

  function ModifierCode(name: string): (code: Option<Code>)
    ensures code.Some? ==> code.value.WellFormed()
    ensures code.Some? <==> name in MODIFIERS
    ensures code.Some? ==> code.value.Physical() in MODIFIER_KEYS
  {
    if name == "ctrl" || name == "leftctrl" then Some(Plain(0x1D, 0x9D))
    else if name == "rightctrl" then Some(Extended(0x1D, 0x9D))
    else if name == "alt" || name == "leftalt" then Some(Plain(0x38, 0xB8))
    else if name == "rightalt" then Some(Extended(0x38, 0xB8))
    else if name == "shift" || name == "leftshift" then Some(Plain(0x2A, 0xAA))
    else if name == "rightshift" then Some(Plain(0x36, 0xB6))
    else if name == "win" || name == "leftwin" then Some(Extended(0x5B, 0xDB))
    else if name == "rightwin" then Some(Extended(0x5C, 0xDC))
    else None
  }

  function LetterCode(name: string): (code: Option<Code>)
    ensures code.Some? ==> code.value.WellFormed()
    ensures code.Some? ==> code.value.Physical() !in MODIFIER_KEYS
  {
    if name == "q" then Some(Plain(0x10, 0x90))
    else if name == "w" then Some(Plain(0x11, 0x91))
    else if name == "e" then Some(Plain(0x12, 0x92))
    else if name == "r" then Some(Plain(0x13, 0x93))
    else if name == "t" then Some(Plain(0x14, 0x94))
    else if name == "y" then Some(Plain(0x15, 0x95))
    else if name == "u" then Some(Plain(0x16, 0x96))
    else if name == "i" then Some(Plain(0x17, 0x97))
    else if name == "o" then Some(Plain(0x18, 0x98))
    else if name == "p" then Some(Plain(0x19, 0x99))
    else if name == "a" then Some(Plain(0x1E, 0x9E))
    else if name == "s" then Some(Plain(0x1F, 0x9F))
    else if name == "d" then Some(Plain(0x20, 0xA0))
    else if name == "f" then Some(Plain(0x21, 0xA1))
    else if name == "g" then Some(Plain(0x22, 0xA2))
    else if name == "h" then Some(Plain(0x23, 0xA3))
    else if name == "j" then Some(Plain(0x24, 0xA4))
    else if name == "k" then Some(Plain(0x25, 0xA5))
    else if name == "l" then Some(Plain(0x26, 0xA6))
    else if name == "z" then Some(Plain(0x2C, 0xAC))
    else if name == "x" then Some(Plain(0x2D, 0xAD))
    else if name == "c" then Some(Plain(0x2E, 0xAE))
    else if name == "v" then Some(Plain(0x2F, 0xAF))
    else if name == "b" then Some(Plain(0x30, 0xB0))
    else if name == "n" then Some(Plain(0x31, 0xB1))
    else if name == "m" then Some(Plain(0x32, 0xB2))
    else None
  }

  function DigitCode(name: string): (code: Option<Code>)
    ensures code.Some? ==> code.value.WellFormed()
    ensures code.Some? ==> code.value.Physical() !in MODIFIER_KEYS
  {
    if name == "1" then Some(Plain(0x02, 0x82))
    else if name == "2" then Some(Plain(0x03, 0x83))
    else if name == "3" then Some(Plain(0x04, 0x84))
    else if name == "4" then Some(Plain(0x05, 0x85))
    else if name == "5" then Some(Plain(0x06, 0x86))
    else if name == "6" then Some(Plain(0x07, 0x87))
    else if name == "7" then Some(Plain(0x08, 0x88))
    else if name == "8" then Some(Plain(0x09, 0x89))
    else if name == "9" then Some(Plain(0x0A, 0x8A))
    else if name == "0" then Some(Plain(0x0B, 0x8B))
    else None
  }

  function FunctionCode(name: string): (code: Option<Code>)
    ensures code.Some? ==> code.value.WellFormed()
    ensures code.Some? ==> code.value.Physical() !in MODIFIER_KEYS
  {
    if name == "f1" then Some(Plain(0x3B, 0xBB))
    else if name == "f2" then Some(Plain(0x3C, 0xBC))
    else if name == "f3" then Some(Plain(0x3D, 0xBD))
    else if name == "f4" then Some(Plain(0x3E, 0xBE))
    else if name == "f5" then Some(Plain(0x3F, 0xBF))
    else if name == "f6" then Some(Plain(0x40, 0xC0))
    else if name == "f7" then Some(Plain(0x41, 0xC1))
    else if name == "f8" then Some(Plain(0x42, 0xC2))
    else if name == "f9" then Some(Plain(0x43, 0xC3))
    else if name == "f10" then Some(Plain(0x44, 0xC4))
    else if name == "f11" then Some(Plain(0x57, 0xD7))
    else if name == "f12" then Some(Plain(0x58, 0xD8))
    else None
  }

  function EditingCode(name: string): (code: Option<Code>)
    ensures code.Some? ==> code.value.WellFormed()
    ensures code.Some? ==> code.value.Physical() !in MODIFIER_KEYS
  {
    if name == "enter" then Some(Plain(0x1C, 0x9C))
    else if name == "escape" || name == "esc" then Some(Plain(0x01, 0x81))
    else if name == "tab" then Some(Plain(0x0F, 0x8F))
    else if name == "backspace" then Some(Plain(0x0E, 0x8E))
    else if name == "space" then Some(Plain(0x39, 0xB9))
    else if name == "capslock" then Some(Plain(0x3A, 0xBA))
    else if name == "delete" then Some(Extended(0x53, 0xD3))
    else if name == "insert" then Some(Extended(0x52, 0xD2))
    else if name == "home" then Some(Extended(0x47, 0xC7))
    else if name == "end" then Some(Extended(0x4F, 0xCF))
    else if name == "pageup" then Some(Extended(0x49, 0xC9))
    else if name == "pagedown" then Some(Extended(0x51, 0xD1))
    else if name == "up" then Some(Extended(0x48, 0xC8))
    else if name == "down" then Some(Extended(0x50, 0xD0))
    else if name == "left" then Some(Extended(0x4B, 0xCB))
    else if name == "right" then Some(Extended(0x4D, 0xCD))
    else if name == "apps" || name == "menu" then Some(Extended(0x5D, 0xDD))
    else None
  }

  function PunctuationCode(name: string): (code: Option<Code>)
    ensures code.Some? ==> code.value.WellFormed()
    ensures code.Some? ==> code.value.Physical() !in MODIFIER_KEYS
  {
    if name == "minus" || name == "-" then Some(Plain(0x0C, 0x8C))
    else if name == "equals" || name == "=" then Some(Plain(0x0D, 0x8D))
    else if name == "leftbracket" || name == "[" then Some(Plain(0x1A, 0x9A))
    else if name == "rightbracket" || name == "]" then Some(Plain(0x1B, 0x9B))
    else if name == "semicolon" || name == ";" then Some(Plain(0x27, 0xA7))
    else if name == "apostrophe" || name == "'" then Some(Plain(0x28, 0xA8))
    else if name == "grave" || name == "`" then Some(Plain(0x29, 0xA9))
    else if name == "backslash" || name == "\\" then Some(Plain(0x2B, 0xAB))
    else if name == "comma" || name == "," then Some(Plain(0x33, 0xB3))
    else if name == "period" || name == "." then Some(Plain(0x34, 0xB4))
    else if name == "slash" || name == "/" then Some(Plain(0x35, 0xB5))
    else None
  }

  function KeypadCode(name: string): (code: Option<Code>)
    ensures code.Some? ==> code.value.WellFormed()
    ensures code.Some? ==> code.value.Physical() !in MODIFIER_KEYS
  {
    if name == "num0" then Some(Plain(0x52, 0xD2))
    else if name == "num1" then Some(Plain(0x4F, 0xCF))
    else if name == "num2" then Some(Plain(0x50, 0xD0))
    else if name == "num3" then Some(Plain(0x51, 0xD1))
    else if name == "num4" then Some(Plain(0x4B, 0xCB))
    else if name == "num5" then Some(Plain(0x4C, 0xCC))
    else if name == "num6" then Some(Plain(0x4D, 0xCD))
    else if name == "num7" then Some(Plain(0x47, 0xC7))
    else if name == "num8" then Some(Plain(0x48, 0xC8))
    else if name == "num9" then Some(Plain(0x49, 0xC9))
    else if name == "numdecimal" then Some(Plain(0x53, 0xD3))
    else if name == "nummultiply" then Some(Plain(0x37, 0xB7))
    else if name == "numsubtract" then Some(Plain(0x4A, 0xCA))
    else if name == "numadd" then Some(Plain(0x4E, 0xCE))
    else if name == "numlock" then Some(Plain(0x45, 0xC5))
    else if name == "numdivide" then Some(Extended(0x35, 0xB5))
    else if name == "numenter" then Some(Extended(0x1C, 0x9C))
    else None
  }

  /** The table: 118 names, aliases included. */
  function Lookup(name: string): (code: Option<Code>)
    ensures code.Some? ==> code.value.WellFormed()
    ensures code.Some? ==> (code.value.Physical() in MODIFIER_KEYS <==> name in MODIFIERS)
    ensures name in MODIFIERS ==> code.Some?
  {
    if ModifierCode(name).Some? then ModifierCode(name)
    else if LetterCode(name).Some? then LetterCode(name)
    else if DigitCode(name).Some? then DigitCode(name)
    else if FunctionCode(name).Some? then FunctionCode(name)
    else if EditingCode(name).Some? then EditingCode(name)
    else if PunctuationCode(name).Some? then PunctuationCode(name)
    else KeypadCode(name)
  }

  /** A keyboard layout: the table, and the names and keys held as modifiers. */
  datatype Layout = Layout(code: string -> Option<Code>, modifiers: set<string>, modifierKeys: set<Key>)
  {
    /** Every entry is well formed, and the modifier names are names of the modifier keys. */
    ghost predicate Good() {
      && (forall name :: code(name).Some? ==> code(name).value.WellFormed())
      && (forall name :: code(name).Some? ==> (code(name).value.Physical() in modifierKeys <==> name in modifiers))
    }
  }

  const SET_ONE := Layout(Lookup, MODIFIERS, MODIFIER_KEYS)

  lemma SetOneIsGood()
    ensures SET_ONE.Good()
  {
  }

  // ---- encoding ----------------------------------------------------------

  function Normal(name: string): string {
    Lower(Strip(name))
  }

  function Find(l: Layout, name: string): Option<Code> {
    l.code(Normal(name))
  }

  predicate IsModifier(l: Layout, name: string) {
    Normal(name) in l.modifiers
  }

  predicate Known(l: Layout, names: seq<string>) {
    forall i | 0 <= i < |names| :: Find(l, names[i]).Some?
  }

  /** The table entries of a list of known names. */
  function Entries(l: Layout, names: seq<string>): (cs: seq<Code>)
    requires Known(l, names)
    ensures |cs| == |names|
  {
    seq(|names|, i requires 0 <= i < |names| => Find(l, names[i]).value)
  }

  function Downs(cs: seq<Code>): seq<nat> {
    if cs == [] then [] else Downs(cs[..|cs| - 1]) + cs[|cs| - 1].Down()
  }

  function Taps(cs: seq<Code>): seq<nat> {
    if cs == [] then [] else Taps(cs[..|cs| - 1]) + cs[|cs| - 1].Down() + cs[|cs| - 1].Up()
  }

  function Ups(cs: seq<Code>): seq<nat> {
    if cs == [] then [] else cs[|cs| - 1].Up() + Ups(cs[..|cs| - 1])
  }

  datatype EncodeError = NoKey | UnknownKey

  /** Modifiers down in order, every other key tapped, modifiers up in reverse. */
  function Combo(l: Layout, mods: seq<string>, rest: seq<string>): Result<seq<nat>, EncodeError> {
    if rest == [] then Err(NoKey)
    else if !Known(l, mods) || !Known(l, rest) then Err(UnknownKey)
    else Ok(Downs(Entries(l, mods)) + Taps(Entries(l, rest)) + Ups(Entries(l, mods)))
  }

  function Held(l: Layout, keys: seq<string>): seq<string> {
    Keep(keys, (k: string) => IsModifier(l, k))
  }

  /** The keys that are not, as given, among the held ones. */
  function Tapped(l: Layout, keys: seq<string>): seq<string> {
    var held := Held(l, keys);
    Keep(keys, (k: string) => k !in held)
  }

  function KeyCombo(l: Layout, keys: seq<string>): Result<seq<nat>, EncodeError> {
    Combo(l, Held(l, keys), Tapped(l, keys))
  }

  /** The encoder as it runs: one list of codes, extended group by group. */
  method EncodeEntries(ms: seq<Code>, rs: seq<Code>) returns (codes: seq<nat>)
    ensures codes == Downs(ms) + Taps(rs) + Ups(ms)
  {
    codes := [];
    for i := 0 to |ms|
      invariant codes == Downs(ms[..i])
    {
      GroupsExtend(ms, i);
      codes := codes + ms[i].Down();
    }
    GroupsWhole(ms);
    for i := 0 to |rs|
      invariant codes == Downs(ms) + Taps(rs[..i])
    {
      GroupsExtend(rs, i);
      Assoc(Downs(ms), Taps(rs[..i]), rs[i].Down() + rs[i].Up());
      codes := codes + (rs[i].Down() + rs[i].Up());
    }
    GroupsWhole(rs);
    codes := EncodeUps(ms, codes);
  }

  /** The closing loop: the break codes, last modifier first. */
  method EncodeUps(ms: seq<Code>, sofar: seq<nat>) returns (codes: seq<nat>)
    ensures codes == sofar + Ups(ms)
  {
    codes := sofar;
    GroupsWhole(ms);
    for n := |ms| downto 0
      invariant codes + Ups(ms[..n]) == sofar + Ups(ms)
    {
      GroupsExtend(ms, n);
      Assoc(codes, ms[n].Up(), Ups(ms[..n]));
      codes := codes + ms[n].Up();
    }
    assert Ups(ms[..0]) == [];
  }

  method EncodeCombo(l: Layout, mods: seq<string>, rest: seq<string>) returns (res: Result<seq<nat>, EncodeError>)
    ensures res == Combo(l, mods, rest)
  {
    if rest == [] {
      return Err(NoKey);
    }
    if !Known(l, mods) || !Known(l, rest) {
      return Err(UnknownKey);
    }
    var codes := EncodeEntries(Entries(l, mods), Entries(l, rest));
    res := Ok(codes);
  }

  lemma Assoc<T>(a: seq<T>, b: seq<T>, c: seq<T>)
    ensures a + b + c == a + (b + c)
  {}

  lemma GroupsExtend(cs: seq<Code>, i: nat)
    requires i < |cs|
    ensures Downs(cs[..i + 1]) == Downs(cs[..i]) + cs[i].Down()
    ensures Taps(cs[..i + 1]) == Taps(cs[..i]) + (cs[i].Down() + cs[i].Up())
    ensures Ups(cs[..i + 1]) == cs[i].Up() + Ups(cs[..i])
  {
    assert cs[..i + 1][..i] == cs[..i];
    assert Taps(cs[..i]) + cs[i].Down() + cs[i].Up() == Taps(cs[..i]) + (cs[i].Down() + cs[i].Up());
  }

  lemma GroupsWhole(cs: seq<Code>)
    ensures Downs(cs[..|cs|]) == Downs(cs) && Taps(cs[..|cs|]) == Taps(cs) && Ups(cs[..|cs|]) == Ups(cs)
  {
    assert cs[..|cs|] == cs;
  }

  /** A key is found under its name in any case and with any space around it. */
  lemma NamesAreFolded(l: Layout, front: string, name: string, back: string, other: string)
    requires AllSpace(front) && AllSpace(back) && SameName(name, other)
    ensures Find(l, front + name + back) == Find(l, other)
    ensures IsModifier(l, front + name + back) <==> IsModifier(l, other)
  {
    hide Strip, Lower;
    StripIgnoresSpace(front, name, back);
    StripKeepsSameName(name, other);
    LowerIsSameName(Strip(name), Strip(other));
  }

  // ---- decoding ----------------------------------------------------------

  datatype Event = Pressed(key: Key) | Released(key: Key)

  function EventOf(extended: bool, byte: nat): Event {
    if byte < 0x80 then Pressed(Key(extended, byte)) else Released(Key(extended, byte - 0x80))
  }

  /** Read a set-1 stream: E0 qualifies the byte that follows it. */
  function Decode(bytes: seq<nat>): Option<seq<Event>> {
    if bytes == [] then Some([])
    else if bytes[0] != PREFIX then
      var rest := Decode(bytes[1..]);
      if rest.None? then None else Some([EventOf(false, bytes[0])] + rest.value)
    else if |bytes| == 1 || bytes[1] == PREFIX then None
    else
      var rest := Decode(bytes[2..]);
      if rest.None? then None else Some([EventOf(true, bytes[1])] + rest.value)
  }

  /** One event is read off the front of a stream. */
  lemma DecodeStep(bytes: seq<nat>, n: nat, event: Event)
    requires bytes != [] && (bytes[0] == PREFIX ==> |bytes| > 1 && bytes[1] != PREFIX)
    requires n == (if bytes[0] == PREFIX then 2 else 1)
    requires event == if bytes[0] == PREFIX then EventOf(true, bytes[1]) else EventOf(false, bytes[0])
    ensures Decode(bytes).Some? <==> Decode(bytes[n..]).Some?
    ensures Decode(bytes).Some? ==> Decode(bytes).value == [event] + Decode(bytes[n..]).value
  {
  }

  lemma {:induction false} DecodeConcat(a: seq<nat>, b: seq<nat>)
    requires Decode(a).Some?
    ensures Decode(a + b).Some? <==> Decode(b).Some?
    ensures Decode(b).Some? ==> Decode(a + b) == Some(Decode(a).value + Decode(b).value)
    decreases |a|
  {
    if a == [] {
      assert a + b == b;
      assert Decode(b).Some? ==> [] + Decode(b).value == Decode(b).value;
    } else {
      var n := if a[0] == PREFIX then 2 else 1;
      var event := if a[0] == PREFIX then EventOf(true, a[1]) else EventOf(false, a[0]);
      DecodeConcat(a[n..], b);
      assert (a + b)[n..] == a[n..] + b;
      DecodeStep(a, n, event);
      DecodeStep(a + b, n, event);
      if Decode(b).Some? {
        var front, back := Decode(a[n..]).value, Decode(b).value;
        Assoc([event], front, back);
      }
    }
  }

  lemma DecodeDown(c: Code)
    requires c.WellFormed()
    ensures Decode(c.Down()) == Some([Pressed(c.Physical())]) && Decode(c.Up()) == Some([Released(c.Physical())])
  {
    var n := if c.Extended? then 2 else 1;
    DecodeStep(c.Down(), n, Pressed(c.Physical()));
    DecodeStep(c.Up(), n, Released(c.Physical()));
    assert c.Down()[n..] == [] && c.Up()[n..] == [];
    assert Decode([]) == Some([]);
    assert [Pressed(c.Physical())] + [] == [Pressed(c.Physical())];
    assert [Released(c.Physical())] + [] == [Released(c.Physical())];
  }

  // ---- what the stream means ---------------------------------------------

  predicate AllWellFormed(cs: seq<Code>) {
    forall c | c in cs :: c.WellFormed()
  }

  function Presses(cs: seq<Code>): seq<Event> {
    seq(|cs|, i requires 0 <= i < |cs| => Pressed(cs[i].Physical()))
  }

  /** Releases in reverse order. */
  function Releases(cs: seq<Code>): seq<Event> {
    seq(|cs|, i requires 0 <= i < |cs| => Released(cs[|cs| - 1 - i].Physical()))
  }

  /** Each key pressed and released before the next. */
  function TapEvents(cs: seq<Code>): seq<Event> {
    seq(2 * |cs|, i requires 0 <= i < 2 * |cs| =>
      if i % 2 == 0 then Pressed(cs[i / 2].Physical()) else Released(cs[i / 2].Physical()))
  }

  lemma EventsExtend(cs: seq<Code>, c: Code)
    ensures Presses(cs + [c]) == Presses(cs) + [Pressed(c.Physical())]
    ensures TapEvents(cs + [c]) == TapEvents(cs) + [Pressed(c.Physical())] + [Released(c.Physical())]
    ensures Releases(cs + [c]) == [Released(c.Physical())] + Releases(cs)
  {
  }

  lemma {:induction false} DecodeGroups(cs: seq<Code>)
    requires AllWellFormed(cs)
    ensures Decode(Downs(cs)) == Some(Presses(cs))
    ensures Decode(Taps(cs)) == Some(TapEvents(cs))
    ensures Decode(Ups(cs)) == Some(Releases(cs))
  {
    if cs == [] {
      assert Presses(cs) == [] && TapEvents(cs) == [] && Releases(cs) == [];
    } else {
      var init, c := cs[..|cs| - 1], cs[|cs| - 1];
      DecodeGroups(init);
      DecodeDown(c);
      DecodeConcat(Downs(init), c.Down());
      DecodeConcat(Taps(init), c.Down());
      DecodeConcat(Taps(init) + c.Down(), c.Up());
      DecodeConcat(c.Up(), Ups(init));
      EventsExtend(init, c);
      assert cs == init + [c];
    }
  }

  /** Decoding a combo's bytes gives the modifiers going down in order, each other key
      tapped in order, and the modifiers coming up in reverse. */
  lemma ComboRoundTrip(l: Layout, mods: seq<string>, rest: seq<string>)
    requires l.Good() && Combo(l, mods, rest).Ok?
    ensures Decode(Combo(l, mods, rest).value) ==
      Some(Presses(Entries(l, mods)) + TapEvents(Entries(l, rest)) + Releases(Entries(l, mods)))
  {
    var ms, rs := Entries(l, mods), Entries(l, rest);
    DecodeGroups(ms);
    DecodeGroups(rs);
    DecodeConcat(Downs(ms), Taps(rs));
    DecodeConcat(Downs(ms) + Taps(rs), Ups(ms));
  }

  // ---- the keyboard it drives --------------------------------------------

  /** The keys held after a stream of events, from those held before it. */
  function Replay(events: seq<Event>, held: set<Key>): set<Key> {
    if events == [] then held else
      var before := Replay(events[..|events| - 1], held);
      match events[|events| - 1]
      case Pressed(k) => before + {k}
      case Released(k) => before - {k}
  }

  function KeySet(cs: seq<Code>): set<Key> {
    set c | c in cs :: c.Physical()
  }

  lemma {:induction false} ReplayConcat(a: seq<Event>, b: seq<Event>, held: set<Key>)
    ensures Replay(a + b, held) == Replay(b, Replay(a, held))
  {
    if b == [] {
      assert a + b == a;
    } else {
      ReplayConcat(a, b[..|b| - 1], held);
      assert (a + b)[..|a + b| - 1] == a + b[..|b| - 1];
    }
  }

  lemma ReplayLast(events: seq<Event>, event: Event, held: set<Key>)
    ensures Replay(events + [event], held) ==
      if event.Pressed? then Replay(events, held) + {event.key} else Replay(events, held) - {event.key}
  {
    assert (events + [event])[..|events|] == events;
  }

  lemma KeySetExtends(cs: seq<Code>, c: Code)
    ensures KeySet(cs + [c]) == KeySet(cs) + {c.Physical()}
  {
    forall k | k in KeySet(cs) + {c.Physical()} ensures k in KeySet(cs + [c]) {
      if k == c.Physical() {
        assert c in cs + [c];
      } else {
        var d :| d in cs && d.Physical() == k;
        assert d in cs + [c];
      }
    }
  }

  lemma {:induction false} ReplayGroups(cs: seq<Code>, held: set<Key>)
    ensures Replay(Presses(cs), held) == held + KeySet(cs)
    ensures Replay(TapEvents(cs), held) == held - KeySet(cs)
  {
    if cs != [] {
      var init, c := cs[..|cs| - 1], cs[|cs| - 1];
      ReplayGroups(init, held);
      assert cs == init + [c];
      KeySetExtends(init, c);
      EventsExtend(init, c);
      ReplayLast(Presses(init), Pressed(c.Physical()), held);
      ReplayLast(TapEvents(init), Pressed(c.Physical()), held);
      ReplayLast(TapEvents(init) + [Pressed(c.Physical())], Released(c.Physical()), held);
    }
  }

  lemma {:induction false} ReplayReleases(cs: seq<Code>, held: set<Key>)
    ensures Replay(Releases(cs), held) == held - KeySet(cs)
  {
    if cs != [] {
      var c, tail := cs[0], cs[1..];
      ReplayReleases(tail, held);
      assert KeySet(cs) == KeySet(tail) + {c.Physical()} by { assert cs == [c] + tail; }
      assert Releases(cs)[..|cs| - 1] == Releases(tail);
    }
  }

  /** Whatever was held before, a combo leaves held just what it did not touch: from an
      idle keyboard it leaves nothing held, even when one key is named several times. */
  lemma ComboLeavesNothingHeld(l: Layout, mods: seq<string>, rest: seq<string>, held: set<Key>)
    requires l.Good() && Combo(l, mods, rest).Ok?
    ensures Decode(Combo(l, mods, rest).value).Some?
    ensures Replay(Decode(Combo(l, mods, rest).value).value, held)
      == held - KeySet(Entries(l, mods)) - KeySet(Entries(l, rest))
  {
    var ms, rs := Entries(l, mods), Entries(l, rest);
    ComboRoundTrip(l, mods, rest);
    ReplayConcat(Presses(ms) + TapEvents(rs), Releases(ms), held);
    ReplayConcat(Presses(ms), TapEvents(rs), held);
    ReplayGroups(ms, held);
    ReplayGroups(rs, held + KeySet(ms));
    ReplayReleases(ms, held + KeySet(ms) - KeySet(rs));
  }

  /** A key combo encodes exactly when every name is known and some key is no modifier. */
  lemma KeyComboIff(l: Layout, keys: seq<string>)
    ensures KeyCombo(l, keys).Ok? <==>
      (exists k :: k in keys && !IsModifier(l, k)) && (forall k | k in keys :: Find(l, k).Some?)
  {
    var tapped := Tapped(l, keys);
    assert forall k :: k in tapped <==> k in keys && !IsModifier(l, k);
    assert tapped != [] ==> tapped[0] in tapped;
  }

  /** No key a combo taps is one of the keys it holds. */
  lemma TappedAreNotHeld(l: Layout, keys: seq<string>)
    requires l.Good() && Known(l, Held(l, keys)) && Known(l, Tapped(l, keys))
    ensures KeySet(Entries(l, Held(l, keys))) <= l.modifierKeys
    ensures forall c | c in Entries(l, Tapped(l, keys)) :: c.Physical() !in l.modifierKeys
  {
    var held, tapped := Held(l, keys), Tapped(l, keys);
    forall m | m in Entries(l, held) ensures m.Physical() in l.modifierKeys {
      var k :| 0 <= k < |held| && Entries(l, held)[k] == m;
      assert held[k] in held;
    }
    forall c | c in Entries(l, tapped) ensures c.Physical() !in l.modifierKeys {
      var j :| 0 <= j < |tapped| && Entries(l, tapped)[j] == c;
      assert tapped[j] in tapped;
    }
  }

  /** When a key combo taps its i-th other key, exactly the combo's modifiers are down. */
  lemma ModifiersHeldWhileTapping(l: Layout, keys: seq<string>, i: nat)
    requires l.Good() && KeyCombo(l, keys).Ok? && i < |Tapped(l, keys)|
    ensures var ms, rs := Entries(l, Held(l, keys)), Entries(l, Tapped(l, keys));
            var before := Downs(ms) + Taps(rs[..i]);
            && before + rs[i].Down() <= KeyCombo(l, keys).value
            && Decode(before).Some?
            && Replay(Decode(before).value, {}) == KeySet(ms)
            && rs[i].Physical() !in KeySet(ms)
  {
    var ms, rs := Entries(l, Held(l, keys)), Entries(l, Tapped(l, keys));
    TappedAreNotHeld(l, keys);
    HeldAcrossTaps(ms, rs[..i]);
    TapsPrefix(rs, i);
    PrefixUnder(Downs(ms), Taps(rs[..i]), rs[i].Down(), Taps(rs), Ups(ms));
  }

  lemma PrefixUnder(front: seq<nat>, a: seq<nat>, b: seq<nat>, middle: seq<nat>, back: seq<nat>)
    requires a + b <= middle
    ensures front + a + b <= front + middle + back
  {
    assert front + a + b == front + (a + b);
  }

  lemma HeldAcrossTaps(ms: seq<Code>, rs: seq<Code>)
    requires AllWellFormed(ms) && AllWellFormed(rs)
    requires forall c | c in rs :: c.Physical() !in KeySet(ms)
    ensures Decode(Downs(ms) + Taps(rs)).Some?
    ensures Replay(Decode(Downs(ms) + Taps(rs)).value, {}) == KeySet(ms)
  {
    DecodeGroups(ms);
    DecodeGroups(rs);
    DecodeConcat(Downs(ms), Taps(rs));
    assert Replay(Presses(ms) + TapEvents(rs), {}) == KeySet(ms) by {
      ReplayConcat(Presses(ms), TapEvents(rs), {});
      ReplayGroups(ms, {});
      assert {} + KeySet(ms) == KeySet(ms);
      ReplayGroups(rs, KeySet(ms));
      assert KeySet(ms) - KeySet(rs) == KeySet(ms);
    }
  }

  lemma {:induction false} TapsPrefix(cs: seq<Code>, i: nat)
    requires i < |cs|
    ensures Taps(cs[..i]) + cs[i].Down() <= Taps(cs)
  {
    if i < |cs| - 1 {
      TapsPrefix(cs[..|cs| - 1], i);
      assert cs[..|cs| - 1][..i] == cs[..i];
    }
  }
}
