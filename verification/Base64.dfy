/** Base64 as section 4 of RFC 4648 defines it, over bytes given as numbers below 256.
    The bits are regrouped into digits first and the digits are spelled afterwards. */
module Base64 {
  import opened Common

  /** A base-64 digit, or 64 for padding. */
  type Digit = d: int | 0 <= d <= 64

  const PAD: Digit := 64

  // ---- digits ------------------------------------------------------------

  function Group(a: Byte, b: Byte, c: Byte): seq<Digit> {
    [a / 4, a % 4 * 16 + b / 16, b % 16 * 4 + c / 64, c % 64]
  }

  /** The last one or two bytes, padded to four digits. */
  function Tail(bytes: seq<Byte>): seq<Digit>
    requires 1 <= |bytes| <= 2
  {
    if |bytes| == 1 then [bytes[0] / 4, bytes[0] % 4 * 16, PAD, PAD]
    else [bytes[0] / 4, bytes[0] % 4 * 16 + bytes[1] / 16, bytes[1] % 16 * 4, PAD]
  }

  function Digits(bytes: seq<Byte>): (ds: seq<Digit>)
    ensures ds == [] <==> bytes == []
  {
    if bytes == [] then []
    else if |bytes| < 3 then Tail(bytes)
    else Group(bytes[0], bytes[1], bytes[2]) + Digits(bytes[3..])
  }

  // The three bytes of four digits.

  function First(p: int, q: int): Byte
    requires 0 <= p < 64 && 0 <= q < 64
  {
    p * 4 + q / 16
  }

  function Second(q: int, r: int): Byte
    requires 0 <= q < 64 && 0 <= r < 64
  {
    q % 16 * 16 + r / 4
  }

  function Third(r: int, t: int): Byte
    requires 0 <= r < 64 && 0 <= t < 64
  {
    r % 4 * 64 + t
  }

  function Ungroup(d: seq<Digit>): Option<seq<Byte>>
    requires |d| == 4
  {
    if d[0] == PAD || d[1] == PAD || d[2] == PAD || d[3] == PAD then None
    else Some([First(d[0], d[1]), Second(d[1], d[2]), Third(d[2], d[3])])
  }

  /** The last four digits, at most two of them padding. */
  function Untail(d: seq<Digit>): Option<seq<Byte>>
    requires |d| == 4
  {
    if d[3] != PAD then Ungroup(d)
    else if d[0] == PAD || d[1] == PAD then None
    else if d[2] == PAD then Some([First(d[0], d[1])])
    else Some([First(d[0], d[1]), Second(d[1], d[2])])
  }

  /** Whole groups only, padding only at the very end. */
  function Undigits(ds: seq<Digit>): Option<seq<Byte>> {
    if ds == [] then Some([])
    else if |ds| < 4 then None
    else if |ds| == 4 then Untail(ds)
    else
      var head, rest := Ungroup(ds[..4]), Undigits(ds[4..]);
      if head.None? || rest.None? then None else Some(head.value + rest.value)
  }

  lemma SplitSixteen(v: int, high: int, low: int)
    requires v == high * 16 + low && 0 <= low < 16
    ensures v / 16 == high && v % 16 == low
  {}

  lemma SplitFour(v: int, high: int, low: int)
    requires v == high * 4 + low && 0 <= low < 4
    ensures v / 4 == high && v % 4 == low
  {}

  /** Three bytes come back from the four digits made of their parts. */
  lemma GroupRoundTrip(a: Byte, b: Byte, c: Byte)
    ensures Ungroup(Group(a, b, c)) == Some([a, b, c])
  {
    var a1: int, a0: int, b1: int, b0: int, c1: int, c0: int := a / 4, a % 4, b / 16, b % 16, c / 64, c % 64;
    PartsRoundTrip(a1, a0, b1, b0, c1, c0);
    assert Group(a, b, c) == [a1, a0 * 16 + b1, b0 * 4 + c1, c0];
    assert a == a1 * 4 + a0 && b == b1 * 16 + b0 && c == c1 * 64 + c0;
  }

  lemma PartsRoundTrip(a1: int, a0: int, b1: int, b0: int, c1: int, c0: int)
    requires 0 <= a1 < 64 && 0 <= a0 < 4 && 0 <= b1 < 16 && 0 <= b0 < 16 && 0 <= c1 < 4 && 0 <= c0 < 64
    ensures Ungroup([a1, a0 * 16 + b1, b0 * 4 + c1, c0]) == Some([a1 * 4 + a0, b1 * 16 + b0, c1 * 64 + c0])
  {
    hide First, Second, Third;
    FirstOf(a1, a0, b1);
    SecondOf(a0, b1, b0, c1);
    ThirdOf(b0, c1, c0);
  }

  lemma FirstOf(a1: int, a0: int, b1: int)
    requires 0 <= a1 < 64 && 0 <= a0 < 4 && 0 <= b1 < 16
    ensures First(a1, a0 * 16 + b1) == a1 * 4 + a0
  {
    SplitSixteen(a0 * 16 + b1, a0, b1);
  }

  lemma SecondOf(a0: int, b1: int, b0: int, c1: int)
    requires 0 <= a0 < 4 && 0 <= b1 < 16 && 0 <= b0 < 16 && 0 <= c1 < 4
    ensures Second(a0 * 16 + b1, b0 * 4 + c1) == b1 * 16 + b0
  {
    SplitSixteen(a0 * 16 + b1, a0, b1);
    SplitFour(b0 * 4 + c1, b0, c1);
  }

  lemma ThirdOf(b0: int, c1: int, c0: int)
    requires 0 <= b0 < 16 && 0 <= c1 < 4 && 0 <= c0 < 64
    ensures Third(b0 * 4 + c1, c0) == c1 * 64 + c0
  {
    SplitFour(b0 * 4 + c1, b0, c1);
  }

  lemma TailRoundTrip(bytes: seq<Byte>)
    requires 1 <= |bytes| <= 2
    ensures Untail(Tail(bytes)) == Some(bytes)
  {
    if |bytes| == 1 {
      var q := bytes[0] % 4 * 16;
      assert q / 16 == bytes[0] % 4;
      assert bytes == [bytes[0]];
    } else {
      GroupRoundTrip(bytes[0], bytes[1], 0);
      assert Tail(bytes)[..3] == Group(bytes[0], bytes[1], 0)[..3];
      assert bytes == [bytes[0], bytes[1]];
    }
  }

  lemma {:induction false} DigitsRoundTrip(bytes: seq<Byte>)
    ensures Undigits(Digits(bytes)) == Some(bytes)
  {
    if bytes == [] {
    } else if |bytes| < 3 {
      TailRoundTrip(bytes);
    } else {
      var head, rest := Group(bytes[0], bytes[1], bytes[2]), Digits(bytes[3..]);
      GroupRoundTrip(bytes[0], bytes[1], bytes[2]);
      DigitsRoundTrip(bytes[3..]);
      assert bytes == [bytes[0], bytes[1], bytes[2]] + bytes[3..];
      assert (head + rest)[..4] == head && (head + rest)[4..] == rest;
      if rest == [] {
        assert head + rest == head && bytes[3..] == [];
        assert Untail(head) == Ungroup(head);
        assert bytes == [bytes[0], bytes[1], bytes[2]];
      }
    }
  }

  lemma {:induction false} DigitsConcat(a: seq<Byte>, b: seq<Byte>)
    requires |a| % 3 == 0
    ensures Digits(a + b) == Digits(a) + Digits(b)
  {
    if a == [] {
      assert a + b == b;
    } else {
      DigitsConcat(a[3..], b);
      assert (a + b)[3..] == a[3..] + b;
      var head := Group(a[0], a[1], a[2]);
      assert Digits(a + b) == head + Digits((a + b)[3..]);
      assert (head + Digits(a[3..])) + Digits(b) == head + (Digits(a[3..]) + Digits(b));
    }
  }

  lemma UndigitsOfMore(head: seq<Digit>, rest: seq<Digit>)
    requires |head| == 4 && rest != []
    ensures Undigits(head + rest).Some? ==> Ungroup(head).Some? && Undigits(rest).Some?
  {
    hide First, Second, Third;
    assert (head + rest)[..4] == head && (head + rest)[4..] == rest;
  }

  /** Digits that end in padding cannot be continued. */
  lemma {:induction false} PaddingEndsIt(a: seq<Byte>, more: seq<Digit>)
    requires |a| % 3 != 0 && more != []
    ensures Undigits(Digits(a) + more).None?
  {
    if |a| < 3 {
      UndigitsOfMore(Tail(a), more);
    } else {
      hide Undigits, Ungroup;
      PaddingEndsIt(a[3..], more);
      var head := Group(a[0], a[1], a[2]);
      assert Digits(a) + more == head + (Digits(a[3..]) + more);
      UndigitsOfMore(head, Digits(a[3..]) + more);
    }
  }

  // ---- spelling ----------------------------------------------------------

  /** Table 1 of the RFC. */
  function Symbol(d: Digit): (c: char)
    ensures Value(c) == Some(d)
  {
    if d < 26 then ('A' as int + d) as char
    else if d < 52 then ('a' as int + (d - 26)) as char
    else if d < 62 then ('0' as int + (d - 52)) as char
    else if d == 62 then '+' else if d == 63 then '/' else '='
  }

  function Value(c: char): Option<Digit> {
    if 'A' <= c <= 'Z' then Some(c as int - 'A' as int)
    else if 'a' <= c <= 'z' then Some(c as int - 'a' as int + 26)
    else if '0' <= c <= '9' then Some(c as int - '0' as int + 52)
    else if c == '+' then Some(62) else if c == '/' then Some(63) else if c == '=' then Some(PAD)
    else None
  }

  function Spell(ds: seq<Digit>): (s: string)
    ensures |s| == |ds|
  {
    seq(|ds|, i requires 0 <= i < |ds| => Symbol(ds[i]))
  }

  predicate Spelled(s: string) {
    forall i | 0 <= i < |s| :: Value(s[i]).Some?
  }

  function Read(s: string): (ds: seq<Digit>)
    requires Spelled(s)
    ensures |ds| == |s|
  {
    seq(|s|, i requires 0 <= i < |s| => Value(s[i]).value)
  }

  function Encode(bytes: seq<Byte>): string {
    Spell(Digits(bytes))
  }

  function Decode(s: string): Option<seq<Byte>> {
    if Spelled(s) then Undigits(Read(s)) else None
  }

  lemma ReadSpell(ds: seq<Digit>)
    ensures Spelled(Spell(ds)) && Read(Spell(ds)) == ds
  {
  }

  /** Decoding undoes encoding, for every byte string. */
  lemma RoundTrip(bytes: seq<Byte>)
    ensures Decode(Encode(bytes)) == Some(bytes)
  {
    ReadSpell(Digits(bytes));
    DigitsRoundTrip(bytes);
  }

  /** Encodings join when the first is of a whole number of groups. */
  lemma EncodeConcat(a: seq<Byte>, b: seq<Byte>)
    requires |a| % 3 == 0
    ensures Encode(a + b) == Encode(a) + Encode(b)
  {
    DigitsConcat(a, b);
  }

  /** An encoding that ends in padding, with anything but nothing after it, is no encoding. */
  lemma PaddedCannotContinue(a: seq<Byte>, more: string)
    requires |a| % 3 != 0 && more != ""
    ensures Decode(Encode(a) + more).None?
  {
    var s := Encode(a) + more;
    if Spelled(s) {
      ReadSpell(Digits(a));
      assert forall i | 0 <= i < |more| :: more[i] == s[|Encode(a)| + i];
      assert Spelled(more);
      assert Read(s) == Digits(a) + Read(more);
      PaddingEndsIt(a, Read(more));
    }
  }

  lemma KnownDigits()
    ensures Digits([0x66]) == [25, 32, PAD, PAD] && Digits([0x66, 0x6F]) == [25, 38, 60, PAD]
    ensures Digits([0x66, 0x6F, 0x6F]) == [25, 38, 61, 47] && Digits([0xF3, 0xDF, 0xBF]) == [60, 61, 62, 63]
  {
    var a: seq<Byte>, b: seq<Byte> := [0x66, 0x6F, 0x6F], [0xF3, 0xDF, 0xBF];
    assert a[3..] == [] && b[3..] == [];
    assert Digits(a) == Group(a[0], a[1], a[2]) + Digits([]) && Digits(b) == Group(b[0], b[1], b[2]) + Digits([]);
    assert Group(a[0], a[1], a[2]) == [25, 38, 61, 47] && Group(b[0], b[1], b[2]) == [60, 61, 62, 63];
  }

  lemma KnownSpelling()
    ensures Spell([25, 32, PAD, PAD]) == "Zg==" && Spell([25, 38, 60, PAD]) == "Zm8="
    ensures Spell([25, 38, 61, 47]) == "Zm9v" && Spell([60, 61, 62, 63]) == "89+/"
  {
    assert Spell([25, 32, PAD, PAD]) == "Zg==";
    assert Spell([25, 38, 60, PAD]) == "Zm8=";
    assert Spell([25, 38, 61, 47]) == "Zm9v";
    assert Spell([60, 61, 62, 63]) == "89+/";
  }

  /** Test vectors of section 10 of the RFC, for "f", "fo" and "foo", and three bytes that take
      the last four digits of the alphabet. */
  lemma KnownEncodings()
    ensures Encode([0x66]) == "Zg==" && Encode([0x66, 0x6F]) == "Zm8="
    ensures Encode([0x66, 0x6F, 0x6F]) == "Zm9v" && Encode([0xF3, 0xDF, 0xBF]) == "89+/"
  {
    hide Digits, Spell;
    KnownDigits();
    KnownSpelling();
  }
}
