/** UTF-8 as section 3 of RFC 3629 defines it, and cutting a text to a byte budget. */
module Utf8 {
  import opened Common

  /** A Unicode scalar value: any code point but the surrogates. */
  type Scalar = c: int | 0 <= c < 0xD800 || 0xE000 <= c <= 0x10FFFF

  /** The encoding of one scalar value, one to four bytes. */
  function EncodeOne(c: Scalar): (bytes: seq<Byte>)
    ensures 1 <= |bytes| <= 4
  {
    if c < 0x80 then [c]
    else if c < 0x800 then [0xC0 + c / 64, 0x80 + c % 64]
    else if c < 0x10000 then [0xE0 + c / 4096, 0x80 + c / 64 % 64, 0x80 + c % 64]
    else [0xF0 + c / 262144, 0x80 + c / 4096 % 64, 0x80 + c / 64 % 64, 0x80 + c % 64]
  }

  function Encode(text: seq<Scalar>): seq<Byte> {
    if text == [] then [] else EncodeOne(text[0]) + Encode(text[1..])
  }

  predicate Continues(b: Byte) {
    0x80 <= b < 0xC0
  }

  /** How many bytes a sequence that starts with b must have; 0 when none starts so. */
  function LengthFrom(b: Byte): nat {
    if b < 0x80 then 1
    else if 0xC2 <= b < 0xE0 then 2
    else if 0xE0 <= b < 0xF0 then 3
    else if 0xF0 <= b < 0xF5 then 4
    else 0
  }

  /** The second byte's range excludes overlong forms, surrogates and values too large. */
  predicate SecondFits(lead: Byte, b: Byte) {
    && Continues(b)
    && (lead == 0xE0 ==> b >= 0xA0) && (lead == 0xED ==> b < 0xA0)
    && (lead == 0xF0 ==> b >= 0x90) && (lead == 0xF4 ==> b < 0x90)
  }

  /** Values of two-, three- and four-byte sequences. */
  function Two(b: int, c: int): int { (b - 0xC0) * 64 + (c - 0x80) }
  function Three(b: int, c: int, d: int): int { (b - 0xE0) * 4096 + (c - 0x80) * 64 + (d - 0x80) }
  function Four(b: int, c: int, d: int, e: int): int {
    (b - 0xF0) * 262144 + (c - 0x80) * 4096 + (d - 0x80) * 64 + (e - 0x80)
  }

  /** The well-formed sequence at the front, if there is one: its value and its length. */
  function Front(bytes: seq<Byte>): (r: Option<(Scalar, nat)>)
    ensures r.Some? ==> 1 <= r.value.1 <= |bytes|
  {
    if bytes == [] then None else
      var b, n := bytes[0], LengthFrom(bytes[0]);
      if n == 0 || n > |bytes| then None
      else if n == 1 then Some((b, 1))
      else if !SecondFits(b, bytes[1]) || !(forall i | 2 <= i < n :: Continues(bytes[i])) then None
      else if n == 2 then Some((Two(b, bytes[1]), 2))
      else if n == 3 then Some((Three(b, bytes[1], bytes[2]), 3))
      else Some((Four(b, bytes[1], bytes[2], bytes[3]), 4))
  }

  /** Decode, dropping whatever is not part of a well-formed sequence. */
  function DecodeIgnoring(bytes: seq<Byte>): seq<Scalar>
    decreases |bytes|
  {
    if bytes == [] then [] else
      match Front(bytes)
      case Some((c, n)) => [c] + DecodeIgnoring(bytes[n..])
      case None => DecodeIgnoring(bytes[1..])
  }

  lemma ThreeBytes(c: int, h: int, m: int, l: int)
    requires 0x800 <= c < 0x10000 && !(0xD800 <= c < 0xE000)
    requires h == c / 4096 && m == c / 64 % 64 && l == c % 64
    ensures c == h * 4096 + m * 64 + l && 0 <= h < 16
    ensures (h == 0 ==> m >= 0x20) && (h == 0xD ==> m < 0x20)
  {
    assert c / 64 == h * 64 + m;
  }

  lemma FourBytes(c: int, t: int, h: int, m: int, l: int)
    requires 0x10000 <= c <= 0x10FFFF
    requires t == c / 262144 && h == c / 4096 % 64 && m == c / 64 % 64 && l == c % 64
    ensures c == t * 262144 + h * 4096 + m * 64 + l && 0 <= t < 5
    ensures (t == 0 ==> h >= 0x10) && (t == 4 ==> h < 0x10)
  {
    assert c / 4096 == t * 64 + h;
    assert c / 64 == c / 4096 * 64 + m;
  }

  lemma FrontOfThree(b: Byte, c: Byte, d: Byte, rest: seq<Byte>)
    requires 0xE0 <= b < 0xF0 && SecondFits(b, c) && Continues(d)
    ensures Three(b, c, d) >= 0x800 && !(0xD800 <= Three(b, c, d) < 0xE000)
    ensures Front([b, c, d] + rest) == Some((Three(b, c, d), 3))
  {}

  lemma FrontOfFour(b: Byte, c: Byte, d: Byte, e: Byte, rest: seq<Byte>)
    requires 0xF0 <= b < 0xF5 && SecondFits(b, c) && Continues(d) && Continues(e)
    ensures 0x10000 <= Four(b, c, d, e) <= 0x10FFFF
    ensures Front([b, c, d, e] + rest) == Some((Four(b, c, d, e), 4))
  {}

  lemma FrontOfShort(c: Scalar, rest: seq<Byte>)
    requires c < 0x800
    ensures Front(EncodeOne(c) + rest) == Some((c, |EncodeOne(c)|))
  {}

  lemma FrontOfMiddle(c: Scalar, rest: seq<Byte>)
    requires 0x800 <= c < 0x10000
    ensures Front(EncodeOne(c) + rest) == Some((c, |EncodeOne(c)|))
  {
    var h, m, l := c / 4096, c / 64 % 64, c % 64;
    ThreeBytes(c, h, m, l);
    FrontOfThree(0xE0 + h, 0x80 + m, 0x80 + l, rest);
  }

  lemma FrontOfHigh(c: Scalar, rest: seq<Byte>)
    requires c >= 0x10000
    ensures Front(EncodeOne(c) + rest) == Some((c, |EncodeOne(c)|))
  {
    var t, h, m, l := c / 262144, c / 4096 % 64, c / 64 % 64, c % 64;
    FourBytes(c, t, h, m, l);
    FrontOfFour(0xF0 + t, 0x80 + h, 0x80 + m, 0x80 + l, rest);
  }

  lemma FrontOfEncoding(c: Scalar, rest: seq<Byte>)
    ensures Front(EncodeOne(c) + rest) == Some((c, |EncodeOne(c)|))
  {
    hide Front, EncodeOne;
    if c < 0x800 {
      FrontOfShort(c, rest);
    } else if c < 0x10000 {
      FrontOfMiddle(c, rest);
    } else {
      FrontOfHigh(c, rest);
    }
  }

  lemma Split(v: int, high: int, low: int)
    requires v == high * 64 + low && 0 <= low < 64
    ensures v / 64 == high && v % 64 == low
  {}

  lemma ThreeEncodes(b: Byte, c: Byte, d: Byte)
    requires 0xE0 <= b < 0xF0 && SecondFits(b, c) && Continues(d)
    ensures EncodeOne(Three(b, c, d)) == [b, c, d]
  {
    var h: int, m: int, l: int := b - 0xE0, c - 0x80, d - 0x80;
    Split(Three(b, c, d), h * 64 + m, l);
    Split(h * 64 + m, h, m);
  }

  lemma FourEncodes(b: Byte, c: Byte, d: Byte, e: Byte)
    requires 0xF0 <= b < 0xF5 && SecondFits(b, c) && Continues(d) && Continues(e)
    ensures EncodeOne(Four(b, c, d, e)) == [b, c, d, e]
  {
    var t: int, h: int, m: int, l: int := b - 0xF0, c - 0x80, d - 0x80, e - 0x80;
    Split(Four(b, c, d, e), (t * 64 + h) * 64 + m, l);
    Split((t * 64 + h) * 64 + m, t * 64 + h, m);
    Split(t * 64 + h, t, h);
  }

  /** Conversely, only an encoding is accepted: no overlong form, no surrogate. */
  lemma FrontIsEncoding(bytes: seq<Byte>)
    requires Front(bytes).Some?
    ensures var (c, n) := Front(bytes).value; bytes[..n] == EncodeOne(c)
  {
    var (c, n) := Front(bytes).value;
    if n == 3 {
      ThreeEncodes(bytes[0], bytes[1], bytes[2]);
    } else if n == 4 {
      FourEncodes(bytes[0], bytes[1], bytes[2], bytes[3]);
    }
  }

  lemma {:induction false} RoundTrip(text: seq<Scalar>)
    ensures DecodeIgnoring(Encode(text)) == text
  {
    if text != [] {
      var head, tail := EncodeOne(text[0]), Encode(text[1..]);
      FrontOfEncoding(text[0], tail);
      assert (head + tail)[|head|..] == tail;
      RoundTrip(text[1..]);
    }
  }

  /** A sequence cut short yields nothing: neither its front nor its stray tail decodes. */
  lemma CutEncoding(c: Scalar, k: nat)
    requires k < |EncodeOne(c)|
    ensures DecodeIgnoring(EncodeOne(c)[..k]) == []
  {
    var cut := EncodeOne(c)[..k];
    if k > 0 {
      assert LengthFrom(cut[0]) == |EncodeOne(c)|;
      assert Front(cut).None?;
      StrayTail(cut[1..]);
    }
  }

  lemma {:induction false} StrayTail(bytes: seq<Byte>)
    requires forall i | 0 <= i < |bytes| :: Continues(bytes[i])
    ensures DecodeIgnoring(bytes) == []
    decreases |bytes|
  {
    if bytes != [] {
      StrayTail(bytes[1..]);
    }
  }

  /** Examples of section 7 of the RFC, of one, two, three and four bytes. */
  lemma KnownEncodings()
    ensures EncodeOne(0x41) == [0x41] && EncodeOne(0x391) == [0xCE, 0x91]
    ensures EncodeOne(0x2262) == [0xE2, 0x89, 0xA2] && EncodeOne(0x65E5) == [0xE6, 0x97, 0xA5]
    ensures EncodeOne(0x233B4) == [0xF0, 0xA3, 0x8E, 0xB4]
  {}

  // ---- truncation --------------------------------------------------------

  function Truncate(value: seq<Scalar>, limit: nat): (seq<Scalar>, bool) {
    var raw := Encode(value);
    if |raw| <= limit then (value, false) else (DecodeIgnoring(raw[..limit]), true)
  }

  /** Truncation keeps the longest prefix, in whole characters, whose encoding fits the
      limit, and flags the result exactly when it dropped something. */
  lemma TruncateKeepsLongestFit(value: seq<Scalar>, limit: nat) returns (n: nat)
    ensures n <= |value| && Truncate(value, limit) == (value[..n], n < |value|)
    ensures |Encode(value[..n])| <= limit
    ensures forall m | n < m <= |value| :: |Encode(value[..m])| > limit
  {
    if |Encode(value)| <= limit {
      n := |value|;
      assert value[..n] == value;
    } else {
      n := CutText(value, limit);
    }
  }

  /** The same for a text that does not fit, character by character. */
  lemma {:induction false} CutText(value: seq<Scalar>, limit: nat) returns (n: nat)
    requires |Encode(value)| > limit
    ensures n < |value| && DecodeIgnoring(Encode(value)[..limit]) == value[..n]
    ensures |Encode(value[..n])| <= limit
    ensures forall m | n < m <= |value| :: |Encode(value[..m])| > limit
  {
    hide EncodeOne, Front;
    var head, tail := EncodeOne(value[0]), value[1..];
    if |head| > limit {
      n := 0;
      assert Encode(value)[..limit] == head[..limit];
      CutEncoding(value[0], limit);
      forall m | 0 < m <= |value| ensures |Encode(value[..m])| > limit {
        assert value[..m][0] == value[0];
      }
    } else {
      var k := CutText(tail, limit - |head|);
      n := k + 1;
      var cut := Encode(tail)[..limit - |head|];
      assert Encode(value)[..limit] == head + cut;
      FrontOfEncoding(value[0], cut);
      assert (head + cut)[|head|..] == cut;
      assert value[..n] == [value[0]] + tail[..k];
      forall m | n < m <= |value| ensures |Encode(value[..m])| > limit {
        assert value[..m][1..] == tail[..m - 1];
      }
      assert value[..n][1..] == tail[..k];
    }
  }
}
