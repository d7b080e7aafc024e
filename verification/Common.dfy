/** Shared result types and the small string helpers several components use. */
module Common {

  datatype Option<+T> = None | Some(value: T)
  {
    function GetOr(fallback: T): T {
      if Some? then value else fallback
    }
  }

  datatype Result<+T, +E> = Ok(value: T) | Err(error: E)

  type Byte = b: int | 0 <= b < 256

  function Min(a: int, b: int): int {
    if a < b then a else b
  }

  /** The elements that pass a test, in order. */
  function Keep<T(==,!new)>(xs: seq<T>, p: T -> bool): (kept: seq<T>)
    ensures forall x :: x in kept <==> x in xs && p(x)
  {
    if xs == [] then [] else
      var front := Keep(xs[..|xs| - 1], p);
      if p(xs[|xs| - 1]) then front + [xs[|xs| - 1]] else front
  }

  /** The elements of one sequence occur in another in the same order. */
  predicate Subsequence<T(==)>(part: seq<T>, whole: seq<T>) {
    part == [] ||
    (whole != [] &&
     (Subsequence(part, whole[..|whole| - 1])
      || (part[|part| - 1] == whole[|whole| - 1] && Subsequence(part[..|part| - 1], whole[..|whole| - 1]))))
  }

  lemma {:induction false} KeepIsSubsequence<T(!new)>(xs: seq<T>, p: T -> bool)
    ensures Subsequence(Keep(xs, p), xs)
  {
    if xs != [] {
      KeepIsSubsequence(xs[..|xs| - 1], p);
      var kept := Keep(xs[..|xs| - 1], p);
      assert (kept + [xs[|xs| - 1]])[..|kept|] == kept;
    }
  }

  /** ASCII case folding; identifiers and key names in the program are ASCII. */
  function LowerChar(c: char): char {
    if 'A' <= c <= 'Z' then (c as int + 32) as char else c
  }

  function Lower(s: string): (r: string)
    ensures |r| == |s|
  {
    seq(|s|, i requires 0 <= i < |s| => LowerChar(s[i]))
  }

  predicate SameLetter(x: char, y: char) {
    x == y || ('A' <= x <= 'Z' && y as int == x as int + 32) || ('A' <= y <= 'Z' && x as int == y as int + 32)
  }

  /** The same name, whatever the case. */
  predicate SameName(a: string, b: string) {
    |a| == |b| && forall i | 0 <= i < |a| :: SameLetter(a[i], b[i])
  }

  lemma LowerIsSameName(a: string, b: string)
    ensures Lower(a) == Lower(b) <==> SameName(a, b)
  {
    if SameName(a, b) {
      assert forall i | 0 <= i < |a| :: Lower(a)[i] == Lower(b)[i];
    } else if Lower(a) == Lower(b) {
      forall i | 0 <= i < |a| ensures SameLetter(a[i], b[i]) {
        assert Lower(a)[i] == Lower(b)[i];
      }
    }
  }

  predicate IsSpace(c: char) {
    c == ' ' || '\t' <= c <= '\r' || '\U{1c}' <= c <= '\U{1f}'
  }

  /** Leading and trailing ASCII whitespace removed. */
  function Strip(s: string): string
    decreases |s|
  {
    if s == "" then s
    else if IsSpace(s[0]) then Strip(s[1..])
    else if IsSpace(s[|s| - 1]) then Strip(s[..|s| - 1])
    else s
  }

  predicate AllSpace(s: string) {
    forall i | 0 <= i < |s| :: IsSpace(s[i])
  }

  /** Space around a name is stripped, whatever and however much it is. */
  lemma {:induction false} StripIgnoresSpace(front: string, s: string, back: string)
    requires AllSpace(front) && AllSpace(back)
    ensures Strip(front + s + back) == Strip(s)
    decreases |front| + |s| + |back|
  {
    var all := front + s + back;
    if front != "" {
      assert all[1..] == front[1..] + s + back;
      StripIgnoresSpace(front[1..], s, back);
    } else if s != "" && IsSpace(s[0]) {
      assert all[1..] == front + s[1..] + back;
      StripIgnoresSpace(front, s[1..], back);
    } else if back != "" {
      assert all[..|all| - 1] == front + s + back[..|back| - 1];
      assert s == "" ==> all[1..] == front + s + back[1..];
      StripIgnoresSpace(front, s, back[..|back| - 1]);
      if s == "" {
        StripIgnoresSpace(front, s, back[1..]);
      }
    } else {
      assert all == s;
    }
  }

  lemma {:induction false} StripKeepsSameName(a: string, b: string)
    requires SameName(a, b)
    ensures SameName(Strip(a), Strip(b))
    decreases |a|
  {
    if a != "" {
      StripKeepsSameName(a[1..], b[1..]);
      StripKeepsSameName(a[..|a| - 1], b[..|b| - 1]);
    }
  }
}
