/** Scan codes reach the guest in windows of 64, and an array too long for one command
    line is first cut into slices of 1600, one process each. */
module Chunking {

  const WINDOW: nat := 64
  const PER_SCRIPT: nat := 1600

  /** Consecutive windows of n elements, the last one possibly shorter. */
  function Windows<T>(xs: seq<T>, n: nat): seq<seq<T>>
    requires n > 0
    decreases |xs|
  {
    if xs == [] then []
    else if |xs| <= n then [xs]
    else [xs[..n]] + Windows(xs[n..], n)
  }

  function Flatten<T>(xss: seq<seq<T>>): seq<T> {
    if xss == [] then [] else Flatten(xss[..|xss| - 1]) + xss[|xss| - 1]
  }

  /** The windows of the slices of m elements, slice after slice. */
  function SliceWindows<T>(xs: seq<T>, m: nat, n: nat): seq<seq<T>>
    requires m > 0 && n > 0
    decreases |xs|
  {
    if |xs| <= m then Windows(xs, n) else Windows(xs[..m], n) + SliceWindows(xs[m..], m, n)
  }

  lemma {:induction false} WindowsCount<T>(xs: seq<T>, n: nat)
    requires n > 0
    ensures |Windows(xs, n)| * n >= |xs|
    ensures xs != [] ==> (|Windows(xs, n)| - 1) * n < |xs|
    decreases |xs|
  {
    if |xs| > n {
      WindowsCount(xs[n..], n);
      var c := |Windows(xs[n..], n)|;
      assert (c + 1) * n == c * n + n && (c - 1) * n == c * n - n;
    } else {
      assert 1 * n == n;
    }
  }

  /** The i-th window is the slice from i*n, n long unless the array ends first. */
  lemma {:induction false} WindowAt<T>(xs: seq<T>, n: nat, i: nat)
    requires n > 0 && i < |Windows(xs, n)|
    ensures i * n < |xs|
    ensures Windows(xs, n)[i] == if (i + 1) * n <= |xs| then xs[i * n..(i + 1) * n] else xs[i * n..]
    decreases |xs|
  {
    hide Windows;
    WindowsHead(xs, n);
    if i > 0 {
      var tail := xs[n..];
      WindowAt(tail, n, i - 1);
      WindowBounds(i, n);
      var lo := (i - 1) * n;
      assert tail[lo..] == xs[i * n..];
      assert (i + 1) * n <= |xs| ==> tail[lo..lo + n] == xs[i * n..(i + 1) * n];
      assert Windows(xs, n)[i] == Windows(tail, n)[i - 1];
    } else {
      assert 0 * n == 0 && 1 * n == n;
    }
  }

  lemma WindowBounds(i: nat, n: nat)
    requires i > 0
    ensures (i - 1) * n + n == i * n && (i + 1) * n == i * n + n
  {}

  lemma OneLessWindow(p: nat, n: nat)
    requires n > 0 && p >= n
    ensures (p - n) % n == p % n
  {
    var q, r, q', r' := p / n, p % n, (p - n) / n, (p - n) % n;
    var d := q' - (q - 1);
    assert n * d == n * q' - n * q + n == r - r';
    assert (d > 0 ==> n * d >= n) && (d < 0 ==> n * d + n <= 0);
  }

  /** A cut at a whole number of windows does not disturb them. */
  lemma {:induction false} WindowsSplit<T>(xs: seq<T>, p: nat, n: nat)
    requires n > 0 && p <= |xs| && p % n == 0
    ensures Windows(xs, n) == Windows(xs[..p], n) + Windows(xs[p..], n)
    decreases p
  {
    hide Windows;
    if p == 0 {
      assert xs[0..] == xs && xs[..0] == [];
      WindowsHead(xs[..0], n);
    } else {
      NotBelow(p, n);
      var front, tail := xs[..p], xs[n..];
      WindowsHead(xs, n);
      WindowsHead(front, n);
      assert front[..n] == xs[..n] && front[n..] == tail[..p - n] && xs[p..] == tail[p - n..];
      if p < |xs| {
        OneLessWindow(p, n);
        WindowsSplit(tail, p - n, n);
        if p == n {
          WindowsHead(tail[..0], n);
          assert tail[..0] == [] && front == xs[..n];
        }
      } else {
        assert front == xs && xs[p..] == [];
        WindowsHead(xs[p..], n);
      }
    }
  }

  lemma NotBelow(p: nat, n: nat)
    requires n > 0 && p > 0 && p % n == 0
    ensures p >= n
  {}

  /** The windows, one head at a time. */
  lemma WindowsHead<T>(xs: seq<T>, n: nat)
    requires n > 0
    ensures xs == [] ==> Windows(xs, n) == []
    ensures 0 < |xs| <= n ==> Windows(xs, n) == [xs]
    ensures |xs| > n ==> Windows(xs, n) == [xs[..n]] + Windows(xs[n..], n)
  {
  }

  /** Cutting twice gives the windows of cutting once exactly when every slice but the
      last is a whole number of windows. */
  lemma {:induction false} TwoLevelsAgreeIff<T>(xs: seq<T>, m: nat, n: nat)
    requires m > 0 && n > 0
    ensures SliceWindows(xs, m, n) == Windows(xs, n) <==> m % n == 0 || |xs| <= m
    decreases |xs|
  {
    if |xs| > m {
      if m % n == 0 {
        TwoLevelsAgreeIff(xs[m..], m, n);
        WindowsSplit(xs, m, n);
      } else {
        UnevenCutShows(xs, m, n);
      }
    }
  }

  /** The first window that a cut at m makes short is long in the array as a whole. */
  lemma {:induction false} UnevenCutShows<T>(xs: seq<T>, m: nat, n: nat)
    requires n > 0 && m % n != 0 && |xs| > m
    ensures !(Windows(xs[..m], n) <= Windows(xs, n))
    decreases m
  {
    hide Windows;
    WindowsHead(xs, n);
    WindowsHead(xs[..m], n);
    if m < n {
      assert Windows(xs[..m], n)[0] != Windows(xs, n)[0] by {
        FirstWindow(xs, n);
      }
    } else {
      OneLessWindow(m, n);
      UnevenCutShows(xs[n..], m - n, n);
      NotWhole(m, n);
      CutOfTail(xs, m, n);
      SameHead(xs[..n], Windows(xs[n..][..m - n], n), Windows(xs[n..], n));
    }
  }

  lemma NotWhole(m: nat, n: nat)
    requires n > 0 && m % n != 0
    ensures m != n
  {}

  lemma CutOfTail<T>(xs: seq<T>, m: nat, n: nat)
    requires n <= m <= |xs|
    ensures xs[n..][..m - n] == xs[..m][n..] && xs[..m][..n] == xs[..n]
  {}

  lemma SameHead<T>(head: T, inner: seq<T>, outer: seq<T>)
    ensures [head] + inner <= [head] + outer ==> inner <= outer
  {
    if [head] + inner <= [head] + outer {
      assert ([head] + inner)[1..] == inner && ([head] + outer)[1..] == outer;
    }
  }

  lemma FirstWindow<T>(xs: seq<T>, n: nat)
    requires n > 0 && xs != []
    ensures Windows(xs, n) != [] && |Windows(xs, n)[0]| == if |xs| <= n then |xs| else n
  {}

  // ---- delivery ----------------------------------------------------------

  /** What the sender reports: everything went, or which leg failed and how many codes
      the legs before it had delivered. */
  datatype Report = Sent(scancodes: nat, chunks: nat) | LegFailed(leg: nat, legs: nat, sent: nat)

  function LegCount(codes: seq<nat>, size: nat): nat
    requires size > 0
  {
    (|codes| + size - 1) / size
  }

  /** The number of legs announced is the number there would be. */
  lemma LegsAreCounted(codes: seq<nat>, size: nat)
    requires size > 0
    ensures LegCount(codes, size) == |Windows(codes, size)|
  {
    hide Windows;
    WindowsCount(codes, size);
    var n, c := |codes|, |Windows(codes, size)|;
    if n == 0 {
      WindowsHead(codes, size);
      assert (size - 1) / size == 0;
    } else {
      var low := n + size - 1 - c * size;
      assert (c - 1) * size == c * size - size;
      QuotientIs(n + size - 1, size, c, low);
    }
  }

  lemma QuotientIs(v: int, d: int, q: int, r: int)
    requires d > 0 && v == q * d + r && 0 <= r < d
    ensures v / d == q
  {
    var gap := v / d - q;
    assert (v / d) * d + v % d == v;
    assert (v / d) * d == q * d + gap * d;
    assert (gap >= 1 ==> gap * d >= d) && (gap <= -1 ==> gap * d <= -d);
  }

  /** The leg that starts at a multiple of the size, before the end, is one of them. */
  lemma LegIsOne(codes: seq<nat>, size: nat, leg: nat)
    requires size > 0 && leg >= 1 && (leg - 1) * size < |codes|
    ensures leg <= |Windows(codes, size)|
  {
    hide Windows;
    WindowsCount(codes, size);
    var c := |Windows(codes, size)|;
    if leg - 1 >= c {
      TimesGrows(c, leg - 1, size);
    }
  }

  lemma TimesGrows(a: nat, b: nat, n: nat)
    requires a <= b
    ensures a * n <= b * n
  {
    assert b * n == a * n + (b - a) * n;
  }

  /** A delivery is honest about what reached the guest: the windows delivered are the
      first ones of the whole array, each accepted; success means all of them; when a leg
      fails, `sent` counts the codes of the legs before it, all delivered, and the leg
      itself delivered some first ones of its own windows. They are fewer than all of them
      exactly when a window was refused; else the leg failed only afterwards, its answer
      late or unreadable. */
  predicate Honest(codes: seq<nat>, size: nat, accepts: nat -> bool, confirms: nat -> bool,
                   windows: seq<seq<nat>>, r: Report)
    requires size > 0
  {
    && windows <= Windows(codes, WINDOW)
    && (forall k | 0 <= k < |windows| :: accepts(k))
    && match r
       case Sent(scancodes, chunks) =>
         windows == Windows(codes, WINDOW) && chunks == |windows| && scancodes == |codes|
       case LegFailed(leg, legs, sent) =>
         && 1 <= leg <= legs && legs == |Windows(codes, size)| && sent == (leg - 1) * size < |codes|
         && LegWindows(codes, size, sent, accepts, !confirms(leg), windows)
  }

  predicate LegWindows(codes: seq<nat>, size: nat, sent: nat, accepts: nat -> bool, unconfirmed: bool,
                       windows: seq<seq<nat>>)
    requires sent <= |codes|
  {
    var before, own := Windows(codes[..sent], WINDOW), Windows(Leg(codes, sent, size), WINDOW);
    && before <= windows <= before + own
    && if |windows| < |before + own| then !accepts(|windows|) else unconfirmed
  }

  function Leg(codes: seq<nat>, at: nat, size: nat): seq<nat>
    requires at <= |codes|
  {
    if at + size <= |codes| then codes[at..at + size] else codes[at..]
  }

  /** One script: a flat array and a loop that slices its own windows out of it. The k-th
      window offered to the guest over the whole call is taken or refused by `accepts`. */
  method RunScript(slice: seq<nat>, base: nat, accepts: nat -> bool) returns (ok: bool, windows: seq<seq<nat>>)
    ensures windows <= Windows(slice, WINDOW)
    ensures ok <==> windows == Windows(slice, WINDOW)
    ensures forall k | base <= k < base + |windows| :: accepts(k)
    ensures !ok ==> !accepts(base + |windows|)
  {
    var n := (|slice| + WINDOW - 1) / WINDOW;
    windows := [];
    WindowsCount(slice, WINDOW);
    for i := 0 to n
      invariant |windows| == i && n == |Windows(slice, WINDOW)| && windows <= Windows(slice, WINDOW)
      invariant forall k | base <= k < base + i :: accepts(k)
    {
      WindowAt(slice, WINDOW, i);
      var lo := i * WINDOW;
      var hi := if lo + 63 < |slice| - 1 then lo + 63 else |slice| - 1;
      if !accepts(base + i) {
        return false, windows;
      }
      assert slice[lo..hi + 1] == Windows(slice, WINDOW)[i];
      windows := windows + [slice[lo..hi + 1]];
    }
    ok := true;
  }

  /** Delivery by scripts: one process per slice, in order, until one fails. */
  method SendByScripts(codes: seq<nat>, accepts: nat -> bool, confirms: nat -> bool)
    returns (r: Report, windows: seq<seq<nat>>)
    ensures Honest(codes, PER_SCRIPT, accepts, confirms, windows, r)
  {
    hide Windows;
    var sent, leg := 0, 0;
    windows := [];
    var delivered := 0;
    NoWindows(codes);
    while sent < |codes|
      invariant sent <= |codes| && (sent == |codes| || sent == leg * PER_SCRIPT)
      invariant windows == Windows(codes[..sent], WINDOW) && delivered == |windows|
      invariant forall k | 0 <= k < |windows| :: accepts(k)
    {
      var slice := Leg(codes, sent, PER_SCRIPT);
      SliceJoins(codes, sent, PER_SCRIPT);
      var ok, some := RunScript(slice, delivered, accepts);
      forall k | 0 <= k < |windows| + |some| ensures accepts(k) {
      }
      var all := windows + some;
      leg := leg + 1;
      if !ok || !confirms(leg) {
        PrefixOfLeg(windows, some, Windows(slice, WINDOW));
        LegsAreCounted(codes, PER_SCRIPT);
        LegIsOne(codes, PER_SCRIPT, leg);
        return LegFailed(leg, LegCount(codes, PER_SCRIPT), sent), all;
      }
      windows := all;
      delivered := delivered + |some|;
      sent := sent + |slice|;
    }
    assert codes[..sent] == codes;
    r := Sent(sent, delivered);
  }

  /** Delivery in process: each window is a leg of its own. */
  method SendInProcess(codes: seq<nat>, accepts: nat -> bool, confirms: nat -> bool)
    returns (r: Report, windows: seq<seq<nat>>)
    ensures Honest(codes, WINDOW, accepts, confirms, windows, r)
  {
    hide Windows;
    var sent, leg := 0, 0;
    windows := [];
    NoWindows(codes);
    while sent < |codes|
      invariant sent <= |codes| && (sent == |codes| || sent == leg * WINDOW)
      invariant windows == Windows(codes[..sent], WINDOW) && leg == |windows|
      invariant forall k | 0 <= k < |windows| :: accepts(k)
    {
      var chunk := Leg(codes, sent, WINDOW);
      SliceJoins(codes, sent, WINDOW);
      OneWindow(chunk);
      leg := leg + 1;
      if !accepts(leg - 1) || !confirms(leg) {
        var some: seq<seq<nat>> := if accepts(leg - 1) then [chunk] else [];
        PrefixOfLeg(windows, some, [chunk]);
        LegsAreCounted(codes, WINDOW);
        LegIsOne(codes, WINDOW, leg);
        return LegFailed(leg, LegCount(codes, WINDOW), sent), windows + some;
      }
      windows := windows + [chunk];
      sent := sent + |chunk|;
    }
    assert codes[..sent] == codes;
    r := Sent(sent, leg);
  }

  lemma NoWindows(codes: seq<nat>)
    ensures Windows(codes[..0], WINDOW) == []
  {}

  lemma OneWindow(chunk: seq<nat>)
    requires 0 < |chunk| <= WINDOW
    ensures Windows(chunk, WINDOW) == [chunk]
  {}

  lemma PrefixOfLeg<T>(before: seq<T>, some: seq<T>, own: seq<T>)
    requires some <= own
    ensures before <= before + some <= before + own
  {}

  /** A leg that starts at a whole number of windows adds its own windows to those before. */
  lemma SliceJoins(codes: seq<nat>, at: nat, size: nat)
    requires at < |codes| && at % WINDOW == 0 && size > 0 && size % WINDOW == 0
    ensures var slice := Leg(codes, at, size);
      && slice != []
      && Windows(codes[..at + |slice|], WINDOW) == Windows(codes[..at], WINDOW) + Windows(slice, WINDOW)
      && Windows(codes[..at], WINDOW) + Windows(slice, WINDOW) <= Windows(codes, WINDOW)
  {
    hide Windows;
    var slice := Leg(codes, at, size);
    var upTo := codes[..at + |slice|];
    assert upTo[..at] == codes[..at] && upTo[at..] == slice;
    WindowsSplit(upTo, at, WINDOW);
    assert Windows(upTo, WINDOW) <= Windows(codes, WINDOW) by {
      if at + size < |codes| {
        assert |slice| == size && (at + size) % WINDOW == 0;
        WindowsSplit(codes, at + size, WINDOW);
      } else {
        assert upTo == codes;
      }
    }
  }
}
