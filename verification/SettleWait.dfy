/** The settle wait: poll console frames until one has stayed the same for a quiet
    window. The program has the loop four times: in process and folded into a script, and
    both ways again for the wait steps of a sequence. The two script loops are alike. */
module SettleWait {
  import opened Common

  /** What the world answers during one trip round the loop: the clock at the top, the
      captured frame's digest, the clock when it was read and the clock at the bottom.
      Digests are opaque; "" stands for a capture that raised. */
  datatype Sample = Sample(top: real, hash: string, now: real, tail: real)

  /** One wait: its baseline ("" for none), the length of the quiet window in milliseconds,
      the clock value at which it is over, and its poll cap. */
  datatype Wait = Wait(baseline: string, quiet: real, deadline: real, maxPolls: nat)
  {
    predicate Valid() {
      quiet > 0.0 && maxPolls >= 1
    }
  }

  /** The wait for a caller's whole milliseconds: its poll cap is the timeout divided by the
      interval and rounded up. */
  function WaitFor(baseline: string, stableMs: int, timeoutMs: int, intervalMs: int, started: real): (w: Wait)
    requires stableMs >= 1 && timeoutMs >= 1 && intervalMs >= 1
    ensures w.Valid() && (w.maxPolls - 1) * intervalMs < timeoutMs <= w.maxPolls * intervalMs
    ensures w.quiet == stableMs as real && w.deadline - started == timeoutMs as real
  {
    var q := timeoutMs / intervalMs;
    assert q * intervalMs + timeoutMs % intervalMs == timeoutMs;
    assert (q + 1) * intervalMs == q * intervalMs + intervalMs && (q - 1) * intervalMs == q * intervalMs - intervalMs;
    var polls := if timeoutMs % intervalMs == 0 then q else q + 1;
    assert q >= 0 && (q == 0 ==> timeoutMs % intervalMs != 0);
    Wait(baseline, stableMs as real, started + timeoutMs as real, polls)
  }

  /** Why a wait ended; Broke when a capture raised out of it. */
  datatype Stop = Stable | Unchanged | DeadlineReached | Broke

  datatype Outcome = Outcome(stop: Stop, polls: nat, lastHash: string)

  predicate Sampled(w: Wait, trace: seq<Sample>) {
    w.Valid() && |trace| == w.maxPolls
  }

  // ---- what the wait promises --------------------------------------------

  /** Poll i moved: it differs from the frame before it, or, being the first, from the
      baseline. Without a baseline the first frame counts as a move. */
  predicate Moved(w: Wait, trace: seq<Sample>, i: nat)
    requires i < |trace|
  {
    trace[i].hash != if i == 0 then w.baseline else trace[i - 1].hash
  }

  /** The run of equal frames that poll i belongs to began at poll c, with a move. */
  predicate RunBegan(w: Wait, trace: seq<Sample>, c: nat, i: nat)
    requires i < |trace|
  {
    c <= i && Moved(w, trace, c) && forall j | c < j <= i :: !Moved(w, trace, j)
  }

  predicate Lasted(w: Wait, since: real, now: real) {
    now - since >= w.quiet
  }

  /** The current run of equal frames has lasted the quiet window. */
  predicate Settled(w: Wait, trace: seq<Sample>, i: nat)
    requires i < |trace|
  {
    exists c: nat | c <= i :: RunBegan(w, trace, c, i) && Lasted(w, trace[c].now, trace[i].now)
  }

  /** Poll i happened, saw a frame, and neither settled nor exhausted the wait. */
  predicate GoesOn(w: Wait, trace: seq<Sample>, i: nat)
    requires Sampled(w, trace) && i < |trace|
  {
    && trace[i].top < w.deadline && trace[i].hash != "" && !Settled(w, trace, i)
    && i + 1 < |trace| && trace[i].tail < w.deadline
  }

  /** The wait reached the check before its (n+1)-st poll, and time was up there. */
  predicate OutBeforePoll(w: Wait, trace: seq<Sample>, n: nat)
    requires Sampled(w, trace)
  {
    n < |trace| && AllGoOn(w, trace, n) && trace[n].top >= w.deadline
  }

  predicate AllGoOn(w: Wait, trace: seq<Sample>, n: nat)
    requires Sampled(w, trace) && n <= |trace|
  {
    forall j | 0 <= j < n :: GoesOn(w, trace, j)
  }

  /** The wait made its n-th poll, and it saw a frame. */
  predicate Polled(w: Wait, trace: seq<Sample>, n: nat)
    requires Sampled(w, trace)
  {
    0 < n <= |trace| && AllGoOn(w, trace, n - 1) && trace[n - 1].top < w.deadline && trace[n - 1].hash != ""
  }

  /** The capture of the poll after the n-th raised. */
  predicate BrokeAfter(w: Wait, trace: seq<Sample>, n: nat)
    requires Sampled(w, trace)
  {
    n < |trace| && AllGoOn(w, trace, n) && trace[n].top < w.deadline && trace[n].hash == ""
  }

  /** Its n-th poll left it unsettled, with no poll or no time left. */
  predicate OutAfterPoll(w: Wait, trace: seq<Sample>, n: nat)
    requires Sampled(w, trace)
  {
    Polled(w, trace, n) && !Settled(w, trace, n - 1) && (n == |trace| || trace[n - 1].tail >= w.deadline)
  }

  /** Frames were seen, a baseline was given, and every frame equalled it. */
  predicate NothingHappened(w: Wait, trace: seq<Sample>, n: nat)
    requires n <= |trace|
  {
    w.baseline != "" && n > 0 && forall j | 0 <= j < n :: trace[j].hash == w.baseline
  }

  /** The wait's promise: stop at the first settled poll, else when time or polls run
      out, and then say whether anything moved at all. A capture that raises ends it. */
  predicate Meets(w: Wait, trace: seq<Sample>, o: Outcome)
    requires Sampled(w, trace)
  {
    && o.polls <= |trace|
    && o.lastHash == (if o.polls == 0 then "" else trace[o.polls - 1].hash)
    && if o.stop.Stable? then
         Polled(w, trace, o.polls) && Settled(w, trace, o.polls - 1)
       else if o.stop.Broke? then
         BrokeAfter(w, trace, o.polls)
       else
         && (OutBeforePoll(w, trace, o.polls) || OutAfterPoll(w, trace, o.polls))
         && (o.stop.Unchanged? <==> NothingHappened(w, trace, o.polls))
  }

  // ---- facts about runs of equal frames ----------------------------------

  lemma RunDecidesSettled(w: Wait, trace: seq<Sample>, c: nat, i: nat)
    requires i < |trace| && RunBegan(w, trace, c, i)
    ensures Settled(w, trace, i) <==> Lasted(w, trace[c].now, trace[i].now)
  {
  }

  /** Nothing moved among the first n polls exactly when all of them equal the baseline. */
  lemma {:induction false} StillIff(w: Wait, trace: seq<Sample>, n: nat)
    requires n <= |trace|
    ensures (forall j | 0 <= j < n :: !Moved(w, trace, j)) <==> (forall j | 0 <= j < n :: trace[j].hash == w.baseline)
  {
    if n > 0 {
      StillIff(w, trace, n - 1);
      var before := if n == 1 then w.baseline else trace[n - 2].hash;
      assert Moved(w, trace, n - 1) <==> trace[n - 1].hash != before;
      assert (forall j | 0 <= j < n - 1 :: trace[j].hash == w.baseline) ==> before == w.baseline;
    }
  }

  // ---- the promise decides the outcome -----------------------------------

  /** The wait ends at its n-th poll, at the check after it or at the capture after it. */
  predicate Ends(w: Wait, trace: seq<Sample>, n: nat)
    requires Sampled(w, trace)
  {
    || OutBeforePoll(w, trace, n) || BrokeAfter(w, trace, n)
    || (Polled(w, trace, n) && !GoesOn(w, trace, n - 1))
  }

  /** A wait that has ended makes no later poll and no later check. */
  lemma EndsOnce(w: Wait, trace: seq<Sample>, n: nat, m: nat)
    requires Sampled(w, trace) && n < m && Ends(w, trace, n)
    ensures !OutBeforePoll(w, trace, m) && !BrokeAfter(w, trace, m) && !Polled(w, trace, m)
  {
    if OutBeforePoll(w, trace, n) || BrokeAfter(w, trace, n) {
      assert !GoesOn(w, trace, n);
    }
  }

  /** On a given trace there is only one outcome that keeps the promise, so loops that keep
      it agree on reason, poll count and last digest. */
  lemma MeetsIsFunctional(w: Wait, trace: seq<Sample>, o: Outcome, q: Outcome)
    requires Sampled(w, trace) && Meets(w, trace, o) && Meets(w, trace, q)
    ensures o == q
  {
    if o.polls < q.polls {
      EndsOnce(w, trace, o.polls, q.polls);
    } else if q.polls < o.polls {
      EndsOnce(w, trace, q.polls, o.polls);
    } else {
      EndsOneWay(w, trace, o.polls);
    }
  }

  lemma EndsOneWay(w: Wait, trace: seq<Sample>, n: nat)
    requires Sampled(w, trace)
    ensures Polled(w, trace, n) && !GoesOn(w, trace, n - 1) ==>
      !OutBeforePoll(w, trace, n) && !BrokeAfter(w, trace, n)
  {}

  function Honest(w: Wait, trace: seq<Sample>, n: nat): Stop
    requires n <= |trace|
  {
    if NothingHappened(w, trace, n) then Unchanged else DeadlineReached
  }

  /** Every trace has an outcome. */
  lemma SomeOutcome(w: Wait, trace: seq<Sample>)
    requires Sampled(w, trace)
    ensures exists o :: Meets(w, trace, o)
  {
    hide Settled, Moved;
    var n := 0;
    while n + 1 < |trace| && GoesOn(w, trace, n)
      invariant n < |trace| && AllGoOn(w, trace, n)
    {
      n := n + 1;
    }
    var before := if n == 0 then "" else trace[n - 1].hash;
    if trace[n].top >= w.deadline {
      assert Meets(w, trace, Outcome(Honest(w, trace, n), n, before));
    } else if trace[n].hash == "" {
      assert Meets(w, trace, Outcome(Broke, n, before));
    } else if Settled(w, trace, n) {
      assert Meets(w, trace, Outcome(Stable, n + 1, trace[n].hash));
    } else {
      assert Meets(w, trace, Outcome(Honest(w, trace, n + 1), n + 1, trace[n].hash));
    }
  }

  /** The outcome the promise leaves. */
  ghost function Promised(w: Wait, trace: seq<Sample>): (o: Outcome)
    requires Sampled(w, trace)
    ensures Meets(w, trace, o)
  {
    SomeOutcome(w, trace);
    var o :| Meets(w, trace, o);
    o
  }

  /** What a sequence's in-process wait makes of it: out of time at the top of the loop, it
      says deadline whatever it saw. */
  ghost function SequenceOutcome(w: Wait, trace: seq<Sample>): Outcome
    requires Sampled(w, trace)
  {
    var o := Promised(w, trace);
    if o.stop.Unchanged? && OutBeforePoll(w, trace, o.polls) then o.(stop := DeadlineReached) else o
  }

  /** Time ran out at the top of the loop, after polls that all equalled the baseline. */
  ghost predicate RanOutStill(w: Wait, trace: seq<Sample>)
    requires Sampled(w, trace)
  {
    exists n: nat :: OutBeforePoll(w, trace, n) && NothingHappened(w, trace, n)
  }

  /** A sequence's in-process wait agrees with the others exactly unless time ran out that
      way; there it says deadline where they say unchanged. Polls and digest always agree. */
  lemma SequenceWaitAgreesIff(w: Wait, trace: seq<Sample>)
    requires Sampled(w, trace)
    ensures var o, q := Promised(w, trace), SequenceOutcome(w, trace);
      && q.polls == o.polls && q.lastHash == o.lastHash && (q.stop.Broke? <==> o.stop.Broke?)
      && (q == o <==> !RanOutStill(w, trace))
      && (RanOutStill(w, trace) ==> o.stop.Unchanged? && q.stop.DeadlineReached?)
  {
    var o := Promised(w, trace);
    if n: nat :| OutBeforePoll(w, trace, n) && NothingHappened(w, trace, n) {
      var before := trace[n - 1].hash;
      MeetsIsFunctional(w, trace, o, Outcome(Unchanged, n, before));
    }
  }

  // ---- the loops ---------------------------------------------------------

  /** What the loops' variables say after n polls: whether a window is open and, if so,
      since which poll. */
  predicate Window(w: Wait, trace: seq<Sample>, n: nat, open: bool, c: nat) {
    n <= |trace| && if open then n > 0 && RunBegan(w, trace, c, n - 1) else forall j | 0 <= j < n :: !Moved(w, trace, j)
  }

  lemma WindowExtends(w: Wait, trace: seq<Sample>, n: nat, open: bool, c: nat)
    requires n < |trace| && Window(w, trace, n, open, c)
    ensures Window(w, trace, n + 1, open || Moved(w, trace, n), if Moved(w, trace, n) then n else c)
  {
  }

  lemma WindowDecidesSettled(w: Wait, trace: seq<Sample>, n: nat, open: bool, c: nat)
    requires 0 < n <= |trace| && Window(w, trace, n, open, c)
    ensures Settled(w, trace, n - 1) <==> open && Lasted(w, trace[c].now, trace[n - 1].now)
  {
    if open {
      RunDecidesSettled(w, trace, c, n - 1);
    }
  }

  function Terminal(w: Wait, polls: nat, moveSeen: bool): Stop {
    if w.baseline != "" && polls > 0 && !moveSeen then Unchanged else DeadlineReached
  }

  /** The terminal reason says unchanged exactly when nothing happened. */
  lemma TerminalIsHonest(w: Wait, trace: seq<Sample>, n: nat, open: bool, c: nat, moveSeen: bool)
    requires Window(w, trace, n, open, c) && (w.baseline != "" ==> moveSeen == open)
    ensures Terminal(w, n, moveSeen) == Honest(w, trace, n)
  {
    StillIff(w, trace, n);
  }

  /** The loops' variables before a poll, when n polls went on. */
  predicate Tracks(w: Wait, trace: seq<Sample>, n: nat, refHash: string, lastHash: string,
                   since: Option<real>, c: nat, moveSeen: bool)
    requires Sampled(w, trace)
  {
    && n < |trace| && AllGoOn(w, trace, n) && Window(w, trace, n, since.Some?, c)
    && lastHash == (if n == 0 then "" else trace[n - 1].hash)
    && refHash == (if n == 0 then w.baseline else trace[n - 1].hash)
    && (since.Some? ==> since == Some(trace[c].now))
    && (w.baseline != "" ==> moveSeen == since.Some?)
  }

  /** The variables after the frame of poll n: a move opens the window, or moves it. */
  predicate Updated(w: Wait, trace: seq<Sample>, n: nat, was: Option<real>, began: nat, sawMove: bool,
                    since: Option<real>, c: nat, moveSeen: bool)
    requires n < |trace|
  {
    if Moved(w, trace, n) then since == Some(trace[n].now) && c == n && (w.baseline != "" ==> moveSeen)
    else since == was && c == began && moveSeen == sawMove
  }

  /** The window after one more poll, and whether it settles the wait. */
  lemma PollWindow(w: Wait, trace: seq<Sample>, n: nat, was: Option<real>, began: nat, sawMove: bool,
                   since: Option<real>, c: nat, moveSeen: bool)
    requires n < |trace| && Window(w, trace, n, was.Some?, began)
    requires was.Some? ==> was == Some(trace[began].now)
    requires w.baseline != "" ==> sawMove == was.Some?
    requires Updated(w, trace, n, was, began, sawMove, since, c, moveSeen)
    ensures Window(w, trace, n + 1, since.Some?, c)
    ensures since.Some? ==> since == Some(trace[c].now)
    ensures w.baseline != "" ==> moveSeen == since.Some?
    ensures Settled(w, trace, n) <==> since.Some? && Lasted(w, since.value, trace[n].now)
  {
    hide Window, Settled, Moved, Lasted;
    WindowExtends(w, trace, n, was.Some?, began);
    WindowDecidesSettled(w, trace, n + 1, since.Some?, c);
  }

  /** One more poll: it settles the wait, ends it, or the variables track the next one. */
  lemma PollCounts(w: Wait, trace: seq<Sample>, n: nat, refHash: string, lastHash: string,
                   was: Option<real>, began: nat, sawMove: bool, since: Option<real>, c: nat, moveSeen: bool)
    requires Sampled(w, trace) && Tracks(w, trace, n, refHash, lastHash, was, began, sawMove)
    requires trace[n].top < w.deadline && trace[n].hash != ""
    requires Updated(w, trace, n, was, began, sawMove, since, c, moveSeen)
    ensures since.Some? && Lasted(w, since.value, trace[n].now) ==>
      Meets(w, trace, Outcome(Stable, n + 1, trace[n].hash)) && !OutBeforePoll(w, trace, n + 1)
    ensures !(since.Some? && Lasted(w, since.value, trace[n].now)) ==>
      if n + 1 == |trace| || trace[n].tail >= w.deadline then
        && Meets(w, trace, Outcome(Terminal(w, n + 1, moveSeen), n + 1, trace[n].hash))
        && !OutBeforePoll(w, trace, n + 1)
      else Tracks(w, trace, n + 1, trace[n].hash, trace[n].hash, since, c, moveSeen)
  {
    hide Window, Moved, Lasted, Settled, NothingHappened, Updated, Terminal;
    PollWindow(w, trace, n, was, began, sawMove, since, c, moveSeen);
    if Settled(w, trace, n) {
      EndsHere(w, trace, n);
    } else if n + 1 == |trace| || trace[n].tail >= w.deadline {
      EndsHere(w, trace, n);
      TerminalIsHonest(w, trace, n + 1, since.Some?, c, moveSeen);
    }
  }

  lemma EndsHere(w: Wait, trace: seq<Sample>, n: nat)
    requires Sampled(w, trace) && n < |trace| && AllGoOn(w, trace, n)
    requires trace[n].top < w.deadline && trace[n].hash != "" && !GoesOn(w, trace, n)
    ensures Polled(w, trace, n + 1) && !OutBeforePoll(w, trace, n + 1)
  {}

  lemma StartTracks(w: Wait, trace: seq<Sample>)
    requires Sampled(w, trace)
    ensures Tracks(w, trace, 0, w.baseline, "", None, 0, false)
  {}

  /** Out of time, or broken off, before poll n. */
  lemma StopsBefore(w: Wait, trace: seq<Sample>, n: nat, refHash: string, lastHash: string,
                    since: Option<real>, c: nat, moveSeen: bool)
    requires Sampled(w, trace) && Tracks(w, trace, n, refHash, lastHash, since, c, moveSeen)
    ensures trace[n].top >= w.deadline ==>
      OutBeforePoll(w, trace, n) && Meets(w, trace, Outcome(Terminal(w, n, moveSeen), n, lastHash))
    ensures trace[n].top < w.deadline && trace[n].hash == "" ==>
      Meets(w, trace, Outcome(Broke, n, lastHash))
    ensures refHash == "" ==> n == 0 && w.baseline == ""
  {
    hide Window, Moved, Lasted, Settled, NothingHappened, Terminal;
    assert n > 0 ==> GoesOn(w, trace, n - 1);
    TerminalIsHonest(w, trace, n, since.Some?, c, moveSeen);
  }

  lemma IsPromised(w: Wait, trace: seq<Sample>, o: Outcome)
    requires Sampled(w, trace) && Meets(w, trace, o)
    ensures o == Promised(w, trace)
    ensures SequenceOutcome(w, trace) ==
      if o.stop.Unchanged? && OutBeforePoll(w, trace, o.polls) then o.(stop := DeadlineReached) else o
  {
    MeetsIsFunctional(w, trace, o, Promised(w, trace));
  }

  /** The wait of the in-process backend. */
  method WaitInProcess(w: Wait, trace: seq<Sample>) returns (o: Outcome)
    requires Sampled(w, trace)
    ensures o == Promised(w, trace)
  {
    hide Lasted, Terminal, Meets, OutBeforePoll, AllGoOn;
    var polls, lastHash, refHash := 0, "", w.baseline;
    var lastChange: Option<real> := None;
    var moveSeen := false;
    ghost var c := 0;
    StartTracks(w, trace);
    o := Outcome(DeadlineReached, 0, "");
    while polls < w.maxPolls
      invariant Tracks(w, trace, polls, refHash, lastHash, lastChange, c, moveSeen)
      invariant moveSeen == lastChange.Some?
    {
      var sample := trace[polls];
      StopsBefore(w, trace, polls, refHash, lastHash, lastChange, c, moveSeen);
      if sample.top >= w.deadline {
        o := Outcome(Terminal(w, polls, moveSeen), polls, lastHash);
        break;
      }
      if sample.hash == "" {
        o := Outcome(Broke, polls, lastHash);
        break;
      }
      ghost var r, l, was, began, saw := refHash, lastHash, lastChange, c, moveSeen;
      polls, lastHash := polls + 1, sample.hash;
      if sample.hash != refHash {
        refHash, lastChange, moveSeen := sample.hash, Some(sample.now), true;
        c := polls - 1;
      }
      PollCounts(w, trace, polls - 1, r, l, was, began, saw, lastChange, c, moveSeen);
      if lastChange.Some? && Lasted(w, lastChange.value, sample.now) {
        o := Outcome(Stable, polls, lastHash);
        break;
      }
      if polls >= w.maxPolls || sample.tail >= w.deadline {
        o := Outcome(Terminal(w, polls, moveSeen), polls, lastHash);
        break;
      }
    }
    IsPromised(w, trace, o);
  }

  /** The wait as a script runs it, on its own or as a step of a sequence: the first frame
      of a wait without a baseline opens the window but does not count as a move. */
  method WaitFolded(w: Wait, trace: seq<Sample>) returns (o: Outcome)
    requires Sampled(w, trace)
    ensures o == Promised(w, trace)
  {
    hide Lasted, Terminal, Meets, OutBeforePoll, AllGoOn;
    var polls, lastHash, refHash := 0, "", w.baseline;
    var lastChange: Option<real> := None;
    var moveSeen := false;
    ghost var c := 0;
    StartTracks(w, trace);
    o := Outcome(DeadlineReached, 0, "");
    while polls < w.maxPolls
      invariant Tracks(w, trace, polls, refHash, lastHash, lastChange, c, moveSeen)
    {
      var sample := trace[polls];
      StopsBefore(w, trace, polls, refHash, lastHash, lastChange, c, moveSeen);
      if sample.top >= w.deadline {
        o := Outcome(Terminal(w, polls, moveSeen), polls, lastHash);
        break;
      }
      if sample.hash == "" {
        o := Outcome(Broke, polls, lastHash);
        break;
      }
      ghost var r, l, was, began, saw := refHash, lastHash, lastChange, c, moveSeen;
      polls, lastHash := polls + 1, sample.hash;
      if refHash == "" {
        refHash, lastChange := sample.hash, Some(sample.now);
        c := polls - 1;
      } else if sample.hash != refHash {
        refHash, lastChange, moveSeen := sample.hash, Some(sample.now), true;
        c := polls - 1;
      }
      PollCounts(w, trace, polls - 1, r, l, was, began, saw, lastChange, c, moveSeen);
      if lastChange.Some? && Lasted(w, lastChange.value, sample.now) {
        o := Outcome(Stable, polls, lastHash);
        break;
      }
      if polls >= w.maxPolls || sample.tail >= w.deadline {
        o := Outcome(Terminal(w, polls, moveSeen), polls, lastHash);
        break;
      }
    }
    IsPromised(w, trace, o);
  }

  /** The in-process wait of a sequence step. */
  method WaitInSequence(w: Wait, trace: seq<Sample>) returns (o: Outcome)
    requires Sampled(w, trace)
    ensures o == SequenceOutcome(w, trace)
  {
    hide Lasted, Meets, OutBeforePoll, AllGoOn;
    var polls, lastHash, refHash := 0, "", w.baseline;
    var lastChange: Option<real> := None;
    var moveSeen := false;
    ghost var c := 0;
    StartTracks(w, trace);
    ghost var honest: Outcome;
    o := Outcome(DeadlineReached, 0, "");
    while polls < w.maxPolls
      invariant Tracks(w, trace, polls, refHash, lastHash, lastChange, c, moveSeen)
    {
      var sample := trace[polls];
      StopsBefore(w, trace, polls, refHash, lastHash, lastChange, c, moveSeen);
      if sample.top >= w.deadline {
        o := Outcome(DeadlineReached, polls, lastHash);
        honest := Outcome(Terminal(w, polls, moveSeen), polls, lastHash);
        break;
      }
      if sample.hash == "" {
        o := Outcome(Broke, polls, lastHash);
        honest := o;
        break;
      }
      ghost var r, l, was, began, saw := refHash, lastHash, lastChange, c, moveSeen;
      polls, lastHash := polls + 1, sample.hash;
      if refHash == "" {
        refHash, lastChange := sample.hash, Some(sample.now);
        c := polls - 1;
      } else if sample.hash != refHash {
        refHash, lastChange, moveSeen := sample.hash, Some(sample.now), true;
        c := polls - 1;
      }
      PollCounts(w, trace, polls - 1, r, l, was, began, saw, lastChange, c, moveSeen);
      if lastChange.Some? && Lasted(w, lastChange.value, sample.now) {
        o := Outcome(Stable, polls, lastHash);
        honest := o;
        break;
      }
      if polls >= w.maxPolls || sample.tail >= w.deadline {
        o := Outcome(Terminal(w, polls, moveSeen), polls, lastHash);
        honest := o;
        break;
      }
    }
    IsPromised(w, trace, honest);
  }

  /** A wait that reports stable saw a move, and at least one later poll, with the same
      frame all the way from the move to the end and the quiet window between them. */
  lemma StableMeansQuiet(w: Wait, trace: seq<Sample>, o: Outcome) returns (c: nat)
    requires Sampled(w, trace) && Meets(w, trace, o) && o.stop.Stable?
    ensures c < o.polls && Moved(w, trace, c)
    ensures forall j | c <= j < o.polls :: trace[j].hash == o.lastHash
    ensures trace[o.polls - 1].now - trace[c].now >= w.quiet
    ensures c < o.polls - 1
  {
    var i := o.polls - 1;
    c :| c <= i && RunBegan(w, trace, c, i) && Lasted(w, trace[c].now, trace[i].now);
    EqualRun(w, trace, c, i);
  }

  lemma {:induction false} EqualRun(w: Wait, trace: seq<Sample>, c: nat, i: nat)
    requires c <= i < |trace| && forall j | c < j <= i :: !Moved(w, trace, j)
    ensures forall j | c <= j <= i :: trace[j].hash == trace[i].hash
  {
    if c < i {
      EqualRun(w, trace, c, i - 1);
      assert !Moved(w, trace, i);
    }
  }

  /** When polls are made, and what giving up or breaking off takes. */
  lemma PollsInTime(w: Wait, trace: seq<Sample>, o: Outcome)
    requires Sampled(w, trace) && Meets(w, trace, o)
    ensures forall j | 0 <= j < o.polls :: trace[j].top < w.deadline && trace[j].hash != ""
    ensures o.stop.Broke? ==>
      o.polls < |trace| && trace[o.polls].top < w.deadline && trace[o.polls].hash == ""
    ensures o.stop.Unchanged? || o.stop.DeadlineReached? ==>
      || (o.polls < |trace| && trace[o.polls].top >= w.deadline)
      || (o.polls > 0 && trace[o.polls - 1].tail >= w.deadline) || o.polls == |trace|
  {
    hide Settled, Moved, NothingHappened;
    forall j | 0 <= j < o.polls ensures trace[j].top < w.deadline && trace[j].hash != "" {
      assert Polled(w, trace, o.polls) || AllGoOn(w, trace, o.polls);
      assert j < o.polls - 1 || AllGoOn(w, trace, o.polls) ==> GoesOn(w, trace, j);
    }
  }

  /** From poll c, which brought a frame unlike the one before it, or unlike the baseline, up
      to poll i there was one and the same frame, for this long. */
  predicate SameFrame(baseline: string, trace: seq<Sample>, c: nat, i: nat, ms: real) {
    && c <= i < |trace| && trace[c].hash != (if c == 0 then baseline else trace[c - 1].hash)
    && (forall j | c <= j <= i :: trace[j].hash == trace[c].hash) && trace[i].now - trace[c].now >= ms
  }

  /** The frame of poll i has stood this long. */
  ghost predicate Stood(baseline: string, trace: seq<Sample>, i: nat, ms: real) {
    exists c: nat :: SameFrame(baseline, trace, c, i, ms)
  }

  lemma SettledIsSameFrame(w: Wait, trace: seq<Sample>, i: nat)
    requires i < |trace|
    ensures Settled(w, trace, i) <==> Stood(w.baseline, trace, i, w.quiet)
  {
    if Settled(w, trace, i) {
      var c: nat :| c <= i && RunBegan(w, trace, c, i) && Lasted(w, trace[c].now, trace[i].now);
      EqualRun(w, trace, c, i);
      assert SameFrame(w.baseline, trace, c, i, w.quiet);
    }
    if c: nat :| SameFrame(w.baseline, trace, c, i, w.quiet) {
      assert forall j | c < j <= i :: !Moved(w, trace, j);
      assert RunBegan(w, trace, c, i) && Lasted(w, trace[c].now, trace[i].now);
    }
  }

  /** A wait stops as stable at the first settled poll, and at no other. */
  lemma StopsAtFirstSettled(w: Wait, trace: seq<Sample>, o: Outcome, i: nat)
    requires Sampled(w, trace) && Meets(w, trace, o) && i < o.polls
    ensures Settled(w, trace, i) <==> o.stop.Stable? && i == o.polls - 1
  {
    hide Settled, Moved, NothingHappened;
    if i < o.polls - 1 || !o.stop.Stable? {
      assert OutBeforePoll(w, trace, o.polls) || BrokeAfter(w, trace, o.polls) || Polled(w, trace, o.polls);
      assert i < o.polls - 1 || AllGoOn(w, trace, o.polls) ==> GoesOn(w, trace, i);
    }
  }

  /** What a caller gets for its milliseconds from the waits that keep the promise: stable
      exactly at the first poll whose frame has stood for the quiet window. No poll begins
      once the time is over. One that gives up has seen the time run out, or made as many
      polls as the interval allows in that time; it says unchanged exactly when it polled,
      was given a baseline and saw nothing else. One that breaks off met a failed capture. */
  lemma CallerGets(baseline: string, stableMs: int, timeoutMs: int, intervalMs: int, started: real, trace: seq<Sample>)
    requires stableMs >= 1 && timeoutMs >= 1 && intervalMs >= 1
    requires Sampled(WaitFor(baseline, stableMs, timeoutMs, intervalMs, started), trace)
    ensures var o := Promised(WaitFor(baseline, stableMs, timeoutMs, intervalMs, started), trace);
      && o.polls <= |trace| && (o.polls - 1) * intervalMs < timeoutMs
      && o.lastHash == (if o.polls == 0 then "" else trace[o.polls - 1].hash)
      && StableAtFirst(baseline, trace, o, stableMs as real)
      && Bounded(trace, o, started + timeoutMs as real, timeoutMs <= o.polls * intervalMs)
      && (o.stop.Unchanged? || o.stop.DeadlineReached? ==>
            (o.stop.Unchanged? <==>
             baseline != "" && o.polls > 0 && forall j | 0 <= j < o.polls :: trace[j].hash == baseline))
  {
    var w := WaitFor(baseline, stableMs, timeoutMs, intervalMs, started);
    var o := Promised(w, trace);
    hide Settled, Moved, Promised, WaitFor, Stood;
    GivesUp(w, trace, o);
    forall i | 0 <= i < o.polls
      ensures Stood(baseline, trace, i, w.quiet) <==> o.stop.Stable? && i == o.polls - 1
    {
      SettledIsSameFrame(w, trace, i);
      StopsAtFirstSettled(w, trace, o, i);
    }
    PollsInTime(w, trace, o);
    FewerPolls(o.polls, w.maxPolls, intervalMs);
  }

  /** The wait is stable exactly if some poll's frame has stood this long, and then ended at
      the first such poll. */
  ghost predicate StableAtFirst(baseline: string, trace: seq<Sample>, o: Outcome, ms: real) {
    && (o.stop.Stable? ==> o.polls > 0)
    && forall i | 0 <= i < o.polls :: Stood(baseline, trace, i, ms) <==> o.stop.Stable? && i == o.polls - 1
  }

  /** Every poll began in time and saw a frame; giving up takes the end of the time or of the
      polls, and breaking off a capture that failed. */
  predicate Bounded(trace: seq<Sample>, o: Outcome, deadline: real, usedUp: bool) {
    && o.polls <= |trace| && (forall j | 0 <= j < o.polls :: trace[j].top < deadline && trace[j].hash != "")
    && (o.stop.Broke? ==> o.polls < |trace| && trace[o.polls].hash == "")
    && (o.stop.Unchanged? || o.stop.DeadlineReached? ==>
          || (o.polls < |trace| && trace[o.polls].top >= deadline)
          || (o.polls > 0 && trace[o.polls - 1].tail >= deadline) || usedUp)
  }

  lemma GivesUp(w: Wait, trace: seq<Sample>, o: Outcome)
    requires Sampled(w, trace) && Meets(w, trace, o)
    ensures o.stop.Stable? ==> o.polls > 0
    ensures o.stop.Unchanged? || o.stop.DeadlineReached? ==>
      (o.stop.Unchanged? <==>
       w.baseline != "" && o.polls > 0 && forall j | 0 <= j < o.polls :: trace[j].hash == w.baseline)
  {
    hide Settled, Moved;
  }

  lemma FewerPolls(polls: nat, most: nat, intervalMs: int)
    requires polls <= most && intervalMs >= 1
    ensures (polls - 1) * intervalMs <= (most - 1) * intervalMs
  {
    assert (most - 1) * intervalMs == (polls - 1) * intervalMs + (most - polls) * intervalMs;
  }

  // ---- a wait on which the loops part -------------------------------------

  /** A five-second wait whose first frame equals the baseline and whose second look at the
      clock comes too late. */
  const STILL_WAIT := WaitFor("h", 1000, 5000, 250, 0.0)

  function StillSample(i: nat): Sample {
    if i == 0 then Sample(0.0, "h", 0.0, 10.0) else Sample(6000.0, "h", 6000.0, 6000.0)
  }

  function StillTrace(): (trace: seq<Sample>)
    ensures Sampled(STILL_WAIT, trace)
  {
    seq(STILL_WAIT.maxPolls, i requires 0 <= i => StillSample(i))
  }

  lemma StillRanOut()
    ensures RanOutStill(STILL_WAIT, StillTrace())
  {
    var w, trace := STILL_WAIT, StillTrace();
    assert w.deadline == 5000.0 && w.maxPolls == 20;
    assert !Moved(w, trace, 0);
    assert GoesOn(w, trace, 0);
    assert AllGoOn(w, trace, 1) && OutBeforePoll(w, trace, 1) && NothingHappened(w, trace, 1);
  }

  /** There the scripts and the in-process wait say unchanged, and a sequence's in-process
      wait says deadline. */
  lemma StillWaitParts()
    ensures Promised(STILL_WAIT, StillTrace()).stop.Unchanged?
    ensures SequenceOutcome(STILL_WAIT, StillTrace()).stop.DeadlineReached?
  {
    hide WaitFor, Promised, SequenceOutcome, RanOutStill;
    StillRanOut();
    SequenceWaitAgreesIff(STILL_WAIT, StillTrace());
  }
}
