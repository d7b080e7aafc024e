/** What each lease operation does to the table, row by row, and what its caller is told. */
module LeaseOutcomes {
  import opened Common
  import opened LeaseModel
  import opened LeaseInvariant
  import opened LeaseExclusion

  // ---- ownership ---------------------------------------------------------

  predicate UnderAt(s: Store, lease: string, i: nat) {
    i < |s.rows| && s.rows[i].lease == lease
  }

  predicate LiveAt(s: Store, lease: string, i: nat) {
    UnderAt(s, lease, i) && s.rows[i].expiresAt > s.clock
  }

  ghost predicate AnyUnder(s: Store, lease: string) {
    exists i :: UnderAt(s, lease, i)
  }

  ghost predicate AnyLive(s: Store, lease: string) {
    exists i :: LiveAt(s, lease, i)
  }

  /** Live rows decide whose a lease is while there are any, else the expired ones do: the
      caller owns it when all of those are the caller's. */
  ghost predicate Owns(s: Store, lease: string, agent: Option<string>) {
    && AnyUnder(s, lease)
    && forall i: nat | UnderAt(s, lease, i) && (AnyLive(s, lease) ==> LiveAt(s, lease, i)) ::
         s.rows[i].holder == agent
  }

  lemma LiveRows(s: Store, lease: string)
    ensures forall i: nat :: LiveAt(s, lease, i) ==> s.rows[i] in LiveOf(s.rows, lease, s.clock)
    ensures forall r :: r in LiveOf(s.rows, lease, s.clock) ==> exists i: nat :: LiveAt(s, lease, i) && s.rows[i] == r
    ensures LiveOf(s.rows, lease, s.clock) != [] <==> AnyLive(s, lease)
  {
    var live := LiveOf(s.rows, lease, s.clock);
    forall r | r in live ensures exists i: nat :: LiveAt(s, lease, i) && s.rows[i] == r {
      var i :| 0 <= i < |s.rows| && s.rows[i] == r;
      assert LiveAt(s, lease, i);
    }
    assert live != [] ==> live[0] in live;
  }

  lemma ExpiredRows(s: Store, lease: string)
    ensures forall i: nat :: UnderAt(s, lease, i) && !LiveAt(s, lease, i) ==>
      s.rows[i] in ExpiredOf(s.rows, lease, s.clock)
    ensures forall r :: r in ExpiredOf(s.rows, lease, s.clock) ==>
      exists i: nat :: UnderAt(s, lease, i) && s.rows[i] == r
    ensures !AnyLive(s, lease) ==> (ExpiredOf(s.rows, lease, s.clock) != [] <==> AnyUnder(s, lease))
  {
    var expired := ExpiredOf(s.rows, lease, s.clock);
    forall r | r in expired ensures exists i: nat :: UnderAt(s, lease, i) && s.rows[i] == r {
      var i :| 0 <= i < |s.rows| && s.rows[i] == r;
      assert UnderAt(s, lease, i);
    }
    assert expired != [] ==> expired[0] in expired;
  }

  /** The ownership check, whoever makes it: unknown exactly when no row carries the id, and
      refused exactly when a row that decides is somebody else's, expired or not. */
  lemma OwnershipIff(s: Store, lease: string, agent: Option<string>)
    ensures var res := OwnedRows(s.rows, lease, agent, s.clock);
      && (res.Ok? <==> Owns(s, lease, agent))
      && (res.Ok? ==> res.value == LiveOf(s.rows, lease, s.clock) && (res.value != [] <==> AnyLive(s, lease)))
      && (res.Err? ==> res.error == if AnyUnder(s, lease) then NotOwned else Unknown)
      && (Owns(s, lease, agent) ==> AnyUnder(s, lease))
  {
    hide LiveOf, ExpiredOf;
    LiveRows(s, lease);
    ExpiredRows(s, lease);
    assert AnyLive(s, lease) ==> AnyUnder(s, lease);
  }

  // ---- renew, release, sweep, heartbeat ----------------------------------

  ghost predicate FirstLive(s: Store, lease: string, f: nat) {
    LiveAt(s, lease, f) && forall i: nat | i < f :: !LiveAt(s, lease, i)
  }

  /** The same rows, the live ones under an id with a new expiry. */
  ghost predicate MovedTo(s: Store, t: Store, lease: string, expiry: real) {
    && t == s.(rows := t.rows) && |t.rows| == |s.rows|
    && forall i | 0 <= i < |s.rows| ::
         t.rows[i] == if LiveAt(s, lease, i) then s.rows[i].(expiresAt := expiry) else s.rows[i]
  }

  lemma {:induction false} KeepsFirst(rows: seq<Row>, p: Row -> bool, f: nat)
    requires f < |rows| && p(rows[f]) && forall i | 0 <= i < f :: !p(rows[i])
    ensures Keep(rows, p) != [] && Keep(rows, p)[0] == rows[f]
  {
    var front := rows[..|rows| - 1];
    if f < |front| {
      KeepsFirst(front, p, f);
    } else {
      KeepsNone(front, p);
    }
  }

  lemma SomeFirstLive(s: Store, lease: string) returns (f: nat)
    requires AnyLive(s, lease)
    ensures FirstLive(s, lease, f)
  {
    var last: nat :| LiveAt(s, lease, last);
    f := 0;
    while !LiveAt(s, lease, f)
      invariant f <= last && forall i: nat | i < f :: !LiveAt(s, lease, i)
      decreases last - f
    {
      f := f + 1;
    }
  }

  /** Every live row under the id has the first one's own ttl from now, nothing else was
      touched, and `told` is that first row as it is stored. */
  ghost predicate Prolonged(s: Store, t: Store, lease: string, told: Row) {
    exists f: nat ::
      && FirstLive(s, lease, f) && MovedTo(s, t, lease, s.clock + s.rows[f].ttl as real)
      && told == t.rows[f]
  }

  lemma FirstLiveLeads(s: Store, lease: string, f: nat)
    requires FirstLive(s, lease, f)
    ensures LiveOf(s.rows, lease, s.clock) != [] && LiveOf(s.rows, lease, s.clock)[0] == s.rows[f]
  {
    forall i | 0 <= i < f ensures !LiveUnder(lease, s.clock)(s.rows[i]) {
      assert !LiveAt(s, lease, i);
    }
    KeepsFirst(s.rows, LiveUnder(lease, s.clock), f);
  }

  lemma ExtendedMoves(s: Store, lease: string, f: nat)
    requires FirstLive(s, lease, f) && LiveOf(s.rows, lease, s.clock) != []
    requires LiveOf(s.rows, lease, s.clock)[0] == s.rows[f]
    ensures MovedTo(s, Extended(s, lease), lease, s.clock + s.rows[f].ttl as real)
    ensures Extended(s, lease).rows[f] == s.rows[f].(expiresAt := s.clock + s.rows[f].ttl as real)
  {
    hide LiveOf, AnyLive, AnyUnder, Owns;
  }

  lemma ExtendedProlongs(s: Store, lease: string)
    requires AnyLive(s, lease)
    ensures LiveOf(s.rows, lease, s.clock) != []
    ensures var first := LiveOf(s.rows, lease, s.clock)[0];
      Prolonged(s, Extended(s, lease), lease, first.(expiresAt := s.clock + first.ttl as real))
  {
    hide LiveOf, AnyLive, Extended, Retime, FirstLive;
    var f := SomeFirstLive(s, lease);
    FirstLiveLeads(s, lease, f);
    ExtendedMoves(s, lease, f);
    IsProlonged(s, Extended(s, lease), lease, f);
  }

  lemma IsProlonged(s: Store, t: Store, lease: string, f: nat)
    requires FirstLive(s, lease, f) && MovedTo(s, t, lease, s.clock + s.rows[f].ttl as real)
    ensures f < |s.rows| && Prolonged(s, t, lease, s.rows[f].(expiresAt := s.clock + s.rows[f].ttl as real))
  {}

  /** Renewing succeeds exactly for the owner of a lease with live rows. It then gives every
      live row under the id the first one's own ttl from now, touches nothing else, and
      reports the expiry it stored; a refusal changes nothing. */
  lemma RenewOutcome(s: Store, lease: string, agent: Option<string>)
    ensures var (t, res) := Renew(s, lease, agent);
      && (res.Ok? <==> AnyLive(s, lease) && Owns(s, lease, agent))
      && (res.Ok? ==> Prolonged(s, t, lease, res.value))
      && (res.Err? ==> t == s)
      && (res == Err(Unknown) <==> !AnyUnder(s, lease))
      && (res == Err(Expired) <==> Owns(s, lease, agent) && !AnyLive(s, lease))
      && (res.Err? ==> res.error in {Unknown, NotOwned, Expired})
  {
    hide AnyUnder, AnyLive, Owns, OwnedRows, Extended, Prolonged;
    OwnershipIff(s, lease, agent);
    LiveIsUnder(s, lease);
    if AnyLive(s, lease) {
      ExtendedProlongs(s, lease);
    }
  }

  lemma LiveIsUnder(s: Store, lease: string)
    ensures AnyLive(s, lease) ==> AnyUnder(s, lease)
  {
    if AnyLive(s, lease) {
      var i :| LiveAt(s, lease, i);
      assert UnderAt(s, lease, i);
    }
  }

  /** The same rows in order, less those that `gone` names. */
  ghost predicate Removed(s: Store, t: Store, gone: Row -> bool) {
    && t == s.(rows := t.rows) && InKeyOrder(t.rows)
    && forall r :: r in t.rows <==> r in s.rows && !gone(r)
  }

  /** Releasing succeeds exactly for the owner, of live or of expired rows, and deletes the
      lease's explicit rows; a refusal deletes nothing. */
  lemma ReleaseOutcome(s: Store, lease: string, agent: Option<string>)
    requires InKeyOrder(s.rows)
    ensures var (t, res) := Release(s, lease, agent);
      && (res.Ok? <==> Owns(s, lease, agent))
      && (res.Ok? ==> Removed(s, t, (r: Row) => r.lease == lease && r.kind.Explicit?))
      && (res.Err? ==> t == s && res.error == if AnyUnder(s, lease) then NotOwned else Unknown)
    ensures DeleteLease(s, lease) == Release(s, lease, agent).0 || !Owns(s, lease, agent)
  {
    hide AnyUnder, Owns, OwnedRows;
    OwnershipIff(s, lease, agent);
    KeepOrder(s.rows, NotGranted(lease));
  }

  /** A lease's delete and a call's end, as steps of their own. */
  lemma DeleteStepsOutcome(s: Store, lease: string, key: nat)
    requires InKeyOrder(s.rows) && Enabled(s, EndCallStep(key))
    ensures Removed(s, Next(s, DeleteStep(lease)), (r: Row) => r.lease == lease && r.kind.Explicit?)
    ensures Removed(s, Next(s, EndCallStep(key)), (r: Row) => r.key == key)
  {
    KeepOrder(s.rows, NotGranted(lease));
    KeepOrder(s.rows, LacksKey(key));
  }

  /** Sweeping deletes exactly the rows that expired before the horizon. A heartbeat moves
      exactly the row it names, live or not, to its ttl from the clock it read. */
  lemma SweepAndTouchOutcome(s: Store, horizon: real, key: nat, ttl: int, now: real)
    requires InKeyOrder(s.rows) && Enabled(s, TouchStep(key, ttl, now))
    ensures Removed(s, Next(s, SweepStep(horizon)), (r: Row) => r.expiresAt < horizon)
    ensures var t := Next(s, TouchStep(key, ttl, now));
      && t == s.(rows := t.rows) && |t.rows| == |s.rows|
      && forall i | 0 <= i < |s.rows| ::
           t.rows[i] == if s.rows[i].key == key then s.rows[i].(expiresAt := now + ttl as real) else s.rows[i]
  {
    KeepOrder(s.rows, NotBefore(horizon));
  }

  // ---- what a refusal tells ----------------------------------------------

  /** The refusal speaks of these rows: it names the first holder there is, their scopes, the
      last of their expiries, and the whole milliseconds until then. */
  ghost predicate Tells(e: LeaseError, rows: seq<Row>, now: real) {
    && rows != [] && e.Conflict?
    && (e.holder.None? ==> forall r | r in rows :: r.holder.None?)
    && (e.holder.Some? ==> exists i | 0 <= i < |rows| ::
          rows[i].holder == e.holder && forall j | 0 <= j < i :: rows[j].holder.None?)
    && (forall x :: x in e.scopes <==> exists r :: r in rows && r.scope == x)
    && (exists r :: r in rows && r.expiresAt == e.expiresAt) && (forall r | r in rows :: r.expiresAt <= e.expiresAt)
    && e.retryAfterMs >= 0
    && if e.expiresAt <= now then e.retryAfterMs == 0
       else e.retryAfterMs as real <= (e.expiresAt - now) * 1000.0 < e.retryAfterMs as real + 1.0
  }

  lemma {:induction false} HolderIsFirst(rows: seq<Row>)
    ensures FirstHolder(rows).None? ==> forall r | r in rows :: r.holder.None?
    ensures FirstHolder(rows).Some? ==> exists i | 0 <= i < |rows| ::
      rows[i].holder == FirstHolder(rows) && forall j | 0 <= j < i :: rows[j].holder.None?
  {
    if rows != [] && rows[0].holder.None? {
      HolderIsFirst(rows[1..]);
      if FirstHolder(rows).Some? {
        var i :| 0 <= i < |rows| - 1 && rows[1..][i].holder == FirstHolder(rows)
          && forall j | 0 <= j < i :: rows[1..][j].holder.None?;
        assert rows[i + 1].holder == FirstHolder(rows);
        assert forall j | 0 < j < i + 1 :: rows[j] == rows[1..][j - 1];
      }
    }
  }

  lemma ConflictTells(rows: seq<Row>, now: real)
    requires rows != []
    ensures Tells(ConflictFrom(rows, now), rows, now)
  {
    HolderIsFirst(rows);
  }

  // ---- acquire -----------------------------------------------------------

  /** A live explicit row of another principal on the VM whose scope rules out the one
      wanted. */
  predicate InWay(r: Row, req: Request, now: real, scope: string) {
    && r.kind.Explicit? && r.vm == req.vm && r.expiresAt > now
    && (req.agent.None? || r.holder != req.agent) && !ScopesCoexist(r.scope, scope)
  }

  predicate WellFormed(limits: Limits, req: Request) {
    && req.scopes != [] && (forall x | x in req.scopes :: x in SCOPES)
    && (req.ttl.Some? ==> 0 < req.ttl.value <= limits.maxTtl)
  }

  /** The row that acquire stores for a scope, when the history is n rows long. */
  function GrantedRow(s: Store, limits: Limits, req: Request, now: real, lease: string, n: nat, scope: string): Row {
    var ttl := if req.ttl.Some? then req.ttl.value else limits.defaultTtl;
    Row(n, lease, req.vm, req.vmName, scope, req.agent, Counter(s, req.vm, scope) + 1, now, ttl, now + ttl as real,
        Explicit, false)
  }

  /** Exactly these rows were added, under new keys; each scope's counter went up by one. */
  ghost predicate Added(s: Store, t: Store, vm: string, scopes: seq<string>, lease: string, rows: seq<Row>) {
    && t.rows == s.rows + rows && t.log == s.log + rows && t.clock == s.clock
    && t.ids == s.ids + (if scopes == [] then {} else {lease})
    && forall v, x :: Counter(t, v, x) == Counter(s, v, x) + if v == vm && x in scopes then 1 else 0
  }

  lemma {:induction false} InsertAllAdds(s: Store, proto: Row, scopes: seq<string>)
    requires forall i, j | 0 <= i < j < |scopes| :: scopes[i] != scopes[j]
    ensures var rows := seq(|scopes|, k requires 0 <= k < |scopes| =>
        proto.(key := |s.log| + k, scope := scopes[k], token := Counter(s, proto.vm, scopes[k]) + 1));
      Added(s, InsertAll(s, proto, scopes), proto.vm, scopes, proto.lease, rows)
  {
    if scopes != [] {
      var front, last := scopes[..|scopes| - 1], scopes[|scopes| - 1];
      InsertAllAdds(s, proto, front);
      InsertOneAdds(s, InsertAll(s, proto, front), proto, front, last);
      assert scopes == front + [last];
    }
  }

  lemma InsertOneAdds(s: Store, mid: Store, proto: Row, front: seq<string>, last: string)
    requires last !in front
    requires var before := seq(|front|, k requires 0 <= k < |front| =>
        proto.(key := |s.log| + k, scope := front[k], token := Counter(s, proto.vm, front[k]) + 1));
      Added(s, mid, proto.vm, front, proto.lease, before)
    ensures var scopes := front + [last];
      var rows := seq(|scopes|, k requires 0 <= k < |scopes| =>
        proto.(key := |s.log| + k, scope := scopes[k], token := Counter(s, proto.vm, scopes[k]) + 1));
      Added(s, Insert(mid, proto.(scope := last)), proto.vm, scopes, proto.lease, rows)
  {
    var scopes := front + [last];
    var before := seq(|front|, k requires 0 <= k < |front| =>
      proto.(key := |s.log| + k, scope := front[k], token := Counter(s, proto.vm, front[k]) + 1));
    var rows := seq(|scopes|, k requires 0 <= k < |scopes| =>
      proto.(key := |s.log| + k, scope := scopes[k], token := Counter(s, proto.vm, scopes[k]) + 1));
    var row := rows[|front|];
    assert rows == before + [row];
    assert Insert(mid, proto.(scope := last)).rows == mid.rows + [row];
    assert s.rows + before + [row] == s.rows + rows && s.log + before + [row] == s.log + rows;
  }

  lemma TtlIff(limits: Limits, req: Request)
    ensures Ttl(limits, req.ttl).Some? <==> (req.ttl.Some? ==> 0 < req.ttl.value <= limits.maxTtl)
  {}

  /** A grant stores one row a distinct scope, each with the next token of its VM and scope,
      for the time asked for or the default, under keys and in the order given; it touches
      nothing else. A request is invalid exactly when it is not well formed. */
  lemma GrantOutcome(s: Store, limits: Limits, req: Request, now: real, lease: string)
    ensures var (t, res) := Acquire(s, limits, req, now, lease);
      && (res == Err(Invalid) <==> !WellFormed(limits, req))
      && (res.Ok? ==>
            var wanted := Dedupe(req.scopes);
            && Added(s, t, req.vm, wanted, lease, res.value) && |res.value| == |wanted|
            && forall k | 0 <= k < |wanted| ::
                 res.value[k] == GrantedRow(s, limits, req, now, lease, |s.log| + k, wanted[k]))
  {
    hide FirstRefusal, InsertAll, Added, GrantedRow;
    WellFormedIff(limits, req);
    if WellFormed(limits, req) {
      var wanted, proto := Dedupe(req.scopes), Proto(req, lease, now, Ttl(limits, req.ttl).value);
      InsertAllGrants(s, limits, req, now, lease);
      FirstRefusalTells(s.rows, proto, wanted, now);
    }
  }

  lemma WellFormedIff(limits: Limits, req: Request)
    ensures WellFormed(limits, req) <==>
      Dedupe(req.scopes) != [] && KnownScopes(Dedupe(req.scopes)) && Ttl(limits, req.ttl).Some?
  {
    var wanted := Dedupe(req.scopes);
    TtlIff(limits, req);
    if req.scopes != [] {
      assert req.scopes[0] in wanted;
    }
    assert wanted != [] ==> wanted[0] in req.scopes;
  }

  lemma InsertAllGrants(s: Store, limits: Limits, req: Request, now: real, lease: string)
    requires Ttl(limits, req.ttl).Some?
    ensures var wanted := Dedupe(req.scopes);
      var t := InsertAll(s, Proto(req, lease, now, Ttl(limits, req.ttl).value), wanted);
      && |s.rows| <= |t.rows| && Added(s, t, req.vm, wanted, lease, t.rows[|s.rows|..])
      && |t.rows[|s.rows|..]| == |wanted|
      && forall k | 0 <= k < |wanted| ::
           t.rows[|s.rows|..][k] == GrantedRow(s, limits, req, now, lease, |s.log| + k, wanted[k])
  {
    hide InsertAll, Counter;
    var wanted, proto := Dedupe(req.scopes), Proto(req, lease, now, Ttl(limits, req.ttl).value);
    InsertAllAdds(s, proto, wanted);
    var rows := seq(|wanted|, k requires 0 <= k < |wanted| =>
      proto.(key := |s.log| + k, scope := wanted[k], token := Counter(s, proto.vm, wanted[k]) + 1));
    assert (s.rows + rows)[|s.rows|..] == rows;
  }

  lemma {:induction false} FirstRefusalTells(rows: seq<Row>, proto: Row, scopes: seq<string>, now: real)
    ensures var refusal := FirstRefusal(rows, proto, scopes, now);
      refusal.Some? ==> exists k | 0 <= k < |scopes| ::
        && FirstRefusal(rows, proto, scopes[..k], now).None?
        && Blockers(rows, proto.(scope := scopes[k]), now, true) != []
        && refusal.value == ConflictFrom(Blockers(rows, proto.(scope := scopes[k]), now, true), now)
  {
    hide ConflictFrom, Blockers;
    if scopes != [] {
      var front := scopes[..|scopes| - 1];
      FirstRefusalTells(rows, proto, front, now);
      if FirstRefusal(rows, proto, front, now).Some? {
        var k :| 0 <= k < |front| && FirstRefusal(rows, proto, front[..k], now).None?
          && Blockers(rows, proto.(scope := front[k]), now, true) != []
          && FirstRefusal(rows, proto, front, now).value
             == ConflictFrom(Blockers(rows, proto.(scope := front[k]), now, true), now);
        assert front[..k] == scopes[..k];
      }
    }
  }

  /** What stands in the way of a wanted scope: all of it, in table order. */
  ghost predicate AllInWay(s: Store, req: Request, now: real, scope: string, rows: seq<Row>) {
    InKeyOrder(rows) && forall r :: r in rows <==> r in s.rows && InWay(r, req, now, scope)
  }

  lemma BlockersInWay(s: Store, req: Request, now: real, lease: string, ttl: int, scope: string)
    requires RowsFromLog(s) && LogFacts(s) && lease !in s.ids
    ensures AllInWay(s, req, now, scope, Blockers(s.rows, Proto(req, lease, now, ttl).(scope := scope), now, true))
  {
    var proto := Proto(req, lease, now, ttl);
    KeepOrder(s.rows, Blocks(proto.(scope := scope), now, true));
    forall r | r in s.rows ensures Blocks(proto.(scope := scope), now, true)(r) <==> InWay(r, req, now, scope) {
      if r.kind.Explicit? && Candidate(r, proto.vm, now, proto.holder) {
        FreshConflict(s, proto, scope, now, r);
      }
    }
  }

  lemma NothingInWay(s: Store, req: Request, now: real, scope: string, r: Row)
    requires AllInWay(s, req, now, scope, []) && r in s.rows
    ensures !InWay(r, req, now, scope)
  {
    assert r !in [];
  }

  /** The refusal tells of all that stands in the way of the first scope that is blocked. */
  ghost predicate TellsOfFirst(s: Store, req: Request, now: real, e: LeaseError) {
    var wanted := Dedupe(req.scopes);
    exists k, rows | 0 <= k < |wanted| && AllInWay(s, req, now, wanted[k], rows) ::
      Tells(e, rows, now) && forall j, r | 0 <= j < k && r in s.rows :: !InWay(r, req, now, wanted[j])
  }

  /** A well-formed request is refused exactly when something stands in the way of a wanted
      scope; the refusal tells of the first such scope, and changes nothing. */
  lemma RefusalOutcome(s: Store, limits: Limits, req: Request, now: real, lease: string)
    requires RowsFromLog(s) && LogFacts(s) && lease !in s.ids && WellFormed(limits, req)
    ensures var (t, res) := Acquire(s, limits, req, now, lease);
      && (res.Err? <==> exists r, x :: r in s.rows && x in req.scopes && InWay(r, req, now, x))
      && (res.Err? ==> t == s && TellsOfFirst(s, req, now, res.error))
  {
    hide FirstRefusal, InsertAll, RowsFromLog, LogFacts, TellsOfFirst;
    AcquireGrantsIff(s, limits, req, now, lease);
    if Acquire(s, limits, req, now, lease).1.Err? {
      TellsOfTheFirst(s, req, now, lease, Ttl(limits, req.ttl).value);
    }
  }

  lemma TellsOfTheFirst(s: Store, req: Request, now: real, lease: string, ttl: int)
    requires RowsFromLog(s) && LogFacts(s) && lease !in s.ids
    ensures var refusal := FirstRefusal(s.rows, Proto(req, lease, now, ttl), Dedupe(req.scopes), now);
      refusal.Some? ==> TellsOfFirst(s, req, now, refusal.value)
  {
    hide FirstRefusal, Blockers, ConflictFrom, RowsFromLog, LogFacts, Tells, AllInWay, InWay;
    var wanted, proto := Dedupe(req.scopes), Proto(req, lease, now, ttl);
    if FirstRefusal(s.rows, proto, wanted, now).Some? {
      FirstRefusalTells(s.rows, proto, wanted, now);
      var k :| 0 <= k < |wanted| && FirstRefusal(s.rows, proto, wanted[..k], now).None?
        && Blockers(s.rows, proto.(scope := wanted[k]), now, true) != []
        && FirstRefusal(s.rows, proto, wanted, now).value
           == ConflictFrom(Blockers(s.rows, proto.(scope := wanted[k]), now, true), now);
      BlockersInWay(s, req, now, lease, ttl, wanted[k]);
      ConflictTells(Blockers(s.rows, proto.(scope := wanted[k]), now, true), now);
      forall j, r | 0 <= j < k && r in s.rows ensures !InWay(r, req, now, wanted[j]) {
        assert wanted[j] == wanted[..k][j];
        NotRefusedUnblocked(s.rows, proto, wanted[..k], now, wanted[j]);
        BlockersInWay(s, req, now, lease, ttl, wanted[j]);
        NothingInWay(s, req, now, wanted[j], r);
      }
    }
  }

  // ---- authorize ---------------------------------------------------------

  predicate CoverAt(s: Store, p: Presented, i: nat) {
    LiveAt(s, p.lease, i) && s.rows[i].scope == p.scope
  }

  ghost predicate FirstCover(s: Store, p: Presented, f: nat) {
    CoverAt(s, p, f) && forall i: nat | i < f :: !CoverAt(s, p, i)
  }

  /** The first covering row that carries the presented token. */
  ghost predicate FirstMatch(s: Store, p: Presented, m: nat) {
    && CoverAt(s, p, m) && s.rows[m].token == p.token
    && forall i: nat | i < m && CoverAt(s, p, i) :: s.rows[i].token != p.token
  }

  /** A stored explicit row of the covered VM and scope carries a greater token. */
  ghost predicate Outranked(s: Store, p: Presented, vm: string) {
    exists q :: q in s.rows && q.kind.Explicit? && q.vm == vm && q.scope == p.scope && q.token > p.token
  }

  /** The caller's VM, by id if one is given, else by name, whatever the case. */
  predicate Addresses(p: Presented, r: Row) {
    && (p.vmHint != "" ==> SameName(r.vm, p.vmHint))
    && (p.vmHint == "" && p.nameHint != "" ==> SameName(r.vmName, p.nameHint))
  }

  lemma HintIsAddress(p: Presented, r: Row)
    ensures MatchesHint(r, p.vmHint, p.nameHint) <==> Addresses(p, r)
  {
    LowerIsSameName(r.vm, p.vmHint);
    LowerIsSameName(r.vmName, p.nameHint);
  }

  function Both(p: Row -> bool, q: Row -> bool): Row -> bool {
    (r: Row) => p(r) && q(r)
  }

  lemma {:induction false} KeepTwice(rows: seq<Row>, p: Row -> bool, q: Row -> bool)
    ensures Keep(Keep(rows, p), q) == Keep(rows, Both(p, q))
  {
    if rows != [] {
      var front, last := rows[..|rows| - 1], rows[|rows| - 1];
      KeepTwice(front, p, q);
      if p(last) {
        assert (Keep(front, p) + [last])[..|Keep(front, p)|] == Keep(front, p);
      }
    }
  }

  function Covers(s: Store, p: Presented): seq<Row> {
    Keep(LiveOf(s.rows, p.lease, s.clock), InScope(p.scope))
  }

  function Matching(s: Store, p: Presented): seq<Row> {
    Keep(Covers(s, p), HasToken(p.token))
  }

  lemma CoversAre(s: Store, p: Presented)
    ensures Covers(s, p) != [] <==> exists i: nat :: CoverAt(s, p, i)
    ensures forall f: nat | FirstCover(s, p, f) :: Covers(s, p) != [] && Covers(s, p)[0] == s.rows[f]
  {
    var both := Both(LiveUnder(p.lease, s.clock), InScope(p.scope));
    KeepTwice(s.rows, LiveUnder(p.lease, s.clock), InScope(p.scope));
    FoundAt(s, p, both, (i: nat) => CoverAt(s, p, i));
  }

  /** What is kept, and the first of it, by position. */
  lemma FoundAt(s: Store, p: Presented, test: Row -> bool, at: nat -> bool)
    requires forall i: nat | i < |s.rows| :: test(s.rows[i]) == at(i)
    requires forall i: nat | at(i) :: i < |s.rows|
    ensures Keep(s.rows, test) != [] <==> exists i: nat :: at(i)
    ensures forall f: nat | at(f) && (forall i: nat | i < f :: !at(i)) ::
      Keep(s.rows, test) != [] && Keep(s.rows, test)[0] == s.rows[f]
  {
    var kept := Keep(s.rows, test);
    if kept != [] {
      assert kept[0] in kept;
      var i: nat :| i < |s.rows| && s.rows[i] == kept[0];
      assert at(i);
    }
    forall f: nat | at(f) && (forall i: nat | i < f :: !at(i)) ensures kept != [] && kept[0] == s.rows[f] {
      KeepsFirst(s.rows, test, f);
    }
    if i: nat :| at(i) {
      assert s.rows[i] in kept;
    }
  }

  lemma MatchingAre(s: Store, p: Presented)
    ensures Matching(s, p) != [] <==> exists i: nat :: CoverAt(s, p, i) && s.rows[i].token == p.token
    ensures forall m: nat | FirstMatch(s, p, m) :: Matching(s, p) != [] && Matching(s, p)[0] == s.rows[m]
  {
    var cover := Both(LiveUnder(p.lease, s.clock), InScope(p.scope));
    KeepTwice(s.rows, LiveUnder(p.lease, s.clock), InScope(p.scope));
    KeepTwice(s.rows, cover, HasToken(p.token));
    var at := (i: nat) => CoverAt(s, p, i) && s.rows[i].token == p.token;
    FoundAt(s, p, Both(cover, HasToken(p.token)), at);
    assert forall i: nat :: at(i) <==> CoverAt(s, p, i) && s.rows[i].token == p.token;
  }

  lemma OutrankedIff(s: Store, p: Presented, vm: string)
    ensures p.token < StoredMax(s.rows, vm, p.scope) <==>
      Outranked(s, p, vm) || (p.token < 0 && StoredMax(s.rows, vm, p.scope) == 0)
  {}

  /** Every answer to a presented token, in the order in which the refusals are tried:
      whose the lease is, whether it is live, whether it covers the scope, whether the token
      is outranked or carried by no covering row, whether it is for the caller's VM. */
  lemma AuthorizeOutcome(s: Store, p: Presented)
    ensures !AnyUnder(s, p.lease) ==> Authorize(s, p) == Err(Unknown)
    ensures AnyUnder(s, p.lease) && !Owns(s, p.lease, p.agent) ==> Authorize(s, p) == Err(NotOwned)
    ensures Owns(s, p.lease, p.agent) && !AnyLive(s, p.lease) ==> Authorize(s, p) == Err(Expired)
    ensures Owns(s, p.lease, p.agent) && AnyLive(s, p.lease) && !(exists i: nat :: CoverAt(s, p, i)) ==>
      Authorize(s, p).Err? && Tells(Authorize(s, p).error, LiveOf(s.rows, p.lease, s.clock), s.clock)
    ensures forall f: nat | FirstCover(s, p, f) && Owns(s, p.lease, p.agent) ::
      if Outranked(s, p, s.rows[f].vm) || (forall i: nat | CoverAt(s, p, i) :: s.rows[i].token != p.token) then
        Authorize(s, p) == Err(Fenced)
      else forall m: nat | FirstMatch(s, p, m) ::
        if Addresses(p, s.rows[m]) then Authorize(s, p) == Ok(s.rows[m])
        else Authorize(s, p).Err? && Tells(Authorize(s, p).error, [s.rows[m]], s.clock)
  {
    hide Authorize, AnyUnder, AnyLive, Owns, Covers, Matching, Addresses, Tells, LiveOf, FirstMatch, Outranked;
    AuthorizeUnfolds(s, p);
    OwnershipIff(s, p.lease, p.agent);
    LiveIsUnder(s, p.lease);
    CoversAre(s, p);
    MatchingAre(s, p);
    forall f: nat | FirstCover(s, p, f) ensures AnyLive(s, p.lease) {
      CoverIsLive(s, p, f);
    }
    forall f: nat | FirstCover(s, p, f) ensures
      (p.token < StoredMax(s.rows, s.rows[f].vm, p.scope) || Matching(s, p) == []) ==
      (Outranked(s, p, s.rows[f].vm) || Matching(s, p) == []) {
      OutrankedIff(s, p, s.rows[f].vm);
      assert forall i: nat :: CoverAt(s, p, i) && s.rows[i].token == p.token ==> p.token >= 0;
    }
  }

  lemma CoverIsLive(s: Store, p: Presented, i: nat)
    requires CoverAt(s, p, i)
    ensures AnyLive(s, p.lease)
  {}

  lemma AuthorizeUnfolds(s: Store, p: Presented)
    ensures var res, covers, matching := Authorize(s, p), Covers(s, p), Matching(s, p);
      if !AnyUnder(s, p.lease) then res == Err(Unknown)
      else if !Owns(s, p.lease, p.agent) then res == Err(NotOwned)
      else if !AnyLive(s, p.lease) then res == Err(Expired)
      else if covers == [] then
        res.Err? && Tells(res.error, LiveOf(s.rows, p.lease, s.clock), s.clock)
      else if p.token < StoredMax(s.rows, covers[0].vm, p.scope) || matching == [] then res == Err(Fenced)
      else if Addresses(p, matching[0]) then res == Ok(matching[0])
      else res.Err? && Tells(res.error, [matching[0]], s.clock)
  {
    hide AnyUnder, AnyLive, Owns, OwnedRows, StoredMax, MatchesHint, Addresses, Tells, LiveOf, ConflictFrom, Keep;
    OwnershipIff(s, p.lease, p.agent);
    LiveIsUnder(s, p.lease);
    var live, matching := LiveOf(s.rows, p.lease, s.clock), Matching(s, p);
    if live != [] {
      ConflictTells(live, s.clock);
    }
    if matching != [] {
      HintIsAddress(p, matching[0]);
      ConflictTells([matching[0]], s.clock);
    }
  }
}
