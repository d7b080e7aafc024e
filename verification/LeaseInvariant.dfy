/** The lease protocol as a transition system, and the invariant every run keeps. */
module LeaseInvariant {
  import opened Common
  import opened LeaseModel

  // ---- the transition system ---------------------------------------------

  /** One atomic step. `now` is a clock read taken before the step's transaction, so
      it may be older than the store's clock; renew reads the clock inside. Release
      reads the lease's owner before its transaction, so its delete is a step of its
      own, free to come at any later time. */
  datatype Step =
    | Tick(to: real)
    | AcquireStep(limits: Limits, req: Request, now: real, lease: string)
    | RenewStep(lease: string, agent: Option<string>)
    | DeleteStep(lease: string)
    | SweepStep(horizon: real)
    | BeginCallStep(proto: Row, now: real)
    | TouchStep(key: nat, ttl: int, now: real)
    | EndCallStep(key: nat)

  predicate IsCallKey(s: Store, key: nat) {
    forall r :: r in s.rows && r.key == key ==> r.kind.Call?
  }

  predicate Enabled(s: Store, step: Step) {
    match step
    case Tick(to) => s.clock <= to
    // Lease ids are minted at random: an acquire's id has never been written before.
    case AcquireStep(_, _, now, lease) => now <= s.clock && lease !in s.ids
    case BeginCallStep(proto, now) => proto.kind.Call? && proto.acquiredAt == now <= s.clock
    // A heartbeat holds the row key begin_call_row handed out.
    case TouchStep(key, _, now) => now <= s.clock && IsCallKey(s, key)
    case EndCallStep(key) => IsCallKey(s, key)
    case _ => true
  }

  function Next(s: Store, step: Step): Store
    requires Enabled(s, step)
  {
    match step
    case Tick(to) => s.(clock := to)
    case AcquireStep(limits, req, now, lease) => Acquire(s, limits, req, now, lease).0
    case RenewStep(lease, agent) => Renew(s, lease, agent).0
    case DeleteStep(lease) => DeleteLease(s, lease)
    case SweepStep(horizon) => Sweep(s, horizon)
    case BeginCallStep(proto, now) => BeginCall(s, proto, now).0
    case TouchStep(key, ttl, now) => Touch(s, key, Later(now, ttl))
    case EndCallStep(key) => EndCall(s, key)
  }

  predicate IsInit(s: Store) {
    s.rows == [] && s.log == [] && s.counters == map[] && s.ids == {}
  }

  predicate IsRun(states: seq<Store>, steps: seq<Step>) {
    && |states| == |steps| + 1
    && IsInit(states[0])
    && forall i | 0 <= i < |steps| :: Enabled(states[i], steps[i]) && states[i + 1] == Next(states[i], steps[i])
  }

  // ---- the invariant -----------------------------------------------------

  predicate SameGrant(r: Row, g: Row) {
    r == g.(expiresAt := r.expiresAt)
  }

  predicate SamePair(a: Row, b: Row) {
    a.vm == b.vm && a.scope == b.scope
  }

  predicate InKeyOrder(rows: seq<Row>) {
    forall i, j | 0 <= i < j < |rows| :: rows[i].key < rows[j].key
  }

  /** Every stored row is a logged grant with its expiry moved, in commit order. */
  predicate RowsFromLog(s: Store) {
    && InKeyOrder(s.rows)
    && (forall r | r in s.rows :: r.key < |s.log| && SameGrant(r, s.log[r.key]))
  }

  predicate LogFacts(s: Store) {
    forall k | 0 <= k < |s.log| ::
      && s.log[k].key == k
      && s.log[k].acquiredAt <= s.clock
      && s.log[k].lease in s.ids
      && 1 <= s.log[k].token <= Counter(s, s.log[k].vm, s.log[k].scope)
  }

  /** Tokens of a (VM, scope) strictly increase in commit order, call rows included. */
  predicate TokensIncrease(log: seq<Row>) {
    forall j, k | 0 <= j < k < |log| && SamePair(log[j], log[k]) :: log[j].token < log[k].token
  }

  /** An explicit row comes before anything else written under its lease id, and one
      lease has at most one explicit row per scope, all on one VM. */
  predicate LeaseShape(log: seq<Row>) {
    forall j, k | 0 <= j < k < |log| && log[j].lease == log[k].lease && log[k].kind.Explicit? ::
      log[j].kind.Explicit? && log[j].vm == log[k].vm && log[j].scope != log[k].scope
  }

  /** Rows of the given kind are over before any conflicting later grant began. */
  predicate Separated(s: Store, kind: Kind, later: Kind) {
    forall r, k | r in s.rows && r.kind == kind && r.key < k < |s.log|
                  && s.log[k].kind == later && Conflicts(r, s.log[k]) ::
      r.expiresAt <= s.log[k].acquiredAt
  }

  predicate Inv(s: Store) {
    && RowsFromLog(s) && LogFacts(s) && TokensIncrease(s.log) && LeaseShape(s.log)
    && Separated(s, Explicit, Explicit) && Separated(s, Explicit, Call)
  }

  // ---- preservation, one operation at a time -----------------------------

  lemma {:induction false} KeepOrder(rows: seq<Row>, p: Row -> bool)
    requires InKeyOrder(rows)
    ensures InKeyOrder(Keep(rows, p))
  {
    if rows != [] {
      var init, last := rows[..|rows| - 1], rows[|rows| - 1];
      KeepOrder(init, p);
      var front := Keep(init, p);
      forall i | 0 <= i < |front| ensures front[i].key < last.key {
        assert front[i] in init;
      }
    }
  }

  lemma {:induction false} KeepsNone(rows: seq<Row>, p: Row -> bool)
    requires forall r :: r in rows ==> !p(r)
    ensures Keep(rows, p) == []
  {
    if rows != [] {
      KeepsNone(rows[..|rows| - 1], p);
    }
  }

  lemma DeletingKeepsInv(s: Store, p: Row -> bool)
    requires Inv(s)
    ensures Inv(Kept(s, p))
  {
    KeepOrder(s.rows, p);
  }

  /** Moving expiries keeps the invariant when only call rows or live rows move. */
  lemma RetimingKeepsInv(s: Store, p: Row -> bool, expiry: real)
    requires Inv(s)
    requires forall r :: r in s.rows && p(r) ==> r.kind.Call? || r.expiresAt > s.clock
    ensures Inv(Retimed(s, p, expiry))
  {
    var t := Retimed(s, p, expiry);
    RetimedFromLog(s, p, expiry);
    RetimedSeparated(s, p, expiry, Explicit, Explicit);
    RetimedSeparated(s, p, expiry, Explicit, Call);
    assert LogFacts(t);
  }

  /** Where a retimed row came from. */
  lemma RetimedRow(rows: seq<Row>, p: Row -> bool, expiry: real, r: Row) returns (q: Row)
    requires r in Retime(rows, p, expiry)
    ensures q in rows && r == if p(q) then q.(expiresAt := expiry) else q
  {
    var i :| 0 <= i < |rows| && Retime(rows, p, expiry)[i] == r;
    q := rows[i];
  }

  lemma RetimedFromLog(s: Store, p: Row -> bool, expiry: real)
    requires RowsFromLog(s)
    ensures RowsFromLog(Retimed(s, p, expiry))
  {
    forall r | r in Retime(s.rows, p, expiry) ensures r.key < |s.log| && SameGrant(r, s.log[r.key]) {
      var q := RetimedRow(s.rows, p, expiry, r);
    }
  }

  lemma RetimedSeparated(s: Store, p: Row -> bool, expiry: real, kind: Kind, later: Kind)
    requires RowsFromLog(s) && LogFacts(s) && Separated(s, kind, later)
    requires forall r :: r in s.rows && p(r) && r.kind == kind ==> r.expiresAt > s.clock
    ensures Separated(Retimed(s, p, expiry), kind, later)
  {
    forall r, k | r in Retime(s.rows, p, expiry) && r.kind == kind && r.key < k < |s.log|
                  && s.log[k].kind == later && Conflicts(r, s.log[k])
      ensures r.expiresAt <= s.log[k].acquiredAt
    {
      var q := RetimedRow(s.rows, p, expiry, r);
      assert Conflicts(q, s.log[k]);
      assert q.expiresAt <= s.log[k].acquiredAt <= s.clock;
    }
  }

  /** Inserting a row that no earlier explicit row still covers. */
  lemma InsertKeepsInv(s: Store, proto: Row)
    requires Inv(s) && proto.acquiredAt <= s.clock
    requires forall r :: r in s.rows && r.kind.Explicit? && Conflicts(r, proto) ==> r.expiresAt <= proto.acquiredAt
    requires proto.kind.Explicit? ==>
      forall k | 0 <= k < |s.log| && s.log[k].lease == proto.lease ::
        s.log[k].kind.Explicit? && s.log[k].vm == proto.vm && s.log[k].scope != proto.scope
    ensures Inv(Insert(s, proto))
  {
    InsertFromLog(s, proto);
    InsertLogFacts(s, proto);
    InsertTokens(s, proto);
    InsertShape(s, proto);
    InsertSeparated(s, proto, Explicit, Explicit);
    InsertSeparated(s, proto, Explicit, Call);
  }

  lemma InsertFromLog(s: Store, proto: Row)
    requires RowsFromLog(s)
    ensures RowsFromLog(Insert(s, proto))
  {
    forall i | 0 <= i < |s.rows| ensures s.rows[i].key < |s.log| {
      assert s.rows[i] in s.rows;
    }
  }

  lemma InsertLogFacts(s: Store, proto: Row)
    requires LogFacts(s) && proto.acquiredAt <= s.clock
    ensures LogFacts(Insert(s, proto))
  {
    var t := Insert(s, proto);
    forall k | 0 <= k < |s.log|
      ensures Counter(s, s.log[k].vm, s.log[k].scope) <= Counter(t, s.log[k].vm, s.log[k].scope)
    {
    }
  }

  lemma InsertTokens(s: Store, proto: Row)
    requires LogFacts(s) && TokensIncrease(s.log)
    ensures TokensIncrease(Insert(s, proto).log)
  {
  }

  lemma InsertShape(s: Store, proto: Row)
    requires LeaseShape(s.log)
    requires proto.kind.Explicit? ==>
      forall k | 0 <= k < |s.log| && s.log[k].lease == proto.lease ::
        s.log[k].kind.Explicit? && s.log[k].vm == proto.vm && s.log[k].scope != proto.scope
    ensures LeaseShape(Insert(s, proto).log)
  {
  }

  lemma InsertSeparated(s: Store, proto: Row, kind: Kind, later: Kind)
    requires RowsFromLog(s) && Separated(s, kind, later)
    requires proto.kind == later ==> forall r :: r in s.rows && r.kind == kind && Conflicts(r, proto) ==>
      r.expiresAt <= proto.acquiredAt
    ensures Separated(Insert(s, proto), kind, later)
  {
    var t := Insert(s, proto);
    forall r, k | r in t.rows && r.kind == kind && r.key < k < |t.log|
                  && t.log[k].kind == later && Conflicts(r, t.log[k])
      ensures r.expiresAt <= t.log[k].acquiredAt
    {
      assert r in s.rows;
      if k == |s.log| {
        assert Conflicts(r, proto);
      } else {
        assert t.log[k] == s.log[k];
      }
    }
  }

  predicate Unblocked(s: Store, proto: Row, scope: string) {
    forall r :: r in s.rows && r.kind.Explicit? && Conflicts(r, proto.(scope := scope)) ==>
      r.expiresAt <= proto.acquiredAt
  }

  lemma ConflictsSymmetric(a: Row, b: Row)
    ensures Conflicts(a, b) == Conflicts(b, a)
  {
  }

  lemma NotRefusedUnblocked(rows: seq<Row>, proto: Row, scopes: seq<string>, now: real, x: string)
    requires FirstRefusal(rows, proto, scopes, now).None? && x in scopes
    ensures Blockers(rows, proto.(scope := x), now, true) == []
  {
    if x != scopes[|scopes| - 1] {
      NotRefusedUnblocked(rows, proto, scopes[..|scopes| - 1], now, x);
    }
  }

  lemma NoBlockersMeansOver(rows: seq<Row>, mine: Row, now: real, explicitOnly: bool, r: Row)
    requires Blockers(rows, mine, now, explicitOnly) == []
    requires r in rows && Conflicts(r, mine) && (explicitOnly ==> r.kind.Explicit?)
    ensures r.expiresAt <= now
  {
    assert Conflicts(mine, r);
    assert r !in Blockers(rows, mine, now, explicitOnly);
  }

  /** The rows a grant writes are its own: explicit, under its id, on its VM, in its
      scopes. */
  predicate OnlyGrants(s: Store, t: Store, proto: Row, scopes: seq<string>) {
    && (forall r :: r in t.rows && r !in s.rows ==> r.lease == proto.lease)
    && (forall k | 0 <= k < |t.log| && t.log[k].lease == proto.lease ::
         t.log[k].kind.Explicit? && t.log[k].vm == proto.vm && t.log[k].scope in scopes)
  }

  lemma NothingGranted(s: Store, proto: Row)
    requires LogFacts(s) && proto.lease !in s.ids
    ensures OnlyGrants(s, s, proto, [])
  {}

  lemma InsertOnlyGrants(s: Store, mid: Store, proto: Row, front: seq<string>, last: string)
    requires OnlyGrants(s, mid, proto, front) && proto.kind.Explicit?
    ensures OnlyGrants(s, Insert(mid, proto.(scope := last)), proto, front + [last])
  {}

  lemma {:induction false} InsertAllOnlyGrants(s: Store, proto: Row, scopes: seq<string>)
    requires LogFacts(s) && proto.lease !in s.ids && proto.kind.Explicit?
    ensures OnlyGrants(s, InsertAll(s, proto, scopes), proto, scopes)
  {
    hide OnlyGrants, Insert;
    if scopes == [] {
      NothingGranted(s, proto);
    } else {
      var front, last := scopes[..|scopes| - 1], scopes[|scopes| - 1];
      InsertAllOnlyGrants(s, proto, front);
      InsertOnlyGrants(s, InsertAll(s, proto, front), proto, front, last);
      assert scopes == front + [last];
    }
  }

  /** What was unblocked before a grant's first rows is not blocked by them. */
  lemma StillUnblocked(s: Store, mid: Store, proto: Row, scopes: seq<string>, x: string)
    requires OnlyGrants(s, mid, proto, scopes) && Unblocked(s, proto, x)
    ensures Unblocked(mid, proto, x)
  {}

  lemma GrantedInsertKeepsInv(mid: Store, proto: Row, x: string, s: Store, front: seq<string>)
    requires Inv(mid) && proto.kind.Explicit? && proto.acquiredAt <= mid.clock
    requires OnlyGrants(s, mid, proto, front) && x !in front && Unblocked(mid, proto, x)
    ensures Inv(Insert(mid, proto.(scope := x)))
  {
    hide Inv, Insert;
    InsertKeepsInv(mid, proto.(scope := x));
  }

  lemma {:induction false} InsertAllKeepsInv(s: Store, proto: Row, scopes: seq<string>)
    requires Inv(s) && proto.kind.Explicit? && proto.acquiredAt <= s.clock && proto.lease !in s.ids
    requires forall i, j | 0 <= i < j < |scopes| :: scopes[i] != scopes[j]
    requires forall x :: x in scopes ==> Unblocked(s, proto, x)
    ensures Inv(InsertAll(s, proto, scopes))
  {
    assert LogFacts(s);
    hide Inv, LogFacts, Insert, OnlyGrants, Unblocked;
    if scopes != [] {
      var front, last := scopes[..|scopes| - 1], scopes[|scopes| - 1];
      var mid := InsertAll(s, proto, front);
      InsertAllKeepsInv(s, proto, front);
      InsertAllOnlyGrants(s, proto, front);
      StillUnblocked(s, mid, proto, front, last);
      GrantedInsertKeepsInv(mid, proto, last, s, front);
    }
  }

  lemma AcquireKeepsInv(s: Store, limits: Limits, req: Request, now: real, lease: string)
    requires Inv(s) && now <= s.clock && lease !in s.ids
    ensures Inv(Acquire(s, limits, req, now, lease).0)
  {
    var wanted := Dedupe(req.scopes);
    if Acquire(s, limits, req, now, lease).1.Ok? {
      var proto := Proto(req, lease, now, Ttl(limits, req.ttl).value);
      forall x | x in wanted ensures Unblocked(s, proto, x) {
        NotRefusedUnblocked(s.rows, proto, wanted, now, x);
        forall r | r in s.rows && r.kind.Explicit? && Conflicts(r, proto.(scope := x)) ensures r.expiresAt <= now {
          NoBlockersMeansOver(s.rows, proto.(scope := x), now, true, r);
        }
      }
      InsertAllKeepsInv(s, proto, wanted);
    }
  }

  lemma BeginCallKeepsInv(s: Store, proto: Row, now: real)
    requires Inv(s) && proto.kind.Call? && proto.acquiredAt == now <= s.clock
    ensures Inv(BeginCall(s, proto, now).0)
  {
    if BeginCall(s, proto, now).1.Ok? {
      forall r | r in s.rows && r.kind.Explicit? && Conflicts(r, proto) ensures r.expiresAt <= now {
        NoBlockersMeansOver(s.rows, proto, now, false, r);
      }
      InsertKeepsInv(s, proto);
    }
  }

  /** A renewal only moves the expiries of rows that are live. */
  lemma ExtendedKeepsInv(s: Store, lease: string)
    requires Inv(s)
    ensures Inv(Extended(s, lease))
  {
    hide Inv, Later;
    var live := LiveOf(s.rows, lease, s.clock);
    if live != [] {
      RetimingKeepsInv(s, LiveUnder(lease, s.clock), Later(s.clock, live[0].ttl));
    }
  }

  lemma RenewExtends(s: Store, lease: string, agent: Option<string>)
    ensures Renew(s, lease, agent).0 == s || Renew(s, lease, agent).0 == Extended(s, lease)
  {
    hide Extended, OwnedRows;
  }

  lemma RenewKeepsInv(s: Store, step: Step)
    requires Inv(s) && step.RenewStep?
    ensures Inv(Next(s, step))
  {
    hide Inv, Renew, Extended;
    RenewExtends(s, step.lease, step.agent);
    ExtendedKeepsInv(s, step.lease);
  }

  lemma TickKeepsInv(s: Store, step: Step)
    requires Inv(s) && step.Tick? && Enabled(s, step)
    ensures Inv(Next(s, step))
  {
    assert LogFacts(Next(s, step));
    assert RowsFromLog(Next(s, step));
  }

  lemma TouchKeepsInv(s: Store, step: Step)
    requires Inv(s) && step.TouchStep? && Enabled(s, step)
    ensures Inv(Next(s, step))
  {
    hide Inv, Later;
    RetimingKeepsInv(s, HasKey(step.key), Later(step.now, step.ttl));
  }

  lemma RemovalKeepsInv(s: Store, step: Step)
    requires Inv(s) && Enabled(s, step)
    requires step.DeleteStep? || step.SweepStep? || step.EndCallStep?
    ensures Inv(Next(s, step))
  {
    hide Inv;
    match step {
      case DeleteStep(lease) => DeletingKeepsInv(s, NotGranted(lease));
      case SweepStep(horizon) => DeletingKeepsInv(s, NotBefore(horizon));
      case EndCallStep(key) => DeletingKeepsInv(s, LacksKey(key));
    }
  }

  lemma GrantKeepsInv(s: Store, step: Step)
    requires Inv(s) && Enabled(s, step)
    requires step.AcquireStep? || step.BeginCallStep?
    ensures Inv(Next(s, step))
  {
    hide Inv, Acquire, BeginCall;
    match step {
      case AcquireStep(limits, req, now, lease) => AcquireKeepsInv(s, limits, req, now, lease);
      case BeginCallStep(proto, now) => BeginCallKeepsInv(s, proto, now);
    }
  }

  lemma StepKeepsInv(s: Store, step: Step)
    requires Inv(s) && Enabled(s, step)
    ensures Inv(Next(s, step))
  {
    hide Inv, Next;
    if step.AcquireStep? || step.BeginCallStep? {
      GrantKeepsInv(s, step);
    } else if step.Tick? {
      TickKeepsInv(s, step);
    } else if step.RenewStep? {
      RenewKeepsInv(s, step);
    } else if step.TouchStep? {
      TouchKeepsInv(s, step);
    } else {
      RemovalKeepsInv(s, step);
    }
  }

  /** Every state of every run satisfies the invariant. */
  lemma {:induction false} RunKeepsInv(states: seq<Store>, steps: seq<Step>, i: nat)
    requires IsRun(states, steps) && i < |states|
    ensures Inv(states[i])
  {
    if i > 0 {
      hide Next, Inv;
      RunKeepsInv(states, steps, i - 1);
      StepKeepsInv(states[i - 1], steps[i - 1]);
    }
  }

  /** The history only grows along a run. */
  lemma {:induction false} LogGrows(states: seq<Store>, steps: seq<Step>, i: nat, j: nat)
    requires IsRun(states, steps) && i <= j < |states|
    ensures states[i].log <= states[j].log
  {
    hide Next;
    if i < j {
      LogGrows(states, steps, i, j - 1);
      StepLogGrows(states[j - 1], steps[j - 1]);
    }
  }

  lemma StepLogGrows(s: Store, step: Step)
    requires Enabled(s, step)
    ensures s.log <= Next(s, step).log
  {
    if step.RenewStep? {
      RenewExtends(s, step.lease, step.agent);
    }
  }
}
