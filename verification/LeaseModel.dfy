/** The lease table, its fencing counters and every operation on them, as values.

    A `Store` is the durable table plus two histories no row deletion can erase:
    `log`, every row ever inserted, as inserted, in commit order; and `ids`, every
    lease id ever written. Row keys are random in the program and only their
    uniqueness matters, so here a key is the row's position in the log. Rows stay
    in insertion order, the order in which the table's queries return them. */
module LeaseModel {
  import opened Common

  const LIFECYCLE := "lifecycle"
  const SCOPES: seq<string> := [LIFECYCLE, "guest_exec", "transfer", "console"]

  datatype Kind = Explicit | Call

  datatype Row = Row(
    key: nat, lease: string, vm: string, vmName: string, scope: string,
    holder: Option<string>, token: nat, acquiredAt: real, ttl: int,
    expiresAt: real, kind: Kind, write: bool)

  datatype LeaseError =
    | Invalid
    | Unknown
    | Expired
    | NotOwned
    | Fenced
    | Busy
    | Conflict(holder: Option<string>, scopes: set<string>, expiresAt: real, retryAfterMs: int)

  datatype Store = Store(
    rows: seq<Row>, counters: map<(string, string), nat>, clock: real,
    log: seq<Row>, ids: set<string>)

  function Later(now: real, ttl: int): real {
    now + ttl as real
  }

  datatype Limits = Limits(defaultTtl: int, maxTtl: int)

  datatype Request = Request(
    vm: string, vmName: string, scopes: seq<string>, agent: Option<string>, ttl: Option<int>)

  // ---- the conflict rule -------------------------------------------------

  /** Do two unexpired rows block each other? */
  predicate Conflicts(a: Row, b: Row) {
    if a.vm != b.vm then false
    else if a.lease == b.lease then false
    else if a.holder.Some? && a.holder == b.holder then false
    else if a.kind.Call? && b.kind.Call? then a.write || b.write
    else if a.scope == LIFECYCLE || b.scope == LIFECYCLE then true
    else a.scope == b.scope
  }

  /** The table's candidate query: unexpired rows of a VM that are not the caller's
      own. An unattributed caller owns nothing, so every row is a candidate. */
  predicate Candidate(r: Row, vm: string, now: real, agent: Option<string>) {
    r.vm == vm && r.expiresAt > now && (agent.None? || r.holder != agent)
  }

  // ---- row selection -----------------------------------------------------

  function Retime(rows: seq<Row>, p: Row -> bool, expiry: real): (out: seq<Row>)
    ensures |out| == |rows|
    ensures forall i | 0 <= i < |rows| ::
      out[i] == if p(rows[i]) then rows[i].(expiresAt := expiry) else rows[i]
  {
    seq(|rows|, i requires 0 <= i < |rows| =>
      if p(rows[i]) then rows[i].(expiresAt := expiry) else rows[i])
  }

  // The tests the queries make, named so that a proof can point at one.

  function Blocks(mine: Row, now: real, explicitOnly: bool): Row -> bool {
    (r: Row) => Candidate(r, mine.vm, now, mine.holder)
         && (explicitOnly ==> r.kind.Explicit?)
         && Conflicts(mine, r)
  }

  function LiveUnder(lease: string, now: real): Row -> bool {
    (r: Row) => r.lease == lease && r.expiresAt > now
  }

  function ExpiredUnder(lease: string, now: real): Row -> bool {
    (r: Row) => r.lease == lease && r.expiresAt <= now
  }

  function NotGranted(lease: string): Row -> bool {
    (r: Row) => !(r.lease == lease && r.kind.Explicit?)
  }

  function NotBefore(horizon: real): Row -> bool {
    (r: Row) => !(r.expiresAt < horizon)
  }

  function HasKey(key: nat): Row -> bool {
    (r: Row) => r.key == key
  }

  function LacksKey(key: nat): Row -> bool {
    (r: Row) => r.key != key
  }

  function InScope(scope: string): Row -> bool {
    (r: Row) => r.scope == scope
  }

  function HasToken(token: int): Row -> bool {
    (r: Row) => r.token == token
  }

  function Blockers(rows: seq<Row>, mine: Row, now: real, explicitOnly: bool): seq<Row> {
    Keep(rows, Blocks(mine, now, explicitOnly))
  }

  // ---- refusals ----------------------------------------------------------

  /** The first attributed holder among the blocking rows. */
  function FirstHolder(rows: seq<Row>): Option<string> {
    if rows == [] then None
    else if rows[0].holder.Some? then rows[0].holder
    else FirstHolder(rows[1..])
  }

  function LatestExpiry(rows: seq<Row>): (t: real)
    requires rows != []
    ensures exists r :: r in rows && r.expiresAt == t
    ensures forall r :: r in rows ==> r.expiresAt <= t
  {
    if |rows| == 1 then rows[0].expiresAt else
      var rest := LatestExpiry(rows[1..]);
      if rows[0].expiresAt > rest then
        rows[0].expiresAt
      else
        var r :| r in rows[1..] && r.expiresAt == rest;
        assert r in rows;
        rest
  }

  function ConflictFrom(rows: seq<Row>, now: real): LeaseError
    requires rows != []
  {
    var ms := ((LatestExpiry(rows) - now) * 1000.0).Floor;
    Conflict(FirstHolder(rows), set r | r in rows :: r.scope, LatestExpiry(rows),
             if ms < 0 then 0 else ms)
  }

  function Retimed(s: Store, p: Row -> bool, expiry: real): Store {
    s.(rows := Retime(s.rows, p, expiry))
  }

  function Kept(s: Store, p: Row -> bool): Store {
    s.(rows := Keep(s.rows, p))
  }

  // ---- fencing counters and inserts --------------------------------------

  function Counter(s: Store, vm: string, scope: string): nat {
    if (vm, scope) in s.counters then s.counters[(vm, scope)] else 0
  }

  /** Bump the (vm, scope) counter and insert the row with the new token. */
  function Insert(s: Store, proto: Row): Store {
    var row := proto.(key := |s.log|, token := Counter(s, proto.vm, proto.scope) + 1);
    Store(s.rows + [row], s.counters[(row.vm, row.scope) := row.token], s.clock,
          s.log + [row], s.ids + {row.lease})
  }

  function InsertAll(s: Store, proto: Row, scopes: seq<string>): (t: Store)
    ensures s.rows <= t.rows && |t.rows| == |s.rows| + |scopes|
    ensures s.log <= t.log && |t.log| == |s.log| + |scopes|
    ensures t.clock == s.clock
  {
    if scopes == [] then s
    else Insert(InsertAll(s, proto, scopes[..|scopes| - 1]), proto.(scope := scopes[|scopes| - 1]))
  }

  // ---- acquire -----------------------------------------------------------

  /** First occurrences, in order: the request's scopes without duplicates. */
  function Dedupe(xs: seq<string>): (r: seq<string>)
    ensures forall x :: x in r <==> x in xs
    ensures forall i, j | 0 <= i < j < |r| :: r[i] != r[j]
  {
    if xs == [] then [] else
      var front := Dedupe(xs[..|xs| - 1]);
      var last := xs[|xs| - 1];
      if last in front then front else front + [last]
  }

  /** The result holds the request's scopes and no others, each once, in the order of their
      first occurrences: one never occurs in the request before those it follows. */
  lemma DedupeIsFirstOccurrences(xs: seq<string>)
    ensures forall x :: x in Dedupe(xs) <==> x in xs
    ensures forall i, j | 0 <= i < j < |Dedupe(xs)| :: Dedupe(xs)[i] != Dedupe(xs)[j]
    ensures forall i, j, k | 0 <= i < j < |Dedupe(xs)| && 0 <= k < |xs| && xs[k] == Dedupe(xs)[j] ::
      Dedupe(xs)[i] in xs[..k]
  {
    forall i, j, k | 0 <= i < j < |Dedupe(xs)| && 0 <= k < |xs| && xs[k] == Dedupe(xs)[j]
      ensures Dedupe(xs)[i] in xs[..k]
    {
      DedupeKeepsOrder(xs, i, j, k);
    }
  }

  lemma {:induction false} DedupeKeepsOrder(xs: seq<string>, i: nat, j: nat, k: nat)
    requires i < j < |Dedupe(xs)| && k < |xs| && xs[k] == Dedupe(xs)[j]
    ensures Dedupe(xs)[i] in xs[..k]
  {
    var init := xs[..|xs| - 1];
    if k < |init| {
      assert init[k] in init;
      assert j < |Dedupe(init)|;
      DedupeKeepsOrder(init, i, j, k);
      assert init[..k] == xs[..k];
    } else {
      assert i < |Dedupe(init)| && Dedupe(xs)[i] == Dedupe(init)[i];
      assert Dedupe(init)[i] in Dedupe(init);
    }
  }

  function Ttl(limits: Limits, ttl: Option<int>): Option<int> {
    match ttl
    case None => Some(limits.defaultTtl)
    case Some(v) => if v <= 0 || v > limits.maxTtl then None else Some(v)
  }

  function Proto(req: Request, lease: string, now: real, ttl: int): Row {
    Row(0, lease, req.vm, req.vmName, "", req.agent, 0, now, ttl, Later(now, ttl), Explicit, false)
  }

  /** The refusal of the first wanted scope that is blocked, if any is. */
  function FirstRefusal(rows: seq<Row>, proto: Row, scopes: seq<string>, now: real): Option<LeaseError> {
    if scopes == [] then None else
      var front := FirstRefusal(rows, proto, scopes[..|scopes| - 1], now);
      if front.Some? then front else
        var blocking := Blockers(rows, proto.(scope := scopes[|scopes| - 1]), now, true);
        if blocking == [] then None else Some(ConflictFrom(blocking, now))
  }

  predicate KnownScopes(scopes: seq<string>) {
    forall x :: x in scopes ==> x in SCOPES
  }

  /** Grant every wanted scope or refuse and change nothing. `now` is the clock read
      made before the transaction, so it may be older than the store's clock. */
  function Acquire(s: Store, limits: Limits, req: Request, now: real, lease: string)
    : (Store, Result<seq<Row>, LeaseError>)
  {
    var wanted := Dedupe(req.scopes);
    if wanted == [] || !KnownScopes(wanted) || Ttl(limits, req.ttl).None? then
      (s, Err(Invalid))
    else
      var proto := Proto(req, lease, now, Ttl(limits, req.ttl).value);
      var refusal := FirstRefusal(s.rows, proto, wanted, now);
      if refusal.Some? then
        (s, Err(refusal.value))
      else
        var t := InsertAll(s, proto, wanted);
        (t, Ok(t.rows[|s.rows|..]))
  }

  // ---- ownership, renew, release, authorize ------------------------------

  function LiveOf(rows: seq<Row>, lease: string, now: real): seq<Row> {
    Keep(rows, LiveUnder(lease, now))
  }

  function ExpiredOf(rows: seq<Row>, lease: string, now: real): seq<Row> {
    Keep(rows, ExpiredUnder(lease, now))
  }

  predicate AllHeldBy(rows: seq<Row>, agent: Option<string>) {
    forall r :: r in rows ==> r.holder == agent
  }

  /** The caller's live rows of a lease id; `Ok([])` when they have all expired. */
  function OwnedRows(rows: seq<Row>, lease: string, agent: Option<string>, now: real)
    : Result<seq<Row>, LeaseError>
  {
    var live := LiveOf(rows, lease, now);
    var expired := ExpiredOf(rows, lease, now);
    if live != [] then (if AllHeldBy(live, agent) then Ok(live) else Err(NotOwned))
    else if expired == [] then Err(Unknown)
    else if AllHeldBy(expired, agent) then Ok([])
    else Err(NotOwned)
  }

  /** Every live row under the lease id moved to the first row's own ttl from now. */
  function Extended(s: Store, lease: string): Store {
    var live := LiveOf(s.rows, lease, s.clock);
    if live == [] then s
    else Retimed(s, LiveUnder(lease, s.clock), Later(s.clock, live[0].ttl))
  }

  function Renew(s: Store, lease: string, agent: Option<string>): (Store, Result<Row, LeaseError>) {
    match OwnedRows(s.rows, lease, agent, s.clock)
    case Err(e) => (s, Err(e))
    case Ok(live) =>
      if live == [] then (s, Err(Expired))
      else (Extended(s, lease), Ok(live[0].(expiresAt := Later(s.clock, live[0].ttl))))
  }

  /** What release's transaction does: the lease's explicit rows go, call rows that
      adopted its id stay. */
  function DeleteLease(s: Store, lease: string): Store {
    Kept(s, NotGranted(lease))
  }

  /** Release as its caller sees it when nothing comes between the check and the delete. */
  function Release(s: Store, lease: string, agent: Option<string>): (Store, Result<(), LeaseError>) {
    match OwnedRows(s.rows, lease, agent, s.clock)
    case Err(e) => (s, Err(e))
    case Ok(_) => (DeleteLease(s, lease), Ok(()))
  }

  function Sweep(s: Store, horizon: real): Store {
    Kept(s, NotBefore(horizon))
  }

  predicate ExplicitOn(r: Row, vm: string, scope: string) {
    r.kind.Explicit? && r.vm == vm && r.scope == scope
  }

  /** The greatest token among the explicit rows still stored for (vm, scope). */
  function StoredMax(rows: seq<Row>, vm: string, scope: string): (m: nat)
    ensures forall r :: r in rows && ExplicitOn(r, vm, scope) ==> r.token <= m
    ensures m == 0 || exists r :: r in rows && ExplicitOn(r, vm, scope) && r.token == m
  {
    if rows == [] then 0 else
      var rest := StoredMax(rows[1..], vm, scope);
      assert forall r :: r in rows[1..] ==> r in rows;
      if ExplicitOn(rows[0], vm, scope) && rows[0].token > rest then
        assert rows[0] in rows;
        rows[0].token
      else rest
  }

  predicate MatchesHint(r: Row, vmHint: string, nameHint: string) {
    if vmHint != "" then Lower(r.vm) == Lower(vmHint)
    else if nameHint != "" then Lower(r.vmName) == Lower(nameHint)
    else true
  }

  datatype Presented = Presented(
    lease: string, token: int, agent: Option<string>, scope: string,
    vmHint: string, nameHint: string)

  function Authorize(s: Store, p: Presented): Result<Row, LeaseError> {
    match OwnedRows(s.rows, p.lease, p.agent, s.clock)
    case Err(e) => Err(e)
    case Ok(live) =>
      if live == [] then Err(Expired) else
        var covers := Keep(live, InScope(p.scope));
        if covers == [] then Err(ConflictFrom(live, s.clock))
        else if p.token < StoredMax(s.rows, covers[0].vm, p.scope) then Err(Fenced) else
          var matching := Keep(covers, HasToken(p.token));
          if matching == [] then Err(Fenced)
          else if !MatchesHint(matching[0], p.vmHint, p.nameHint) then
            Err(ConflictFrom([matching[0]], s.clock))
          else Ok(matching[0])
  }

  // ---- the unleased gate and the per-call rows ---------------------------

  function CallProto(vm: string, vmName: string, scope: string, write: bool,
                     agent: Option<string>, lease: string, ttl: int, now: real): Row {
    Row(0, lease, vm, vmName, scope, agent, 0, now, ttl, Later(now, ttl), Call, write)
  }

  /** Refuse an unleased call on a VM, addressed by GUID, that someone else holds. */
  function AssertUnleased(s: Store, agent: Option<string>, scope: string, vm: string)
    : Result<(), LeaseError>
  {
    var blocking := Blockers(s.rows, CallProto(vm, "", scope, false, agent, "", 0, s.clock), s.clock, false);
    if blocking == [] then Ok(()) else Err(ConflictFrom(blocking, s.clock))
  }

  function CallRefusal(blocking: seq<Row>, now: real): LeaseError
    requires blocking != []
  {
    if forall r :: r in blocking ==> r.kind.Call? then Busy else ConflictFrom(blocking, now)
  }

  /** Insert one vm_lock's own row unless a live foreign row conflicts with it. */
  function BeginCall(s: Store, proto: Row, now: real): (Store, Result<Row, LeaseError>)
    requires proto.kind.Call?
  {
    var blocking := Blockers(s.rows, proto, now, false);
    if blocking != [] then (s, Err(CallRefusal(blocking, now))) else
      var t := Insert(s, proto);
      (t, Ok(t.rows[|s.rows|]))
  }

  /** The heartbeat: unconditional, whatever the row's expiry. */
  function Touch(s: Store, key: nat, expiry: real): Store {
    Retimed(s, HasKey(key), expiry)
  }

  function EndCall(s: Store, key: nat): Store {
    Kept(s, LacksKey(key))
  }
}
