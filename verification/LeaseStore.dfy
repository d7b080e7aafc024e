/** The lease operations as they run: loops over the table's rows, with rows and
    counters updated in place. Each method computes the operation of the same name on
    values, that is, one step of the transition system, so whatever is proved about
    runs is proved about histories of these calls. */
module LeaseStore {
  import opened Common
  import opened LeaseModel
  import opened LeaseInvariant
  import M = LeaseModel

  class Table {
    var rows: seq<Row>
    var counters: map<(string, string), nat>
    var clock: real
    var nextKey: nat
    ghost var log: seq<Row>
    ghost var ids: set<string>

    ghost function Abs(): Store
      reads this
    {
      Store(rows, counters, clock, log, ids)
    }

    /** Keys are the positions of the log, so a new one is always larger. */
    ghost predicate Valid()
      reads this
    {
      && nextKey == |log|
      && InKeyOrder(rows)
      && forall r :: r in rows ==> r.key < nextKey
    }

    constructor (start: real)
      ensures Valid() && IsInit(Abs()) && clock == start
    {
      rows, counters, clock, nextKey := [], map[], start, 0;
      log, ids := [], {};
    }

    /** One query: the rows that pass a test, in table order. */
    method Select(p: Row -> bool) returns (out: seq<Row>)
      ensures out == Keep(rows, p)
    {
      out := [];
      for i := 0 to |rows|
        invariant out == Keep(rows[..i], p)
      {
        assert rows[..i + 1][..i] == rows[..i];
        if p(rows[i]) {
          out := out + [rows[i]];
        }
      }
      assert rows[..|rows|] == rows;
    }

    method FenceBump(vm: string, scope: string) returns (token: nat)
      modifies this`counters
      ensures token == Counter(old(Abs()), vm, scope) + 1
      ensures counters == old(counters)[(vm, scope) := token]
    {
      if (vm, scope) !in counters {
        counters := counters[(vm, scope) := 0];
      }
      counters := counters[(vm, scope) := counters[(vm, scope)] + 1];
      token := counters[(vm, scope)];
    }

    /** Bump the counter of the row's pair and insert the row under a key never used. */
    method InsertBumped(proto: Row) returns (row: Row)
      requires Valid()
      modifies this
      ensures Valid() && Abs() == Insert(old(Abs()), proto)
      ensures rows == old(rows) + [row]
    {
      var token := FenceBump(proto.vm, proto.scope);
      row := proto.(key := nextKey, token := token);
      rows := rows + [row];
      nextKey := nextKey + 1;
      log := log + [row];
      ids := ids + {row.lease};
    }

    /** Probe every scope before any counter is bumped: a refusal consumes no token. */
    method Probe(proto: Row, wanted: seq<string>, now: real) returns (refusal: Option<LeaseError>)
      ensures refusal == FirstRefusal(rows, proto, wanted, now)
    {
      for i := 0 to |wanted|
        invariant FirstRefusal(rows, proto, wanted[..i], now).None?
      {
        assert wanted[..i + 1][..i] == wanted[..i];
        var blocking := Select(Blocks(proto.(scope := wanted[i]), now, true));
        if blocking != [] {
          RefusalIsFirst(rows, proto, wanted, now, i + 1);
          return Some(ConflictFrom(blocking, now));
        }
      }
      assert wanted[..|wanted|] == wanted;
      refusal := None;
    }

    method InsertEach(proto: Row, wanted: seq<string>) returns (granted: seq<Row>)
      requires Valid()
      modifies this
      ensures Valid() && Abs() == InsertAll(old(Abs()), proto, wanted)
      ensures rows == old(rows) + granted
    {
      hide Insert;
      granted := [];
      for i := 0 to |wanted|
        invariant Valid() && Abs() == InsertAll(old(Abs()), proto, wanted[..i])
        invariant rows == old(rows) + granted
      {
        assert wanted[..i + 1][..i] == wanted[..i];
        var row := InsertBumped(proto.(scope := wanted[i]));
        granted := granted + [row];
      }
      assert wanted[..|wanted|] == wanted;
    }

    /** Grant every wanted scope, or refuse and leave the table as it was. */
    method Acquire(limits: Limits, req: Request, now: real, lease: string)
      returns (res: Result<seq<Row>, LeaseError>)
      requires Valid() && now <= clock
      modifies this
      ensures Valid()
      ensures (Abs(), res) == M.Acquire(old(Abs()), limits, req, now, lease)
    {
      var wanted := Distinct(req.scopes);
      var ttl := Ttl(limits, req.ttl);
      if wanted == [] || !KnownScopes(wanted) || ttl.None? {
        return Err(Invalid);
      }
      var proto := Proto(req, lease, now, ttl.value);
      var refusal := Probe(proto, wanted, now);
      if refusal.Some? {
        return Err(refusal.value);
      }
      var granted := InsertEach(proto, wanted);
      res := Ok(granted);
    }

    method Owned(lease: string, agent: Option<string>) returns (res: Result<seq<Row>, LeaseError>)
      ensures res == OwnedRows(rows, lease, agent, clock)
    {
      var live := Select(LiveUnder(lease, clock));
      if live != [] {
        return if AllHeldBy(live, agent) then Ok(live) else Err(NotOwned);
      }
      var expired := Select(ExpiredUnder(lease, clock));
      if expired == [] {
        return Err(Unknown);
      }
      res := if AllHeldBy(expired, agent) then Ok([]) else Err(NotOwned);
    }

    /** Move one row's expiry if the row is still live at `now`. */
    method TouchIfLive(key: nat, now: real, expiry: real)
      modifies this`rows
      ensures rows == Retime(old(rows), LiveKey(key, now), expiry)
    {
      for i := 0 to |rows|
        invariant |rows| == |old(rows)|
        invariant forall j | 0 <= j < i :: rows[j] == Retime(old(rows), LiveKey(key, now), expiry)[j]
        invariant forall j | i <= j < |rows| :: rows[j] == old(rows)[j]
      {
        if rows[i].key == key && rows[i].expiresAt > now {
          rows := rows[i := rows[i].(expiresAt := expiry)];
        }
      }
    }

    /** Touch each of the given rows in turn. */
    method TouchEach(mine: seq<Row>, now: real, expiry: real)
      modifies this`rows
      ensures rows == Retime(old(rows), LiveKeyIn(mine, now), expiry)
    {
      for i := 0 to |mine|
        invariant |rows| == |old(rows)|
        invariant forall j | 0 <= j < |rows| :: rows[j] == old(rows)[j] || rows[j] == old(rows)[j].(expiresAt := expiry)
        invariant forall j | 0 <= j < |rows| && !LiveKeyIn(mine[..i], now)(old(rows)[j]) :: rows[j] == old(rows)[j]
        invariant forall j | 0 <= j < |rows| && LiveKeyIn(mine[..i], now)(old(rows)[j]) ::
                    rows[j] == old(rows)[j].(expiresAt := expiry)
      {
        assert mine[..i + 1] == mine[..i] + [mine[i]];
        TouchIfLive(mine[i].key, now, expiry);
      }
      assert mine[..|mine|] == mine;
    }

    /** Extend the lease, or report it expired; the read and the writes are one transaction. */
    method Renew(lease: string, agent: Option<string>) returns (res: Result<Row, LeaseError>)
      requires Valid()
      modifies this`rows
      ensures Valid()
      ensures Abs() == M.Renew(old(Abs()), lease, agent).0
      ensures res == M.Renew(old(Abs()), lease, agent).1
    {
      var owned := Owned(lease, agent);
      if owned.Err? || owned.value == [] {
        return Err(if owned.Err? then owned.error else Expired);
      }
      var live := owned.value;
      var deadline := Later(clock, live[0].ttl);
      ExtendOwned(lease, live, deadline);
      res := Ok(live[0].(expiresAt := deadline));
    }

    method ExtendOwned(ghost lease: string, live: seq<Row>, deadline: real)
      requires Valid() && live == LiveOf(rows, lease, clock) && live != []
      requires deadline == Later(clock, live[0].ttl)
      modifies this`rows
      ensures Valid() && Abs() == Extended(old(Abs()), lease)
    {
      hide Later, LiveOf, Retime;
      OwnKeysAreLive(rows, lease, clock, deadline);
      RetimeKeepsKeys(rows, LiveUnder(lease, clock), deadline);
      TouchEach(live, clock, deadline);
    }

    method Release(lease: string, agent: Option<string>) returns (res: Result<(), LeaseError>)
      requires Valid()
      modifies this`rows
      ensures Valid()
      ensures (Abs(), res) == M.Release(old(Abs()), lease, agent)
    {
      var owned := Owned(lease, agent);
      if owned.Err? {
        return Err(owned.error);
      }
      KeepOrder(rows, NotGranted(lease));
      rows := Select(NotGranted(lease));
      res := Ok(());
    }

    method BeginCall(proto: Row, now: real) returns (res: Result<Row, LeaseError>)
      requires Valid() && proto.kind.Call?
      modifies this
      ensures Valid()
      ensures (Abs(), res) == M.BeginCall(old(Abs()), proto, now)
    {
      var blocking := Select(Blocks(proto, now, false));
      if blocking != [] {
        return Err(CallRefusal(blocking, now));
      }
      var row := InsertBumped(proto);
      res := Ok(row);
    }

    /** The heartbeat touches its row whatever the row's expiry. */
    method TouchCall(key: nat, ttl: int, now: real)
      requires Valid()
      modifies this`rows
      ensures Valid() && Abs() == Touch(old(Abs()), key, Later(now, ttl))
    {
      var expiry := Later(now, ttl);
      RetimeKeepsKeys(rows, HasKey(key), expiry);
      for i := 0 to |rows|
        invariant |rows| == |old(rows)|
        invariant forall j | 0 <= j < i :: rows[j] == Retime(old(rows), HasKey(key), expiry)[j]
        invariant forall j | i <= j < |rows| :: rows[j] == old(rows)[j]
      {
        if rows[i].key == key {
          rows := rows[i := rows[i].(expiresAt := expiry)];
        }
      }
      assert rows == Retime(old(rows), HasKey(key), expiry);
    }

    method EndCall(key: nat)
      requires Valid()
      modifies this`rows
      ensures Valid() && Abs() == M.EndCall(old(Abs()), key)
    {
      KeepOrder(rows, LacksKey(key));
      rows := Select(LacksKey(key));
    }
  }

  function LiveKey(key: nat, now: real): Row -> bool {
    (r: Row) => r.key == key && r.expiresAt > now
  }

  function LiveKeyIn(mine: seq<Row>, now: real): Row -> bool {
    (r: Row) => r.expiresAt > now && exists m | m in mine :: m.key == r.key
  }

  method Distinct(xs: seq<string>) returns (out: seq<string>)
    ensures out == Dedupe(xs)
  {
    out := [];
    for i := 0 to |xs|
      invariant out == Dedupe(xs[..i])
    {
      assert xs[..i + 1][..i] == xs[..i];
      if xs[i] !in out {
        out := out + [xs[i]];
      }
    }
    assert xs[..|xs|] == xs;
  }

  lemma {:induction false} RefusalIsFirst(rows: seq<Row>, proto: Row, scopes: seq<string>, now: real, n: nat)
    requires n <= |scopes| && FirstRefusal(rows, proto, scopes[..n], now).Some?
    ensures FirstRefusal(rows, proto, scopes, now) == FirstRefusal(rows, proto, scopes[..n], now)
  {
    if n == |scopes| {
      assert scopes[..n] == scopes;
    } else {
      var init := scopes[..|scopes| - 1];
      assert init[..n] == scopes[..n];
      RefusalIsFirst(rows, proto, init, now, n);
    }
  }

  /** Touching the live rows of a lease by key touches exactly the lease's live rows. */
  lemma OwnKeysAreLive(rows: seq<Row>, lease: string, now: real, expiry: real)
    requires InKeyOrder(rows)
    ensures Retime(rows, LiveKeyIn(LiveOf(rows, lease, now), now), expiry) ==
            Retime(rows, LiveUnder(lease, now), expiry)
  {
    var live := LiveOf(rows, lease, now);
    forall i | 0 <= i < |rows| ensures LiveKeyIn(live, now)(rows[i]) == LiveUnder(lease, now)(rows[i]) {
      if LiveKeyIn(live, now)(rows[i]) {
        var m :| m in live && m.key == rows[i].key;
        assert m in rows;
      }
    }
  }

  lemma RetimeKeepsKeys(rows: seq<Row>, p: Row -> bool, expiry: real)
    requires InKeyOrder(rows)
    ensures InKeyOrder(Retime(rows, p, expiry))
    ensures forall r :: r in Retime(rows, p, expiry) ==> exists q :: q in rows && q.key == r.key
  {
    forall r | r in Retime(rows, p, expiry) ensures exists q :: q in rows && q.key == r.key {
      var q := RetimedRow(rows, p, expiry, r);
    }
  }
}
