/** Fencing tokens: consecutive per (VM, scope), one usable capability at a time, and
    exactly when a superseded token can be used again. */
module LeaseFencing {
  import opened Common
  import opened LeaseModel
  import opened LeaseInvariant
  import opened LeaseExclusion

  // ---- tokens are consecutive --------------------------------------------

  /** How many rows the history holds for (vm, scope), call rows included. */
  function Grants(log: seq<Row>, vm: string, scope: string): nat {
    if log == [] then 0 else
      Grants(log[..|log| - 1], vm, scope)
      + if log[|log| - 1].vm == vm && log[|log| - 1].scope == scope then 1 else 0
  }

  /** The k-th grant of a pair carries token k, and the counter is the last token: no
      refusal, renewal or deletion ever consumes or returns one. */
  ghost predicate Consecutive(s: Store) {
    && (forall k | 0 <= k < |s.log| :: s.log[k].token == Grants(s.log[..k], s.log[k].vm, s.log[k].scope) + 1)
    && (forall vm, scope :: Counter(s, vm, scope) == Grants(s.log, vm, scope))
  }

  lemma InsertKeepsConsecutive(s: Store, proto: Row)
    requires Consecutive(s)
    ensures Consecutive(Insert(s, proto))
  {
    var t := Insert(s, proto);
    assert t.log[..|s.log|] == s.log;
    forall k | 0 <= k < |s.log| ensures t.log[..k] == s.log[..k] {
    }
    forall vm, scope ensures Counter(t, vm, scope) == Grants(t.log, vm, scope) {
      assert Counter(s, vm, scope) == Grants(s.log, vm, scope);
    }
  }

  lemma {:induction false} InsertAllKeepsConsecutive(s: Store, proto: Row, scopes: seq<string>)
    requires Consecutive(s)
    ensures Consecutive(InsertAll(s, proto, scopes))
  {
    if scopes != [] {
      InsertAllKeepsConsecutive(s, proto, scopes[..|scopes| - 1]);
      InsertKeepsConsecutive(InsertAll(s, proto, scopes[..|scopes| - 1]), proto.(scope := scopes[|scopes| - 1]));
    }
  }

  lemma StepKeepsConsecutive(s: Store, step: Step)
    requires Consecutive(s) && Enabled(s, step)
    ensures Consecutive(Next(s, step))
  {
    var t := Next(s, step);
    if t.log == s.log && t.counters == s.counters {
      assert forall vm, scope :: Counter(t, vm, scope) == Counter(s, vm, scope);
    } else if step.AcquireStep? {
      InsertAllKeepsConsecutive(
        s, Proto(step.req, step.lease, step.now, Ttl(step.limits, step.req.ttl).value), Dedupe(step.req.scopes));
    } else {
      InsertKeepsConsecutive(s, step.proto);
    }
  }

  /** In commit order the tokens of a (VM, scope) are 1, 2, 3, ... across explicit and
      call rows, whatever was refused, released, expired or swept in between. */
  lemma {:induction false} TokensAreConsecutive(states: seq<Store>, steps: seq<Step>, i: nat)
    requires IsRun(states, steps) && i < |states|
    ensures Consecutive(states[i])
  {
    if i > 0 {
      TokensAreConsecutive(states, steps, i - 1);
      StepKeepsConsecutive(states[i - 1], steps[i - 1]);
    }
  }

  // ---- what authorize accepts --------------------------------------------

  /** r is the newest explicit row still stored for its (VM, scope). */
  predicate NewestStored(s: Store, r: Row) {
    forall q :: q in s.rows && ExplicitOn(q, r.vm, r.scope) ==> q.key <= r.key
  }

  /** The caller owns every live row under the lease id, and addresses r's VM. */
  predicate Entitled(s: Store, p: Presented, r: Row) {
    && AllHeldBy(LiveOf(s.rows, p.lease, s.clock), p.agent)
    && MatchesHint(r, p.vmHint, p.nameHint)
  }

  lemma NewestHasGreatestToken(s: Store, r: Row)
    requires Inv(s) && r in s.rows && r.kind.Explicit?
    ensures NewestStored(s, r) <==> StoredMax(s.rows, r.vm, r.scope) <= r.token
  {
    forall q | q in s.rows && ExplicitOn(q, r.vm, r.scope)
      ensures q.token <= r.token <==> q.key <= r.key
    {
      KeyOrderIsTokenOrder(s, q, r);
    }
  }

  lemma KeyOrderIsTokenOrder(s: Store, q: Row, r: Row)
    requires Inv(s) && q in s.rows && r in s.rows && SamePair(q, r)
    ensures q.token <= r.token <==> q.key <= r.key
  {
    assert SamePair(s.log[q.key], s.log[r.key]);
  }

  /** The first live row of a lease covering an explicit row's scope is that row. */
  lemma ExplicitRowLeads(s: Store, r: Row)
    requires Inv(s) && LiveRow(s, r) && r.kind.Explicit?
    ensures var covers := Keep(LiveOf(s.rows, r.lease, s.clock), InScope(r.scope));
            covers != [] && covers[0] == r
  {
    var live := LiveOf(s.rows, r.lease, s.clock);
    var covers := Keep(live, InScope(r.scope));
    KeepOrder(s.rows, LiveUnder(r.lease, s.clock));
    KeepOrder(live, InScope(r.scope));
    assert r in live && r in covers;
    var i :| 0 <= i < |covers| && covers[i] == r;
    assert covers[0] in covers;
  }

  /** A lease's own id and token are accepted exactly while its row is live, is the
      newest explicit row stored for its (VM, scope), and the caller is entitled. */
  lemma AuthorizeIff(s: Store, p: Presented, r: Row)
    requires Inv(s) && r in s.rows && r.kind.Explicit?
    requires p.lease == r.lease && p.token == r.token && p.scope == r.scope
    ensures Authorize(s, p) == Ok(r) <==> LiveRow(s, r) && NewestStored(s, r) && Entitled(s, p, r)
  {
    AuthorizeSound(s, p);
    if LiveRow(s, r) {
      ExplicitRowLeads(s, r);
      NewestHasGreatestToken(s, r);
      var covers := Keep(LiveOf(s.rows, p.lease, s.clock), InScope(p.scope));
      FirstKept(covers, HasToken(p.token));
      assert r in LiveOf(s.rows, p.lease, s.clock);
    }
  }

  lemma {:induction false} FirstKept(rows: seq<Row>, p: Row -> bool)
    requires rows != [] && p(rows[0])
    ensures Keep(rows, p) != [] && Keep(rows, p)[0] == rows[0]
  {
    if |rows| > 1 {
      FirstKept(rows[..|rows| - 1], p);
    }
  }

  /** Whatever is accepted is a live row of the presented lease, scope and token, held
      by the caller; if it is an explicit row, it is the newest stored one. */
  lemma AuthorizeSound(s: Store, p: Presented)
    requires Inv(s)
    ensures Authorize(s, p).Ok? ==>
      var r := Authorize(s, p).value;
      && LiveRow(s, r) && Entitled(s, p, r)
      && r.lease == p.lease && r.scope == p.scope && r.token == p.token && r.holder == p.agent
      && (r.kind.Explicit? ==> NewestStored(s, r))
  {
    hide Inv, Authorize, NewestStored, Entitled;
    if Authorize(s, p).Ok? {
      var r := Authorize(s, p).value;
      AuthorizeFinds(s, p);
      if r.kind.Explicit? {
        ExplicitRowLeads(s, r);
        NewestHasGreatestToken(s, r);
      }
    }
  }

  /** Where an accepted row comes from. */
  lemma AuthorizeFinds(s: Store, p: Presented)
    ensures Authorize(s, p).Ok? ==>
      var r := Authorize(s, p).value;
      var covers := Keep(LiveOf(s.rows, p.lease, s.clock), InScope(p.scope));
      && LiveRow(s, r) && Entitled(s, p, r)
      && r.lease == p.lease && r.scope == p.scope && r.token == p.token && r.holder == p.agent
      && covers != [] && StoredMax(s.rows, covers[0].vm, p.scope) <= p.token
  {
    hide StoredMax, MatchesHint, ConflictFrom, ExpiredOf;
    if Authorize(s, p).Ok? {
      var r := Authorize(s, p).value;
      var live := LiveOf(s.rows, p.lease, s.clock);
      var covers := Keep(live, InScope(p.scope));
      assert r in Keep(covers, HasToken(p.token));
      assert r in covers && r in live && r in s.rows;
    }
  }

  // ---- any presented lease and token -------------------------------------

  /** A live row of the same lease and scope. */
  predicate Beside(s: Store, q: Row, r: Row) {
    LiveRow(s, q) && q.lease == r.lease && q.scope == r.scope
  }

  /** The first live row of r's lease and scope. */
  predicate Leads(s: Store, l: Row, r: Row) {
    Beside(s, l, r) && forall q :: q in s.rows && Beside(s, q, r) ==> l.key <= q.key
  }

  /** No earlier live row of r's lease and scope carries the same token. */
  predicate Foremost(s: Store, r: Row) {
    forall q :: q in s.rows && Beside(s, q, r) && q.token == r.token ==> r.key <= q.key
  }

  /** No explicit row stored for the scope, on the VM of the lease's first row, carries a
      greater token. */
  predicate Outlasts(s: Store, r: Row) {
    forall l, q :: l in s.rows && q in s.rows && Leads(s, l, r) && ExplicitOn(q, l.vm, r.scope) ==> q.token <= r.token
  }

  lemma CoversInOrder(s: Store, lease: string, scope: string)
    requires InKeyOrder(s.rows)
    ensures InKeyOrder(Keep(LiveOf(s.rows, lease, s.clock), InScope(scope)))
    ensures forall q :: q in Keep(LiveOf(s.rows, lease, s.clock), InScope(scope)) <==>
      q in s.rows && LiveRow(s, q) && q.lease == lease && q.scope == scope
  {
    KeepOrder(s.rows, LiveUnder(lease, s.clock));
    KeepOrder(LiveOf(s.rows, lease, s.clock), InScope(scope));
  }

  lemma FirstInOrder(rows: seq<Row>, r: Row)
    requires InKeyOrder(rows) && r in rows
    ensures rows[0] == r <==> forall q :: q in rows ==> r.key <= q.key
  {
    assert rows[0] in rows;
    var i :| 0 <= i < |rows| && rows[i] == r;
  }

  /** Any row's lease and token, explicit or not, are accepted exactly while the row is
      live and first to carry the token, no explicit row outranks the token, and the caller
      is entitled. */
  lemma AcceptedIff(s: Store, p: Presented, r: Row)
    requires Inv(s) && r in s.rows && p.lease == r.lease && p.token == r.token && p.scope == r.scope
    ensures Authorize(s, p) == Ok(r) <==> LiveRow(s, r) && Entitled(s, p, r) && Foremost(s, r) && Outlasts(s, r)
  {
    assert InKeyOrder(s.rows);
    hide Inv, StoredMax, MatchesHint, ConflictFrom, ExpiredOf, Authorize, Outlasts, Foremost;
    CoversInOrder(s, p.lease, p.scope);
    if LiveRow(s, r) {
      var covers := Keep(LiveOf(s.rows, p.lease, s.clock), InScope(p.scope));
      var matching := Keep(covers, HasToken(p.token));
      KeepOrder(covers, HasToken(p.token));
      FirstInOrder(matching, r);
      MatchingIsForemost(s, p, r);
      OutlastsMax(s, p, r);
      AuthorizeLive(s, p, r);
    } else {
      AuthorizeSound(s, p);
    }
  }

  lemma MatchingIsForemost(s: Store, p: Presented, r: Row)
    requires InKeyOrder(s.rows) && LiveRow(s, r) && p.lease == r.lease && p.token == r.token && p.scope == r.scope
    ensures var matching := Keep(Keep(LiveOf(s.rows, p.lease, s.clock), InScope(p.scope)), HasToken(p.token));
      r in matching && (Foremost(s, r) <==> forall q :: q in matching ==> r.key <= q.key)
  {
    CoversInOrder(s, p.lease, p.scope);
  }

  lemma OutlastsMax(s: Store, p: Presented, r: Row)
    requires InKeyOrder(s.rows) && LiveRow(s, r) && p.lease == r.lease && p.scope == r.scope
    ensures var covers := Keep(LiveOf(s.rows, p.lease, s.clock), InScope(p.scope));
      covers != [] && (Outlasts(s, r) <==> StoredMax(s.rows, covers[0].vm, p.scope) <= r.token)
  {
    CoversInOrder(s, p.lease, p.scope);
    var covers := Keep(LiveOf(s.rows, p.lease, s.clock), InScope(p.scope));
    assert r in covers;
    assert covers[0] in covers;
    FirstInOrder(covers, covers[0]);
    assert Leads(s, covers[0], r);
    forall l | l in s.rows && Leads(s, l, r) ensures l == covers[0] {
      FirstInOrder(covers, l);
    }
  }

  /** What authorize does once the row is live. */
  lemma AuthorizeLive(s: Store, p: Presented, r: Row)
    requires LiveRow(s, r) && p.lease == r.lease && p.token == r.token && p.scope == r.scope
    ensures var covers := Keep(LiveOf(s.rows, p.lease, s.clock), InScope(p.scope));
      var matching := Keep(covers, HasToken(p.token));
      covers != [] && matching != [] &&
      (Authorize(s, p) == Ok(r) <==>
        AllHeldBy(LiveOf(s.rows, p.lease, s.clock), p.agent) && p.token >= StoredMax(s.rows, covers[0].vm, p.scope)
        && matching[0] == r && MatchesHint(r, p.vmHint, p.nameHint))
  {
    hide StoredMax, MatchesHint, ConflictFrom, ExpiredOf, AllHeldBy;
    var live := LiveOf(s.rows, p.lease, s.clock);
    var covers := Keep(live, InScope(p.scope));
    assert r in live && r in covers && r in Keep(covers, HasToken(p.token));
  }

  /** In every reachable state at most one lease grant per (VM, scope) is usable. Any other
      token accepted there is a call row's, and a later one, unless its lease's first row in
      that scope is on another VM. */
  lemma UniqueCapability(states: seq<Store>, steps: seq<Step>, i: nat, p: Presented, q: Presented)
    requires IsRun(states, steps) && i < |states|
    ensures forall a, b | Authorize(states[i], p) == Ok(a) && Authorize(states[i], q) == Ok(b)
                          && a.kind.Explicit? && SamePair(a, b) ::
      if b.kind.Explicit? then a == b && p.lease == q.lease && p.token == q.token && p.agent == q.agent
      else b.key > a.key || exists l :: l in states[i].rows && Leads(states[i], l, b) && l.vm != b.vm
  {
    var s := states[i];
    RunKeepsInv(states, steps, i);
    AuthorizeSound(s, p);
    AuthorizeSound(s, q);
    forall a, b | Authorize(s, p) == Ok(a) && Authorize(s, q) == Ok(b) && a.kind.Explicit? && SamePair(a, b)
      ensures if b.kind.Explicit? then a == b && p.lease == q.lease && p.token == q.token && p.agent == q.agent
        else b.key > a.key || exists l :: l in s.rows && Leads(s, l, b) && l.vm != b.vm
    {
      if b.kind.Explicit? {
        KeyIdentifiesRow(s, a, b);
      } else {
        CallOutranked(s, q, a, b);
      }
    }
  }

  lemma CallOutranked(s: Store, q: Presented, a: Row, b: Row)
    requires Inv(s) && a in s.rows && b in s.rows && a.kind.Explicit? && SamePair(a, b) && b.kind.Call?
    requires Authorize(s, q) == Ok(b) && q.lease == b.lease && q.token == b.token && q.scope == b.scope && LiveRow(s, b)
    ensures b.key > a.key || exists l :: l in s.rows && Leads(s, l, b) && l.vm != b.vm
  {
    hide Authorize, Leads;
    AcceptedIff(s, q, b);
    KeyOrderIsTokenOrder(s, a, b);
    OutlastsMax(s, q, b);
    CoversInOrder(s, q.lease, q.scope);
    var l := SomeLeader(s, b);
    assert l.vm == b.vm ==> ExplicitOn(a, l.vm, b.scope) && a.token <= b.token;
    if b.key == a.key {
      KeyIdentifiesRow(s, a, b);
    }
  }

  lemma SomeLeader(s: Store, r: Row) returns (l: Row)
    requires InKeyOrder(s.rows) && LiveRow(s, r)
    ensures l in s.rows && Leads(s, l, r)
  {
    CoversInOrder(s, r.lease, r.scope);
    var covers := Keep(LiveOf(s.rows, r.lease, s.clock), InScope(r.scope));
    assert r in covers;
    l := covers[0];
    assert l in covers;
    FirstInOrder(covers, l);
  }

  // ---- superseded tokens -------------------------------------------------

  /** g is a later explicit grant of r's (VM, scope). */
  predicate Supersedes(g: Row, r: Row) {
    g.kind.Explicit? && SamePair(g, r) && g.key > r.key
  }

  /** No grant that superseded r is still stored: each was released or swept. */
  predicate SuccessorsGone(s: Store, r: Row) {
    forall g :: g in s.log && Supersedes(g, r) ==> forall q :: q in s.rows ==> q.key != g.key
  }

  /** A takeover by another principal, or by an unattributed one, is final: the
      superseded row is never live again and never accepted again. */
  lemma TakeoverIsFinal(states: seq<Store>, steps: seq<Step>, i: nat, j: nat, r: Row, g: Row)
    requires IsRun(states, steps) && i <= j < |states|
    requires r in states[i].rows && r.kind.Explicit? && g in states[i].log && Supersedes(g, r)
    requires g.holder.None? || g.holder != r.holder
    ensures forall q :: q in states[j].rows && q.key == r.key ==> q.expiresAt <= states[j].clock
    ensures forall p :: Authorize(states[j], p).Ok? ==> Authorize(states[j], p).value.key != r.key
  {
    var s, t := states[i], states[j];
    RunKeepsInv(states, steps, i);
    RunKeepsInv(states, steps, j);
    LogGrows(states, steps, i, j);
    assert t.log[g.key] == g && t.log[r.key] == s.log[r.key];
    SupersedingConflicts(s, r, g);
    forall q | q in t.rows && q.key == r.key ensures q.expiresAt <= t.clock {
      assert Conflicts(q, g) == Conflicts(r, g);
      assert q.expiresAt <= t.log[g.key].acquiredAt;
    }
    forall p | Authorize(t, p).Ok? ensures Authorize(t, p).value.key != r.key {
      AuthorizeSound(t, p);
    }
  }

  lemma SupersedingConflicts(s: Store, r: Row, g: Row)
    requires Inv(s) && r in s.rows && r.kind.Explicit? && g in s.log && Supersedes(g, r)
    ensures s.log[g.key] == g
    ensures Conflicts(r, g) <==> g.holder.None? || g.holder != r.holder
  {
    var k :| 0 <= k < |s.log| && s.log[k] == g;
    assert s.log[r.key].scope == s.log[k].scope;
  }

  /** A superseded token is usable exactly when its row is still live and every grant
      that superseded it has been released or swept from the table; and then all of
      those grants were made to the row's own, attributed, holder. */
  lemma SupersededUsableIff(states: seq<Store>, steps: seq<Step>, i: nat, r: Row, p: Presented)
    requires IsRun(states, steps) && i < |states|
    requires r in states[i].rows && r.kind.Explicit? && Entitled(states[i], p, r)
    requires p.lease == r.lease && p.token == r.token && p.scope == r.scope
    ensures Authorize(states[i], p) == Ok(r) <==>
      LiveRow(states[i], r) && SuccessorsGone(states[i], r)
    ensures LiveRow(states[i], r) ==>
      forall g :: g in states[i].log && Supersedes(g, r) ==> g.holder.Some? && g.holder == r.holder
  {
    RunKeepsInv(states, steps, i);
    AuthorizeIff(states[i], p, r);
    NewestIff(states[i], r);
    LiveMeansOwnSuccessors(states[i], r);
  }

  lemma LaterSupersedes(s: Store, r: Row, q: Row)
    requires RowsFromLog(s) && LogFacts(s) && r in s.rows && q in s.rows && ExplicitOn(q, r.vm, r.scope)
    ensures q.key > r.key ==> exists g :: g in s.log && g.key == q.key && Supersedes(g, r)
  {
    assert s.log[q.key] in s.log && s.log[q.key].key == q.key;
  }

  lemma NewestIff(s: Store, r: Row)
    requires RowsFromLog(s) && LogFacts(s) && r in s.rows && r.kind.Explicit?
    ensures NewestStored(s, r) <==> SuccessorsGone(s, r)
  {
    if SuccessorsGone(s, r) {
      forall q | q in s.rows && ExplicitOn(q, r.vm, r.scope) ensures q.key <= r.key {
        LaterSupersedes(s, r, q);
      }
    }
    if NewestStored(s, r) {
      forall g, q | g in s.log && Supersedes(g, r) && q in s.rows ensures q.key != g.key {
        var k :| 0 <= k < |s.log| && s.log[k] == g;
        assert q.key == g.key ==> ExplicitOn(q, r.vm, r.scope);
      }
    }
  }

  lemma LiveMeansOwnSuccessors(s: Store, r: Row)
    requires Inv(s) && r in s.rows && r.kind.Explicit?
    ensures LiveRow(s, r) ==>
      forall g :: g in s.log && Supersedes(g, r) ==> g.holder.Some? && g.holder == r.holder
  {
    forall g | LiveRow(s, r) && g in s.log && Supersedes(g, r) ensures g.holder.Some? && g.holder == r.holder {
      SupersedingConflicts(s, r, g);
    }
  }

  // ---- the witness: one agent, two leases, the newer released -------------

  const WITNESS_LIMITS := Limits(300, 3600)

  function WitnessRow(key: nat, lease: string): Row {
    Row(key, lease, "vm", "", "console", Some("a"), key + 1, 0.0, 300, 300.0, Explicit, false)
  }

  function WitnessStates(): seq<Store> {
    var r1, r2 := WitnessRow(0, "L1"), WitnessRow(1, "L2");
    [ Store([], map[], 0.0, [], {}),
      Store([r1], map[("vm", "console") := 1], 0.0, [r1], {"L1"}),
      Store([r1, r2], map[("vm", "console") := 2], 0.0, [r1, r2], {"L1", "L2"}),
      Store([r1], map[("vm", "console") := 2], 0.0, [r1, r2], {"L1", "L2"}) ]
  }

  function WitnessSteps(): seq<Step> {
    [ AcquireStep(WITNESS_LIMITS, WITNESS_REQUEST, 0.0, "L1"),
      AcquireStep(WITNESS_LIMITS, WITNESS_REQUEST, 0.0, "L2"),
      DeleteStep("L2") ]
  }

  const OLDER := Presented("L1", 1, Some("a"), "console", "", "")

  const WITNESS_REQUEST := Request("vm", "", ["console"], Some("a"), None)

  lemma OneScope()
    ensures Dedupe(["console"]) == ["console"] && KnownScopes(["console"])
  {
    var wanted: seq<string> := ["console"];
    assert wanted[..0] == [];
    assert Dedupe(wanted[..0]) == [];
    assert SCOPES[3] == "console";
  }

  lemma OneRefusal(rows: seq<Row>, proto: Row, scope: string, now: real)
    requires Blockers(rows, proto.(scope := scope), now, true) == []
    ensures FirstRefusal(rows, proto, [scope], now).None?
  {
    assert [scope][..0] == [];
    assert FirstRefusal(rows, proto, [scope][..0], now).None?;
  }

  lemma OneInsert(s: Store, proto: Row, scope: string)
    ensures InsertAll(s, proto, [scope]) == Insert(s, proto.(scope := scope))
  {
    assert [scope][..0] == [];
    assert InsertAll(s, proto, [scope][..0]) == s;
  }

  lemma WitnessAcquire(s: Store, lease: string)
    requires forall r :: r in s.rows ==> r.holder == Some("a")
    ensures Acquire(s, WITNESS_LIMITS, WITNESS_REQUEST, 0.0, lease).0 == Insert(s, WitnessRow(|s.log|, lease))
  {
    hide Dedupe, FirstRefusal, InsertAll, Conflicts, KnownScopes;
    var proto := Proto(WITNESS_REQUEST, lease, 0.0, 300);
    OneScope();
    KeepsNone(s.rows, Blocks(proto.(scope := "console"), 0.0, true));
    OneRefusal(s.rows, proto, "console", 0.0);
    OneInsert(s, proto, "console");
    assert Insert(s, proto.(scope := "console")) == Insert(s, WitnessRow(|s.log|, lease));
  }

  lemma WitnessRelease()
    ensures DeleteLease(WitnessStates()[2], "L2") == WitnessStates()[3]
  {
    var r1, r2 := WitnessRow(0, "L1"), WitnessRow(1, "L2");
    assert [r1, r2][..1] == [r1] && [r1][..0] == [];
    assert Keep([r1], NotGranted("L2")) == [r1];
    assert Keep([r1, r2], NotGranted("L2")) == [r1];
  }

  lemma WitnessFirst()
    ensures Next(WitnessStates()[0], WitnessSteps()[0]) == WitnessStates()[1]
  {
    hide Acquire;
    WitnessAcquire(WitnessStates()[0], "L1");
  }

  lemma WitnessSecond()
    ensures Next(WitnessStates()[1], WitnessSteps()[1]) == WitnessStates()[2]
  {
    hide Acquire;
    WitnessAcquire(WitnessStates()[1], "L2");
  }

  lemma WitnessIsRun()
    ensures IsRun(WitnessStates(), WitnessSteps())
  {
    var states, steps := WitnessStates(), WitnessSteps();
    WitnessFirst();
    WitnessSecond();
    WitnessRelease();
    hide Acquire;
    forall i | 0 <= i < 3 ensures Enabled(states[i], steps[i]) && states[i + 1] == Next(states[i], steps[i]) {
    }
  }

  /** The older token is refused while the newer lease stands. */
  lemma WitnessFenced()
    requires Inv(WitnessStates()[2])
    ensures Authorize(WitnessStates()[2], OLDER) == Err(Fenced)
  {
    hide Inv, StoredMax;
    var s := WitnessStates()[2];
    var r1, r2 := WitnessRow(0, "L1"), WitnessRow(1, "L2");
    assert r1 == s.rows[0] && r2 == s.rows[1];
    ExplicitRowLeads(s, r1);
    assert StoredMax(s.rows, "vm", "console") >= r2.token;
    assert AllHeldBy(LiveOf(s.rows, "L1", s.clock), Some("a"));
    FencedBelow(s, OLDER);
  }

  /** A token below the greatest one stored for the scope is fenced off. */
  lemma FencedBelow(s: Store, p: Presented)
    requires AllHeldBy(LiveOf(s.rows, p.lease, s.clock), p.agent)
    requires var covers := Keep(LiveOf(s.rows, p.lease, s.clock), InScope(p.scope));
      covers != [] && p.token < StoredMax(s.rows, covers[0].vm, p.scope)
    ensures Authorize(s, p) == Err(Fenced)
  {
    hide StoredMax, AllHeldBy, MatchesHint, ConflictFrom, ExpiredOf;
    var live := LiveOf(s.rows, p.lease, s.clock);
    var covers := Keep(live, InScope(p.scope));
    assert covers[0] in covers && covers[0] in live;
  }

  lemma WitnessAccepted()
    requires Inv(WitnessStates()[3])
    ensures Authorize(WitnessStates()[3], OLDER) == Ok(WitnessRow(0, "L1"))
  {
    var s := WitnessStates()[3];
    assert WitnessRow(0, "L1") == s.rows[0];
    AuthorizeIff(s, OLDER, WitnessRow(0, "L1"));
  }

  /** The promise that a superseded token is refused for good does not hold: the older
      token is refused while the newer lease stands, and accepted once it is released. */
  lemma SupersededTokenReturns()
    ensures IsRun(WitnessStates(), WitnessSteps())
    ensures Authorize(WitnessStates()[2], OLDER) == Err(Fenced)
    ensures Authorize(WitnessStates()[3], OLDER) == Ok(WitnessRow(0, "L1"))
  {
    WitnessIsRun();
    RunKeepsInv(WitnessStates(), WitnessSteps(), 2);
    RunKeepsInv(WitnessStates(), WitnessSteps(), 3);
    WitnessFenced();
    WitnessAccepted();
  }

  // ---- the witness: a call row's token ------------------------------------

  function CallRow(): Row {
    Row(1, "L1", "vm", "", "console", Some("a"), 2, 0.0, 300, 300.0, Call, true)
  }

  function CallStates(): seq<Store> {
    [ WitnessStates()[0], WitnessStates()[1],
      Store([WitnessRow(0, "L1"), CallRow()], map[("vm", "console") := 2], 0.0,
            [WitnessRow(0, "L1"), CallRow()], {"L1"}) ]
  }

  function CallSteps(): seq<Step> {
    [ WitnessSteps()[0],
      BeginCallStep(CallRow().(key := 0, token := 0), 0.0) ]
  }

  lemma CallWitnessSecond()
    ensures BeginCall(CallStates()[1], CallRow().(key := 0, token := 0), 0.0).0 == CallStates()[2]
  {
    var s, proto := CallStates()[1], CallRow().(key := 0, token := 0);
    KeepsNone(s.rows, Blocks(proto, 0.0, false));
    assert {"L1"} + {"L1"} == {"L1"};
    assert s.counters[("vm", "console") := 2] == map[("vm", "console") := 2];
  }

  lemma CallWitnessIsRun()
    ensures IsRun(CallStates(), CallSteps())
  {
    WitnessFirst();
    CallWitnessSecond();
    hide Acquire, BeginCall;
    forall i | 0 <= i < 2
      ensures Enabled(CallStates()[i], CallSteps()[i]) && CallStates()[i + 1] == Next(CallStates()[i], CallSteps()[i])
    {
    }
  }

  /** Each row of the second witness is accepted under its own token. */
  lemma CallWitnessAccepts(s: Store, r: Row)
    requires Inv(s) && s.clock == 0.0 && r in s.rows
    requires forall q :: q in s.rows <==> q == WitnessRow(0, "L1") || q == CallRow()
    ensures Authorize(s, OLDER.(token := r.token)) == Ok(r)
  {
    hide Inv, Authorize;
    var p := OLDER.(token := r.token);
    AcceptedIff(s, p, r);
    assert Entitled(s, p, r);
    assert Foremost(s, r);
    assert Outlasts(s, r);
  }

  lemma CallWitnessRows()
    ensures forall q :: q in CallStates()[2].rows <==> q == WitnessRow(0, "L1") || q == CallRow()
    ensures CallStates()[2].clock == 0.0
  {
    var s := CallStates()[2];
    assert WitnessRow(0, "L1") == s.rows[0] && CallRow() == s.rows[1];
  }

  /** A lease whose call is under way has two accepted tokens at once: its own, and that of
      the call row that adopted its id, which acquire never issued. */
  lemma CallTokenAccepted()
    ensures IsRun(CallStates(), CallSteps())
    ensures Authorize(CallStates()[2], OLDER) == Ok(WitnessRow(0, "L1"))
    ensures Authorize(CallStates()[2], OLDER.(token := 2)) == Ok(CallRow())
  {
    hide Authorize, IsRun;
    CallWitnessIsRun();
    RunKeepsInv(CallStates(), CallSteps(), 2);
    CallWitnessRows();
    CallWitnessAccepts(CallStates()[2], WitnessRow(0, "L1"));
    CallWitnessAccepts(CallStates()[2], CallRow());
  }
}
