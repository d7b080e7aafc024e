/** Who may hold what at the same time, in every state of every run. */
module LeaseExclusion {
  import opened LeaseModel
  import opened LeaseInvariant

  // ---- exclusion of explicit leases --------------------------------------

  predicate LiveRow(s: Store, r: Row) {
    r in s.rows && r.expiresAt > s.clock
  }

  lemma SeparatedMeansExclusive(s: Store, a: Row, b: Row)
    requires RowsFromLog(s) && LogFacts(s) && Separated(s, a.kind, b.kind)
    requires LiveRow(s, a) && LiveRow(s, b) && a.key < b.key
    ensures !Conflicts(a, b)
  {
    assert Conflicts(a, s.log[b.key]) == Conflicts(a, b);
  }

  lemma KeyIdentifiesRow(s: Store, a: Row, b: Row)
    requires RowsFromLog(s) && a in s.rows && b in s.rows && a.key == b.key
    ensures a == b
  {
  }

  /** In every reachable state, two live explicit rows of different leases are compatible. */
  lemma ExplicitExclusion(states: seq<Store>, steps: seq<Step>, i: nat, a: Row, b: Row)
    requires IsRun(states, steps) && i < |states|
    requires LiveRow(states[i], a) && LiveRow(states[i], b) && a.kind.Explicit? && b.kind.Explicit?
    ensures !Conflicts(a, b)
  {
    RunKeepsInv(states, steps, i);
    ConflictsSymmetric(a, b);
    if a.key < b.key {
      SeparatedMeansExclusive(states[i], a, b);
    } else if b.key < a.key {
      SeparatedMeansExclusive(states[i], b, a);
    }
  }

  /** A live lifecycle lease shuts every other principal's lease out of its VM; an
      unattributed holder shuts out every other lease, unattributed ones included. */
  lemma LifecycleExcludesOthers(states: seq<Store>, steps: seq<Step>, i: nat, a: Row, b: Row)
    requires IsRun(states, steps) && i < |states|
    requires LiveRow(states[i], a) && LiveRow(states[i], b) && a.kind.Explicit? && b.kind.Explicit?
    requires a.scope == LIFECYCLE && a.vm == b.vm
    ensures a.lease == b.lease || (a.holder.Some? && a.holder == b.holder)
  {
    ExplicitExclusion(states, steps, i, a, b);
  }

  /** Two different agents may hold two scopes at once: neither is lifecycle and they differ. */
  predicate ScopesCoexist(x: string, y: string) {
    x != LIFECYCLE && y != LIFECYCLE && x != y
  }

  /** No live explicit row of another principal is incompatible with a wanted scope. */
  predicate Compatible(s: Store, req: Request, now: real) {
    forall r, x :: r in s.rows && x in req.scopes && r.kind.Explicit? && Candidate(r, req.vm, now, req.agent) ==>
      ScopesCoexist(r.scope, x)
  }

  /** Acquire is granted exactly when the request is well formed and compatible; a
      refusal changes nothing and a grant writes one row per distinct scope. */
  lemma AcquireGrantsIff(s: Store, limits: Limits, req: Request, now: real, lease: string)
    requires RowsFromLog(s) && LogFacts(s) && lease !in s.ids
    ensures var (t, res) := Acquire(s, limits, req, now, lease);
      && (res.Ok? <==>
            req.scopes != [] && KnownScopes(req.scopes) && Ttl(limits, req.ttl).Some? && Compatible(s, req, now))
      && (res.Err? ==> t == s)
      && (res.Ok? ==> |res.value| == |Dedupe(req.scopes)| && t.rows == s.rows + res.value)
  {
    hide RowsFromLog, LogFacts, Compatible, FirstRefusal, ConflictFrom;
    var wanted := Dedupe(req.scopes);
    if req.scopes != [] {
      assert req.scopes[0] in wanted;
    }
    assert wanted != [] ==> wanted[0] in req.scopes;
    assert KnownScopes(wanted) == KnownScopes(req.scopes);
    if Ttl(limits, req.ttl).Some? {
      CompatibleIff(s, req, now, lease, Ttl(limits, req.ttl).value);
    }
  }

  lemma CompatibleIff(s: Store, req: Request, now: real, lease: string, ttl: int)
    requires RowsFromLog(s) && LogFacts(s) && lease !in s.ids
    ensures FirstRefusal(s.rows, Proto(req, lease, now, ttl), Dedupe(req.scopes), now).None? <==>
            Compatible(s, req, now)
  {
    var proto := Proto(req, lease, now, ttl);
    var wanted := Dedupe(req.scopes);
    RefusalIff(s.rows, proto, wanted, now);
    if FirstRefusal(s.rows, proto, wanted, now).None? {
      forall r, x | r in s.rows && x in req.scopes && r.kind.Explicit? && Candidate(r, req.vm, now, req.agent)
        ensures ScopesCoexist(r.scope, x)
      {
        FreshConflict(s, proto, x, now, r);
      }
    } else {
      var r, x :| r in s.rows && x in wanted && r.kind.Explicit? && Candidate(r, req.vm, now, req.agent)
                  && Conflicts(proto.(scope := x), r);
      FreshConflict(s, proto, x, now, r);
      assert x in req.scopes;
    }
  }

  /** For a row under a new lease id, a candidate conflicts just when its scope does. */
  lemma FreshConflict(s: Store, proto: Row, x: string, now: real, r: Row)
    requires RowsFromLog(s) && LogFacts(s) && proto.lease !in s.ids && proto.kind.Explicit?
    requires r in s.rows && r.kind.Explicit? && Candidate(r, proto.vm, now, proto.holder)
    ensures Conflicts(proto.(scope := x), r) <==> !ScopesCoexist(r.scope, x)
  {
    assert s.log[r.key].lease in s.ids;
  }

  lemma {:induction false} RefusalIff(rows: seq<Row>, proto: Row, scopes: seq<string>, now: real)
    ensures FirstRefusal(rows, proto, scopes, now).None? <==>
      forall r, x :: r in rows && x in scopes && r.kind.Explicit? && Candidate(r, proto.vm, now, proto.holder) ==>
        !Conflicts(proto.(scope := x), r)
  {
    if scopes != [] {
      var init, last := scopes[..|scopes| - 1], scopes[|scopes| - 1];
      RefusalIff(rows, proto, init, now);
      var blocking := Blockers(rows, proto.(scope := last), now, true);
      assert blocking == [] || blocking[0] in blocking;
      assert forall r :: r in blocking <==>
        && r in rows && r.kind.Explicit? && Candidate(r, proto.vm, now, proto.holder)
        && Conflicts(proto.(scope := last), r);
    }
  }
}
