/**
  `acceptAgentState` of one gateway, from validation to `put` (internal/edge/agentstate.go).
 */
module AgentGateway {
  import opened Optional
  import opened PoolSources
  import opened RoutePrune
  import opened AgentState
  import opened AliasRewrite

  class Gateway {
    const generations: AgentGenerations
    const store: AgentStateStore
    var routes: Table

    constructor ()
      ensures generations.last == map[] && store.Value() == EMPTY_STORE && routes == map[]
      ensures fresh(generations) && fresh(store)
    {
      generations := new AgentGenerations();
      store := new AgentStateStore();
      routes := map[];
    }

    /**
      `apply` is what `applyAgentRoute` does to the table: anything, and it tells whether the route was accepted; `hostOf` is
      the host that `ParseHostEntry` reads. A refused state (400) or a late one (409) changes nothing; otherwise (200) its
      routes are applied in order, each counted as applied or rejected, the table is pruned by all that the state declares,
      rejected routes included, and the state is kept, with the aliases that applying its routes has rewritten, if nothing
      later was put meanwhile.
     */
    method AcceptAgentState(p: Payload, apply: (Table, AgentRoute) -> (Table, bool), hostOf: string -> string)
      returns (status: int, res: Counts)
      requires StoreOk(store.Value()) && ValidTable(routes) && KeepsTables(apply)
      modifies this, generations, store
      ensures StoreOk(store.Value()) && ValidTable(routes)
      ensures status == (if Validated(p).None? then 400
                         else if p.generation <= LastOf(old(generations.last), Key(p)) then 409 else 200)
      ensures status != 200 ==> generations.last == old(generations.last) && store.Value() == old(store.Value())
      ensures status != 200 ==> routes == old(routes) && res == Counts(0, 0, 0, false)
      ensures status == 200 ==> generations.last == old(generations.last)[Key(p) := p.generation]
      ensures status == 200 ==> store.Value() == Put(old(store.Value()), Rewritten(Validated(p).value, hostOf))
      ensures status == 200 ==> exists req ::
                var (applied, n) := Applied(old(routes), Validated(p).value.routes, apply);
                && Says(req, p, Validated(p).value.routes, hostOf) && routes == AfterPrune(applied, req)
                && res.applied == n && res.rejected == |p.routes| - n && res.pruned == |Touched(applied, req)|
      ensures status == 200 ==> (res.changed <==> Changes(old(store.Value()), Rewritten(Validated(p).value, hostOf)))
    {
      hide Validated, Key, ContentHash, AfterPrune, Touched, ValidTable, KeepsTables, Applied, Rewritten;
      res := Counts(0, 0, 0, false);
      var v := Validate(p);
      if v.None? {
        return 400, res;
      }
      var q := v.value;
      ValidatedTwice(p);
      var ok := generations.Accept(Key(q), q.generation);
      if !ok {
        return 409, res;
      }
      var req := CollectDeclared(q, hostOf);
      SameHeader(p);
      var t, rewritten, applied, rejected := ApplyRoutes(routes, q, apply, hostOf);
      var table := new RouteTable(t);
      var pruned := table.PruneAgentSource(req);
      PruneKeepsTable(t, req);
      routes := table.routes;
      assert Says(req, p, q.routes, hostOf);
      var changed := store.PutState(q.(routes := rewritten));
      status, res := 200, Counts(applied, rejected, pruned, changed);
    }
  }

  /** The result reported for an accepted state. */
  datatype Counts = Counts(applied: int, rejected: int, pruned: int, changed: bool)

  /** Applying a route keeps routes filed under their identifiers. */
  ghost predicate KeepsTables(apply: (Table, AgentRoute) -> (Table, bool)) {
    forall t, r :: ValidTable(t) ==> ValidTable(apply(t, r).0)
  }

  /** The table after all routes in order, and how many of them were accepted. */
  function Applied(t: Table, rs: seq<AgentRoute>, apply: (Table, AgentRoute) -> (Table, bool)): (Table, nat) {
    if rs == [] then (t, 0)
    else
      var (u, n) := Applied(t, rs[..|rs| - 1], apply);
      var (v, ok) := apply(u, rs[|rs| - 1]);
      (v, if ok then n + 1 else n)
  }

  /** The loop over the routes of the state. Applying one also rewrites its aliases, in the state's own storage. */
  method ApplyRoutes(t: Table, q: Payload, apply: (Table, AgentRoute) -> (Table, bool), hostOf: string -> string)
    returns (u: Table, rewritten: seq<AgentRoute>, applied: nat, rejected: nat)
    requires ValidTable(t) && KeepsTables(apply)
    ensures ValidTable(u) && (u, applied) == Applied(t, q.routes, apply) && applied + rejected == |q.routes|
    ensures q.(routes := rewritten) == Rewritten(q, hostOf)
  {
    hide ValidTable, RewrittenRoute, Rewritten;
    var rs := q.routes;
    u, rewritten, applied, rejected := t, [], 0, 0;
    for i := 0 to |rs|
      invariant ValidTable(u) && (u, applied) == Applied(t, rs[..i], apply) && applied + rejected == i
      invariant |rewritten| == i && forall k :: 0 <= k < i ==> rewritten[k] == RewrittenRoute(rs[k], hostOf)
    {
      assert rs[..i + 1][..i] == rs[..i];
      var r := RewriteRoute(rs[i], hostOf);
      rewritten := rewritten + [r];
      var (v, ok) := apply(u, rs[i]);
      u := v;
      if ok {
        applied := applied + 1;
      } else {
        rejected := rejected + 1;
      }
    }
    assert rs[..|rs|] == rs;
    SameRoutes(q, rewritten, hostOf);
  }

  lemma SameRoutes(q: Payload, rewritten: seq<AgentRoute>, hostOf: string -> string)
    requires |rewritten| == |q.routes| && forall k :: 0 <= k < |rewritten| ==> rewritten[k] == RewrittenRoute(q.routes[k], hostOf)
    ensures q.(routes := rewritten) == Rewritten(q, hostOf)
  {
    hide RewrittenRoute;
    assert rewritten == Rewritten(q, hostOf).routes;
  }

  /** The aliases of one route, rewritten where they are stored. */
  method RewriteRoute(r: AgentRoute, hostOf: string -> string) returns (s: AgentRoute)
    ensures s == RewrittenRoute(r, hostOf)
  {
    var aliases := ArrayOf(r.aliases);
    var _ := RewriteInPlace(aliases, hostOf);
    s := r.(aliases := aliases[..]);
  }

  method ArrayOf(list: seq<string>) returns (a: array<string>)
    ensures fresh(a) && a[..] == list
  {
    a := new string[|list|](i requires 0 <= i < |list| => list[i]);
  }

  lemma PruneKeepsTable(t: Table, req: Request)
    requires ValidTable(t)
    ensures ValidTable(AfterPrune(t, req))
  {
    hide Kept;
    forall id | id in AfterPrune(t, req) ensures AfterPrune(t, req)[id].id == id {
      FateKeepsId(t[id], req);
    }
  }

  lemma SameHeader(p: Payload)
    requires Validated(p).Some?
    ensures var q := Validated(p).value; q.agent == p.agent && q.source == p.source && q.scope == p.scope && |q.routes| == |p.routes|
  {
  }
}
