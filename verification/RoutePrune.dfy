/**
  Pruning of the route table by a full state (internal/edge/agentstate.go): what the gateway keeps of an Agent for a source
  and the state no longer declares is removed, backend by backend.

  Host names are compared in ASCII lower case.
 */
module RoutePrune {
  import opened Optional
  import opened PoolSources

  datatype Backend = Backend(url: string, containerID: string, agentName: string, ownerEdge: string)

  /** A canary or a shadow. */
  datatype Target = Target(url: string, containerID: string)

  datatype Route = Route(id: string, host: string, aliases: seq<string>, agentName: string, backends: seq<Backend>,
                         canary: Option<Target>, shadow: Option<Target>)

  /** Routes by identifier. */
  type Table = map<string, Route>

  ghost predicate ValidTable(t: Table) {
    forall id :: id in t ==> t[id].id == id
  }

  function LowerChar(c: char): char {
    if 'A' <= c <= 'Z' then (c as int + 32) as char else c
  }

  function Lower(s: string): (r: string)
    ensures |r| == |s|
  {
    seq(|s|, i requires 0 <= i < |s| => LowerChar(s[i]))
  }

  predicate IsDockerDiscovery(id: string) {
    HasPrefix(id, "docker:") || HasPrefix(id, "docker-host:")
  }

  /** A full state as the prune step sees it: what it covers, and what it declares. */
  datatype Request = Request(agent: string, source: string, scope: string, hostContainers: map<string, seq<string>>,
                             routeIDs: set<string>)

  /** The containers declared for a host. */
  function DeclaredFor(req: Request, host: string): seq<string> {
    var h := Lower(host);
    if h in req.hostContainers then req.hostContainers[h] else []
  }

  predicate Declared(ps: PoolSource, declared: seq<string>, id: string) {
    exists i :: 0 <= i < |declared| && Same(ps, id, declared[i])
  }

  // ----- what one route keeps

  /** What the prune step never changes of a route, and on which its judgement depends. */
  datatype Head = Head(id: string, host: string, agentName: string)

  function HeadOf(rt: Route): Head {
    Head(rt.id, rt.host, rt.agentName)
  }

  function OwnerOf(h: Head, b: Backend): string {
    if b.agentName == "" then h.agentName else b.agentName
  }

  predicate PortainerApplies(h: Head, req: Request) {
    && HasPrefix(h.id, "portainer:") && h.agentName == req.agent
    && (req.scope == "" || PortainerEndpointOf(h.id) == req.scope)
  }

  predicate KeepsBackend(h: Head, req: Request, b: Backend) {
    var declared := DeclaredFor(req, h.host);
    if req.source == "portainer" then
      PortainerApplies(h, req) ==>
        b.ownerEdge != "" || b.containerID in declared || (b.containerID == "" && h.id in req.routeIDs)
    else
      var ps := PoolSourceOf(req.source);
      ps.Some? && IsDockerDiscovery(h.id) ==>
        b.ownerEdge != "" || OwnerOf(h, b) != req.agent || !Owns(ps.value, b.containerID) ||
        Declared(ps.value, declared, b.containerID)
  }

  predicate KeepsTarget(h: Head, req: Request, t: Target) {
    var declared := DeclaredFor(req, h.host);
    if req.source == "portainer" then
      PortainerApplies(h, req) ==> t.containerID in declared
    else
      var ps := PoolSourceOf(req.source);
      ps.Some? && IsDockerDiscovery(h.id) && h.agentName == req.agent ==>
        !Owns(ps.value, t.containerID) || Declared(ps.value, declared, t.containerID)
  }

  function KeptBackends(h: Head, req: Request, bs: seq<Backend>): (r: seq<Backend>)
    ensures |r| <= |bs|
  {
    if bs == [] then []
    else KeptBackends(h, req, bs[..|bs| - 1]) + (if KeepsBackend(h, req, bs[|bs| - 1]) then [bs[|bs| - 1]] else [])
  }

  function KeptTarget(h: Head, req: Request, t: Option<Target>): Option<Target> {
    if t.Some? && KeepsTarget(h, req, t.value) then t else None
  }

  predicate IsEmpty(rt: Route) {
    rt.backends == [] && rt.canary.None? && rt.shadow.None?
  }

  function Kept(rt: Route, req: Request): Route {
    var h := HeadOf(rt);
    rt.(backends := KeptBackends(h, req, rt.backends), canary := KeptTarget(h, req, rt.canary),
        shadow := KeptTarget(h, req, rt.shadow))
  }

  /** The fate of a route: unchanged, reduced, or gone when the change leaves nothing. */
  function Fate(rt: Route, req: Request): Option<Route> {
    var k := Kept(rt, req);
    if k == rt then Some(rt) else if IsEmpty(k) then None else Some(k)
  }

  function AfterPrune(t: Table, req: Request): Table {
    map id | id in t && Fate(t[id], req).Some? :: Fate(t[id], req).value
  }

  // ----- the loops

  lemma KeptSnoc(h: Head, req: Request, bs: seq<Backend>, i: nat)
    requires i < |bs|
    ensures KeptBackends(h, req, bs[..i + 1]) ==
            KeptBackends(h, req, bs[..i]) + (if KeepsBackend(h, req, bs[i]) then [bs[i]] else [])
  {
    assert bs[..i + 1][..i] == bs[..i];
  }

  class RouteTable {
    var routes: Table

    constructor (t: Table)
      ensures routes == t
    {
      routes := t;
    }

    /** The end of `prunePoolRoute` and of `prunePortainerRoute`: nothing to do, delete, or write back. */
    method WriteBack(id: string, req: Request, kept: seq<Backend>, canary: Option<Target>, shadow: Option<Target>, changed: bool)
      requires id in routes && ValidTable(routes)
      requires routes[id].(backends := kept, canary := canary, shadow := shadow) == Kept(routes[id], req)
      requires changed <==> Kept(routes[id], req) != routes[id]
      modifies this
      ensures routes == Replaced(old(routes), id, Fate(old(routes)[id], req))
    {
      hide Kept;
      if !changed {
        return;
      }
      var rt := routes[id].(backends := kept, canary := canary, shadow := shadow);
      assert rt.id == routes[id].id == id;
      if kept == [] && canary.None? && shadow.None? {
        routes := routes - {rt.id};
      } else {
        routes := routes[rt.id := rt];
      }
    }

    /** `prunePoolRoute`. */
    method PrunePoolRoute(id: string, req: Request, ps: PoolSource) returns (changed: bool)
      requires id in routes && ValidTable(routes) && IsDockerDiscovery(id)
      requires req.source != "portainer" && PoolSourceOf(req.source) == Some(ps)
      modifies this
      ensures changed <==> Fate(old(routes)[id], req) != Some(old(routes)[id])
      ensures routes == Replaced(old(routes), id, Fate(old(routes)[id], req))
    {
      hide PoolSourceOf, Owns, Declared, IsDockerDiscovery, DeclaredFor;
      var rt := routes[id];
      assert rt.id == id;
      var declared := DeclaredFor(req, rt.host);
      var kept;
      kept, changed := KeepPool(rt, req, declared, ps);
      var canary, shadow := rt.canary, rt.shadow;
      if rt.agentName == req.agent {
        if canary.Some? && Owns(ps, canary.value.containerID) && !Declared(ps, declared, canary.value.containerID) {
          canary, changed := None, true;
        }
        if shadow.Some? && Owns(ps, shadow.value.containerID) && !Declared(ps, declared, shadow.value.containerID) {
          shadow, changed := None, true;
        }
      }
      hide KeptBackends;
      WriteBack(id, req, kept, canary, shadow, changed);
    }

    /** `prunePortainerRoute`. */
    method PrunePortainerRoute(id: string, req: Request) returns (changed: bool)
      requires id in routes && ValidTable(routes) && req.source == "portainer" && PortainerApplies(HeadOf(routes[id]), req)
      modifies this
      ensures changed <==> Fate(old(routes)[id], req) != Some(old(routes)[id])
      ensures routes == Replaced(old(routes), id, Fate(old(routes)[id], req))
    {
      hide DeclaredFor, PortainerApplies;
      var rt := routes[id];
      var declared := DeclaredFor(req, rt.host);
      var kept;
      assert rt.id == id;
      kept, changed := KeepPortainer(rt, req, declared, rt.id in req.routeIDs);
      var canary, shadow := rt.canary, rt.shadow;
      if canary.Some? && canary.value.containerID !in declared {
        canary, changed := None, true;
      }
      if shadow.Some? && shadow.value.containerID !in declared {
        shadow, changed := None, true;
      }
      hide KeptBackends;
      WriteBack(id, req, kept, canary, shadow, changed);
    }

    /** One turn of the loop of `pruneAgentSource`. */
    method PruneRoute(id: string, req: Request) returns (changed: bool)
      requires id in routes && ValidTable(routes)
      modifies this
      ensures changed <==> Fate(old(routes)[id], req) != Some(old(routes)[id])
      ensures routes == Replaced(old(routes), id, Fate(old(routes)[id], req))
    {
      hide DeclaredFor, PoolSourceOf, IsDockerDiscovery;
      changed := false;
      var rt := routes[id];
      assert rt.id == id;
      if req.source == "portainer" {
        if !PortainerApplies(HeadOf(rt), req) {
          NotConcerned(rt, req);
          return;
        }
        changed := PrunePortainerRoute(id, req);
      } else {
        var ps := PoolSourceOf(req.source);
        if ps.None? || !IsDockerDiscovery(rt.id) {
          NotConcerned(rt, req);
          return;
        }
        changed := PrunePoolRoute(id, req, ps.value);
      }
    }

    /** `pruneAgentSource`: whatever the order of the routes, the table becomes `AfterPrune`; the changed routes are counted. */
    method PruneAgentSource(req: Request) returns (pruned: nat)
      requires ValidTable(routes)
      modifies this
      ensures routes == AfterPrune(old(routes), req)
      ensures pruned == |Touched(old(routes), req)|
    {
      hide Fate, HalfPruned, Touched, ValidTable;
      pruned := 0;
      ghost var t := routes;
      var todo := routes.Keys;
      HalfStart(t, req);
      TouchedStart(t, req);
      while todo != {}
        invariant todo <= t.Keys && HalfPruned(t, routes, req, todo) && ValidTable(routes)
        invariant pruned == |Touched(t, req) - todo|
        decreases todo
      {
        var id :| id in todo;
        ghost var before := routes;
        HalfTodo(t, routes, req, todo, id);
        var changed := PruneRoute(id, req);
        if changed {
          pruned := pruned + 1;
        }
        TouchedStep(t, req, todo, id);
        ValidReplaced(before, id, req);
        HalfStep(t, before, routes, req, todo, id);
        todo := todo - {id};
      }
      HalfEnd(t, routes, req);
      assert Touched(t, req) - {} == Touched(t, req);
    }
  }

  lemma TouchedStart(t: Table, req: Request)
    ensures |Touched(t, req) - t.Keys| == 0
  {
    hide Fate;
    assert Touched(t, req) - t.Keys == {};
  }

  lemma TouchedStep(t: Table, req: Request, todo: set<string>, id: string)
    requires id in todo && id in t
    ensures |Touched(t, req) - (todo - {id})| ==
            |Touched(t, req) - todo| + (if Fate(t[id], req) != Some(t[id]) then 1 else 0)
  {
    hide Fate;
    var s := Touched(t, req);
    if Fate(t[id], req) != Some(t[id]) {
      assert s - (todo - {id}) == (s - todo) + {id};
    } else {
      assert s - (todo - {id}) == s - todo;
    }
  }

  lemma ValidReplaced(t: Table, id: string, req: Request)
    requires ValidTable(t) && id in t
    ensures ValidTable(Replaced(t, id, Fate(t[id], req)))
  {
    hide Fate;
    FateKeepsId(t[id], req);
  }

  /** The routes a prune removes or reduces. */
  function Touched(t: Table, req: Request): set<string> {
    set id | id in t && Fate(t[id], req) != Some(t[id])
  }

  /** The table with the route of an identifier replaced, or deleted. */
  function Replaced(t: Table, id: string, rt: Option<Route>): Table {
    if rt.Some? then t[id := rt.value] else t - {id}
  }

  method KeepPool(rt: Route, req: Request, declared: seq<string>, ps: PoolSource) returns (kept: seq<Backend>, changed: bool)
    requires IsDockerDiscovery(rt.id) && declared == DeclaredFor(req, rt.host)
    requires req.source != "portainer" && PoolSourceOf(req.source) == Some(ps)
    ensures kept == KeptBackends(HeadOf(rt), req, rt.backends)
    ensures changed <==> kept != rt.backends
  {
    hide PoolSourceOf, Owns, Declared, IsDockerDiscovery, KeptBackends, DeclaredFor;
    kept, changed := [], false;
    NoneKept(HeadOf(rt), req, rt.backends);
    for i := 0 to |rt.backends|
      invariant kept == KeptBackends(HeadOf(rt), req, rt.backends[..i])
      invariant changed <==> |kept| < i
      invariant !changed ==> kept == rt.backends[..i]
    {
      KeptSnoc(HeadOf(rt), req, rt.backends, i);
      var b := rt.backends[i];
      var owner := b.agentName;
      if owner == "" {
        owner := rt.agentName;
      }
      if b.ownerEdge != "" || owner != req.agent || !Owns(ps, b.containerID) || Declared(ps, declared, b.containerID) {
        kept := kept + [b];
      } else {
        changed := true;
      }
    }
    assert rt.backends[..|rt.backends|] == rt.backends;
  }

  method KeepPortainer(rt: Route, req: Request, declared: seq<string>, idDeclared: bool)
    returns (kept: seq<Backend>, changed: bool)
    requires declared == DeclaredFor(req, rt.host) && (idDeclared <==> rt.id in req.routeIDs)
    requires req.source == "portainer" && PortainerApplies(HeadOf(rt), req)
    ensures kept == KeptBackends(HeadOf(rt), req, rt.backends)
    ensures changed <==> kept != rt.backends
  {
    hide PortainerApplies, KeptBackends, DeclaredFor;
    kept, changed := [], false;
    NoneKept(HeadOf(rt), req, rt.backends);
    for i := 0 to |rt.backends|
      invariant kept == KeptBackends(HeadOf(rt), req, rt.backends[..i])
      invariant changed <==> |kept| < i
      invariant !changed ==> kept == rt.backends[..i]
    {
      KeptSnoc(HeadOf(rt), req, rt.backends, i);
      var b := rt.backends[i];
      if b.ownerEdge != "" || b.containerID in declared || (b.containerID == "" && idDeclared) {
        kept := kept + [b];
      } else {
        changed := true;
      }
    }
    assert rt.backends[..|rt.backends|] == rt.backends;
  }

  /** A route outside what the state covers keeps everything. */
  lemma NotConcerned(rt: Route, req: Request)
    requires req.source == "portainer" ==> !PortainerApplies(HeadOf(rt), req)
    requires req.source != "portainer" ==> PoolSourceOf(req.source).None? || !IsDockerDiscovery(rt.id)
    ensures Fate(rt, req) == Some(rt)
  {
    hide DeclaredFor, PoolSourceOf, PortainerApplies, IsDockerDiscovery, KeptBackends;
    KeptBackendsFacts(HeadOf(rt), req, rt.backends);
  }

  lemma NoneKept(h: Head, req: Request, bs: seq<Backend>)
    ensures KeptBackends(h, req, bs[..0]) == []
  {
  }

  /** The routes in `todo` are as they were, the others pruned. */
  ghost predicate HalfPruned(t: Table, u: Table, req: Request, todo: set<string>) {
    && (forall id :: id in u ==> id in t)
    && (forall id :: id in todo && id in t ==> id in u && u[id] == t[id])
    && (forall id :: id in t && id !in todo ==>
          if Fate(t[id], req).Some? then id in u && u[id] == Fate(t[id], req).value else id !in u)
  }

  lemma HalfStart(t: Table, req: Request)
    ensures HalfPruned(t, t, req, t.Keys)
  {
  }

  lemma HalfTodo(t: Table, u: Table, req: Request, todo: set<string>, id: string)
    requires HalfPruned(t, u, req, todo) && id in todo && todo <= t.Keys
    ensures id in u && u[id] == t[id]
  {
  }

  lemma HalfStep(t: Table, u: Table, v: Table, req: Request, todo: set<string>, id: string)
    requires HalfPruned(t, u, req, todo) && id in todo && todo <= t.Keys
    requires v == Replaced(u, id, Fate(t[id], req))
    ensures HalfPruned(t, v, req, todo - {id})
  {
    hide Fate;
  }

  lemma HalfEnd(t: Table, u: Table, req: Request)
    requires HalfPruned(t, u, req, {})
    ensures u == AfterPrune(t, req)
  {
    hide Fate;
  }

  lemma FateKeepsId(rt: Route, req: Request)
    ensures Fate(rt, req).Some? ==> HeadOf(Fate(rt, req).value) == HeadOf(rt) && Fate(rt, req).value.aliases == rt.aliases
  {
  }

  // ----- what is left

  lemma {:induction false} KeptBackendsFacts(h: Head, req: Request, bs: seq<Backend>)
    ensures forall b :: b in KeptBackends(h, req, bs) <==> b in bs && KeepsBackend(h, req, b)
    ensures KeptBackends(h, req, bs) == bs <==> forall b :: b in bs ==> KeepsBackend(h, req, b)
  {
    hide KeepsBackend;
    if bs != [] {
      var k := |bs| - 1;
      KeptBackendsFacts(h, req, bs[..k]);
      assert bs == bs[..k] + [bs[k]];
      assert KeepsBackend(h, req, bs[k]) || |KeptBackends(h, req, bs)| < |bs|;
    }
  }

  /**
    After a prune for (agent, source): every backend left that belongs to that agent and source on this gateway is declared
    for the host of its route, and so are the canary and the shadow of a route of that agent.
   */
  lemma PruneLeavesOnlyDeclared(t: Table, req: Request, id: string, ps: PoolSource)
    requires req.source != "portainer" && PoolSourceOf(req.source) == Some(ps)
    requires id in AfterPrune(t, req) && ValidTable(t) && IsDockerDiscovery(id)
    ensures var rt, declared := AfterPrune(t, req)[id], DeclaredFor(req, t[id].host);
            && HeadOf(rt) == HeadOf(t[id])
            && (forall b :: b in rt.backends && b.ownerEdge == "" && OwnerOf(HeadOf(rt), b) == req.agent ==>
                  (Owns(ps, b.containerID) ==> Declared(ps, declared, b.containerID)))
            && (rt.agentName == req.agent && rt.canary.Some? && Owns(ps, rt.canary.value.containerID) ==>
                  Declared(ps, declared, rt.canary.value.containerID))
            && (rt.agentName == req.agent && rt.shadow.Some? && Owns(ps, rt.shadow.value.containerID) ==>
                  Declared(ps, declared, rt.shadow.value.containerID))
  {
    hide Owns, Declared, PoolSourceOf, KeptBackends, IsDockerDiscovery, HasPrefix;
    var h := HeadOf(t[id]);
    KeptBackendsFacts(h, req, t[id].backends);
    var rt := AfterPrune(t, req)[id];
    assert rt == Kept(t[id], req);
  }

  /** The same for Portainer: what is left on a route of the endpoint is declared, relayed, or unnamed on a declared route. */
  lemma PruneLeavesOnlyDeclaredPortainer(t: Table, req: Request, id: string)
    requires req.source == "portainer" && id in AfterPrune(t, req) && ValidTable(t) && PortainerApplies(HeadOf(t[id]), req)
    ensures var rt, declared := AfterPrune(t, req)[id], DeclaredFor(req, t[id].host);
            && (forall b :: b in rt.backends ==>
                  b.ownerEdge != "" || b.containerID in declared || (b.containerID == "" && id in req.routeIDs))
            && (rt.canary.Some? ==> rt.canary.value.containerID in declared)
            && (rt.shadow.Some? ==> rt.shadow.value.containerID in declared)
  {
    hide PortainerApplies, KeptBackends, DeclaredFor;
    KeptBackendsFacts(HeadOf(t[id]), req, t[id].backends);
    assert AfterPrune(t, req)[id] == Kept(t[id], req);
  }

  // ----- exactly what stays, on the table, the request and the backend

  /** The state declares this container for the host of the route. */
  predicate DeclaresContainer(req: Request, host: string, c: string) {
    Lower(host) in req.hostContainers && c in req.hostContainers[Lower(host)]
  }

  /** A container of the state that is the stored one, as the source compares them. */
  ghost predicate DeclaresSame(ps: PoolSource, req: Request, host: string, stored: string) {
    exists c :: DeclaresContainer(req, host, c) && Same(ps, stored, c)
  }

  lemma DeclaredMeans(ps: PoolSource, req: Request, host: string, stored: string)
    ensures Declared(ps, DeclaredFor(req, host), stored) <==> DeclaresSame(ps, req, host, stored)
    ensures forall c :: c in DeclaredFor(req, host) <==> DeclaresContainer(req, host, c)
  {
    hide Same, Lower;
    var declared := DeclaredFor(req, host);
    if Declared(ps, declared, stored) {
      var i :| 0 <= i < |declared| && Same(ps, stored, declared[i]);
      assert DeclaresContainer(req, host, declared[i]);
    }
    if DeclaresSame(ps, req, host, stored) {
      var c :| DeclaresContainer(req, host, c) && Same(ps, stored, c);
      var i :| 0 <= i < |declared| && declared[i] == c;
    }
  }

  /** What of a route is in the table afterwards: what its rule keeps. */
  lemma StaysIff(t: Table, req: Request, id: string)
    requires id in t
    ensures forall b :: b in t[id].backends ==>
              ((id in AfterPrune(t, req) && b in AfterPrune(t, req)[id].backends) <==> KeepsBackend(HeadOf(t[id]), req, b))
    ensures t[id].canary.Some? ==>
              ((id in AfterPrune(t, req) && AfterPrune(t, req)[id].canary == t[id].canary) <==>
               KeepsTarget(HeadOf(t[id]), req, t[id].canary.value))
    ensures t[id].shadow.Some? ==>
              ((id in AfterPrune(t, req) && AfterPrune(t, req)[id].shadow == t[id].shadow) <==>
               KeepsTarget(HeadOf(t[id]), req, t[id].shadow.value))
  {
    hide KeptBackends, KeepsBackend, KeepsTarget;
    KeptBackendsFacts(HeadOf(t[id]), req, t[id].backends);
    forall b | b in t[id].backends
      ensures (id in AfterPrune(t, req) && b in AfterPrune(t, req)[id].backends) <==> KeepsBackend(HeadOf(t[id]), req, b)
    {
      assert b in Kept(t[id], req).backends <==> KeepsBackend(HeadOf(t[id]), req, b);
    }
  }

  /**
    A discovery pool after the prune of a pool source. A backend stays if and only if it is relayed from another gateway,
    belongs to another agent, is not of the source, or is declared for the host; the canary and the shadow if and only if
    the route is another agent's, or they are not of the source, or they are declared.
   */
  lemma PoolStaysIff(t: Table, req: Request, id: string, ps: PoolSource)
    requires id in t && t[id].id == id && (HasPrefix(id, "docker:") || HasPrefix(id, "docker-host:"))
    requires req.source != "portainer" && PoolSourceOf(req.source) == Some(ps)
    ensures forall b :: b in t[id].backends ==>
              ((id in AfterPrune(t, req) && b in AfterPrune(t, req)[id].backends) <==>
               || b.ownerEdge != ""
               || (if b.agentName != "" then b.agentName else t[id].agentName) != req.agent
               || !Owns(ps, b.containerID)
               || DeclaresSame(ps, req, t[id].host, b.containerID))
    ensures t[id].canary.Some? ==>
              ((id in AfterPrune(t, req) && AfterPrune(t, req)[id].canary == t[id].canary) <==>
               || t[id].agentName != req.agent || !Owns(ps, t[id].canary.value.containerID)
               || DeclaresSame(ps, req, t[id].host, t[id].canary.value.containerID))
    ensures t[id].shadow.Some? ==>
              ((id in AfterPrune(t, req) && AfterPrune(t, req)[id].shadow == t[id].shadow) <==>
               || t[id].agentName != req.agent || !Owns(ps, t[id].shadow.value.containerID)
               || DeclaresSame(ps, req, t[id].host, t[id].shadow.value.containerID))
  {
    hide AfterPrune, Owns, PoolSourceOf, DeclaresSame, Declared, DeclaredFor, HasPrefix;
    StaysIff(t, req, id);
    forall c ensures Declared(ps, DeclaredFor(req, t[id].host), c) <==> DeclaresSame(ps, req, t[id].host, c) {
      DeclaredMeans(ps, req, t[id].host, c);
    }
  }

  /** A Portainer route of the agent and endpoint after the prune of a Portainer state, in the same way. */
  lemma PortainerStaysIff(t: Table, req: Request, id: string)
    requires id in t && t[id].id == id && req.source == "portainer"
    requires HasPrefix(id, "portainer:") && t[id].agentName == req.agent && (req.scope == "" || PortainerEndpointOf(id) == req.scope)
    ensures forall b :: b in t[id].backends ==>
              ((id in AfterPrune(t, req) && b in AfterPrune(t, req)[id].backends) <==>
               || b.ownerEdge != "" || DeclaresContainer(req, t[id].host, b.containerID)
               || (b.containerID == "" && id in req.routeIDs))
    ensures t[id].canary.Some? ==>
              ((id in AfterPrune(t, req) && AfterPrune(t, req)[id].canary == t[id].canary) <==>
               DeclaresContainer(req, t[id].host, t[id].canary.value.containerID))
    ensures t[id].shadow.Some? ==>
              ((id in AfterPrune(t, req) && AfterPrune(t, req)[id].shadow == t[id].shadow) <==>
               DeclaresContainer(req, t[id].host, t[id].shadow.value.containerID))
  {
    hide AfterPrune, DeclaredFor, HasPrefix, PortainerEndpointOf, DeclaresContainer;
    StaysIff(t, req, id);
    DeclaredMeans(Docker, req, t[id].host, "");
  }

  /** Backends stay in their order and number: a route keeps each of its backends as often as before, or not at all. */
  lemma {:induction false} KeptAsOften(h: Head, req: Request, bs: seq<Backend>, b: Backend)
    ensures multiset(KeptBackends(h, req, bs))[b] == if KeepsBackend(h, req, b) then multiset(bs)[b] else 0
  {
    hide KeepsBackend;
    if bs != [] {
      var k := |bs| - 1;
      KeptAsOften(h, req, bs[..k], b);
      assert bs == bs[..k] + [bs[k]];
    }
  }

  /** Lower case in ASCII. */
  lemma LowerMeans(s: string, i: nat)
    requires i < |s|
    ensures Lower(s)[i] == if 'A' <= s[i] <= 'Z' then s[i] - 'A' + 'a' else s[i]
  {
  }

  /** A changed route is never left empty, and a route goes only when the change leaves nothing of it. */
  lemma ChangedRoutesNotEmpty(t: Table, req: Request, id: string)
    requires id in t
    ensures id in AfterPrune(t, req) && AfterPrune(t, req)[id] != t[id] ==> !IsEmpty(AfterPrune(t, req)[id])
    ensures id !in AfterPrune(t, req) <==> !IsEmpty(t[id]) && IsEmpty(Kept(t[id], req))
  {
  }

  /** A route that the source of the state does not manage: not a discovery pool, or not of its Portainer endpoint. */
  predicate Elsewhere(h: Head, req: Request) {
    if req.source == "portainer" then !PortainerApplies(h, req) else !IsDockerDiscovery(h.id)
  }

  /** A container of another pool source; identifiers that two sources own are left out. */
  predicate OfOtherSource(req: Request, containerID: string, other: string) {
    && req.source != "portainer" && other != req.source
    && PoolSourceOf(other).Some? && Owns(PoolSourceOf(other).value, containerID)
    && !(HasPrefix(containerID, "k8s:") && '@' in containerID)
  }

  /** Another route, another gateway, another agent or another source. */
  predicate ForeignBackend(h: Head, req: Request, b: Backend, other: string) {
    || Elsewhere(h, req) || b.ownerEdge != "" || OfOtherSource(req, b.containerID, other)
    || (req.source != "portainer" && OwnerOf(h, b) != req.agent)
  }

  predicate ForeignTarget(h: Head, req: Request, t: Target, other: string) {
    || Elsewhere(h, req) || OfOtherSource(req, t.containerID, other)
    || (req.source != "portainer" && h.agentName != req.agent)
  }

  lemma OtherSourceNotOwned(req: Request, containerID: string, other: string)
    requires OfOtherSource(req, containerID, other) && PoolSourceOf(req.source).Some?
    ensures !Owns(PoolSourceOf(req.source).value, containerID)
  {
    OwnersOverlapIff(other, req.source, containerID);
    if HasSuffix(containerID, "@" + req.source) {
      SuffixHasAt(containerID, req.source);
    }
    if HasSuffix(containerID, "@" + other) {
      SuffixHasAt(containerID, other);
    }
  }

  lemma ForeignKept(h: Head, req: Request, b: Backend, t: Target, other: string)
    ensures ForeignBackend(h, req, b, other) ==> KeepsBackend(h, req, b)
    ensures ForeignTarget(h, req, t, other) ==> KeepsTarget(h, req, t)
  {
    hide Owns, PoolSourceOf, Declared, DeclaredFor, IsDockerDiscovery, PortainerApplies;
    if PoolSourceOf(req.source).Some? {
      if OfOtherSource(req, b.containerID, other) {
        OtherSourceNotOwned(req, b.containerID, other);
      }
      if OfOtherSource(req, t.containerID, other) {
        OtherSourceNotOwned(req, t.containerID, other);
      }
    }
  }

  /** What belongs to another route, agent, gateway or source is kept where it was: backends, canary and shadow. */
  lemma PruneSparesOthers(t: Table, req: Request, id: string, other: string)
    requires id in t
    ensures forall b :: b in t[id].backends && ForeignBackend(HeadOf(t[id]), req, b, other) ==>
              id in AfterPrune(t, req) && b in AfterPrune(t, req)[id].backends
    ensures t[id].canary.Some? && ForeignTarget(HeadOf(t[id]), req, t[id].canary.value, other) ==>
              id in AfterPrune(t, req) && AfterPrune(t, req)[id].canary == t[id].canary
    ensures t[id].shadow.Some? && ForeignTarget(HeadOf(t[id]), req, t[id].shadow.value, other) ==>
              id in AfterPrune(t, req) && AfterPrune(t, req)[id].shadow == t[id].shadow
  {
    hide KeptBackends, KeepsBackend, KeepsTarget, ForeignBackend, ForeignTarget;
    var rt, h := t[id], HeadOf(t[id]);
    KeptBackendsFacts(h, req, rt.backends);
    var anyB, anyT := Backend("", "", "", ""), Target("", "");
    forall b | b in rt.backends && ForeignBackend(h, req, b, other) ensures b in Kept(rt, req).backends {
      ForeignKept(h, req, b, anyT, other);
    }
    if rt.canary.Some? {
      ForeignKept(h, req, anyB, rt.canary.value, other);
    }
    if rt.shadow.Some? {
      ForeignKept(h, req, anyB, rt.shadow.value, other);
    }
  }

  // ----- two prune steps

  lemma {:induction false} KeptTwice(h: Head, p: Request, q: Request, bs: seq<Backend>)
    ensures KeptBackends(h, q, KeptBackends(h, p, bs)) == KeptBackends(h, p, KeptBackends(h, q, bs))
    ensures KeptBackends(h, p, KeptBackends(h, p, bs)) == KeptBackends(h, p, bs)
  {
    hide KeepsBackend;
    if bs != [] {
      var k := |bs| - 1;
      var low, b := bs[..k], bs[k];
      KeptTwice(h, p, q, low);
      KeptAppend(h, q, KeptBackends(h, p, low), b);
      KeptAppend(h, p, KeptBackends(h, q, low), b);
      KeptAppend(h, p, KeptBackends(h, p, low), b);
      var x, y := KeptBackends(h, p, low), KeptBackends(h, q, low);
      assert x + [] == x && y + [] == y;
      assert KeptBackends(h, q, x) + [] == KeptBackends(h, q, x);
      assert KeptBackends(h, p, y) + [] == KeptBackends(h, p, y);
    }
  }

  lemma KeptAppend(h: Head, p: Request, bs: seq<Backend>, b: Backend)
    ensures KeptBackends(h, p, bs + [b]) == KeptBackends(h, p, bs) + (if KeepsBackend(h, p, b) then [b] else [])
  {
    assert (bs + [b])[..|bs|] == bs;
  }

  lemma {:induction false} KeptSame(h: Head, p: Request, q: Request, bs: seq<Backend>)
    requires KeptBackends(h, q, KeptBackends(h, p, bs)) == bs
    ensures KeptBackends(h, p, bs) == bs
  {
    KeptBackendsFacts(h, p, bs);
    KeptBackendsFacts(h, q, KeptBackends(h, p, bs));
  }

  lemma KeptCommutes(rt: Route, p: Request, q: Request)
    ensures Kept(Kept(rt, p), q) == Kept(Kept(rt, q), p)
    ensures Kept(Kept(rt, p), p) == Kept(rt, p)
  {
    hide KeepsBackend, KeepsTarget, KeptBackends;
    KeptTwice(HeadOf(rt), p, q, rt.backends);
  }

  /** Once both steps have passed, a route is what both keep, or gone if that is nothing and something was removed. */
  lemma FateTwice(rt: Route, p: Request, q: Request)
    ensures var k := Kept(Kept(rt, p), q);
            (match Fate(rt, p) case None => None case Some(r) => Fate(r, q)) ==
            if k == rt then Some(rt) else if IsEmpty(k) then None else Some(k)
  {
    hide KeepsBackend, KeepsTarget, KeptBackends;
    var a := Kept(rt, p);
    var k := Kept(a, q);
    if k == rt {
      KeptSame(HeadOf(rt), p, q, rt.backends);
      assert a == rt;
    }
    if IsEmpty(a) {
      EmptyKept(a, q);
    }
  }

  lemma EmptyKept(rt: Route, q: Request)
    requires IsEmpty(rt)
    ensures Kept(rt, q) == rt
  {
  }

  /**
    Any two prune steps commute on every table, whatever their agents, sources and declarations, and a step repeated
    changes nothing more.
   */
  lemma PrunesCommute(t: Table, p: Request, q: Request)
    ensures AfterPrune(AfterPrune(t, p), q) == AfterPrune(AfterPrune(t, q), p)
    ensures AfterPrune(AfterPrune(t, p), p) == AfterPrune(t, p)
  {
    hide Fate, Kept;
    forall id | id in t
      ensures PrunedAt(AfterPrune(AfterPrune(t, p), q), id) == PrunedAt(AfterPrune(AfterPrune(t, q), p), id)
      ensures PrunedAt(AfterPrune(AfterPrune(t, p), p), id) == PrunedAt(AfterPrune(t, p), id)
    {
      PrunedTwice(t, p, q, id);
      PrunedTwice(t, q, p, id);
      PrunedTwice(t, p, p, id);
      FateTwice(t[id], p, q);
      FateTwice(t[id], q, p);
      FateTwice(t[id], p, p);
      KeptCommutes(t[id], p, q);
      FateOnce(t[id], p);
    }
    SameTable(t, AfterPrune(AfterPrune(t, p), q), AfterPrune(AfterPrune(t, q), p));
    SameTable(t, AfterPrune(AfterPrune(t, p), p), AfterPrune(t, p));
  }

  function PrunedAt(t: Table, id: string): Option<Route> {
    if id in t then Some(t[id]) else None
  }

  lemma PrunedTwice(t: Table, p: Request, q: Request, id: string)
    requires id in t
    ensures PrunedAt(AfterPrune(t, p), id) == Fate(t[id], p)
    ensures PrunedAt(AfterPrune(AfterPrune(t, p), q), id) == match Fate(t[id], p) case None => None case Some(r) => Fate(r, q)
  {
    hide Fate;
  }

  lemma FateOnce(rt: Route, p: Request)
    ensures Fate(rt, p) == if Kept(rt, p) == rt then Some(rt) else if IsEmpty(Kept(rt, p)) then None else Some(Kept(rt, p))
  {
  }

  lemma SameTable(t: Table, u: Table, v: Table)
    requires u.Keys <= t.Keys && v.Keys <= t.Keys && forall id :: id in t ==> PrunedAt(u, id) == PrunedAt(v, id)
    ensures u == v
  {
    forall id | id in t ensures id in u <==> id in v {
      assert PrunedAt(u, id) == PrunedAt(v, id);
    }
    assert u.Keys == v.Keys;
    forall id | id in u ensures u[id] == v[id] {
      assert PrunedAt(u, id) == PrunedAt(v, id);
    }
  }
}
