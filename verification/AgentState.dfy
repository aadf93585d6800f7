/**
  Full states of Agents on one gateway: validation, key and generation filter (internal/edge/agentstate.go), content hash
  and store (internal/edge/agentstate_replica.go).

  A route is its sort fields, its aliases and `rest`, everything else it carries; so is an inactive container. The SHA-256 of a JSON document
  is modelled by the document itself: no two documents collide.
 */
module AgentState {
  import opened Optional
  import opened PoolSources
  import opened RoutePrune
  import opened SortByKey
  import opened AliasRewrite

  datatype AgentRoute = AgentRoute(id: string, host: string, containerID: string, agentName: string, source: string,
                                   aliases: seq<string>, rest: string)

  datatype Inactive = Inactive(host: string, containerID: string, rest: string)

  datatype Payload = Payload(agent: string, source: string, scope: string, generation: int, routes: seq<AgentRoute>,
                             inactive: seq<Inactive>)

  // ----- validation

  /** Routes without an agent or a source get those of the state. */
  function Filled(p: Payload, r: AgentRoute): AgentRoute {
    r.(agentName := if r.agentName == "" then p.agent else r.agentName,
       source := if r.source == "" then p.source else r.source)
  }

  function FilledRoutes(p: Payload): (r: seq<AgentRoute>)
    ensures |r| == |p.routes| && forall i :: 0 <= i < |r| ==> r[i] == Filled(p, p.routes[i])
  {
    seq(|p.routes|, i requires 0 <= i < |p.routes| => Filled(p, p.routes[i]))
  }

  predicate RouteOk(p: Payload, r: AgentRoute) {
    && r.agentName == p.agent && r.source == p.source
    && (p.source == "portainer" && p.scope != "" ==> HasPrefix(r.id, "portainer:" + p.scope + ":"))
  }

  function KeptInactive(s: seq<Inactive>): seq<Inactive> {
    if s == [] then []
    else
      var e := s[|s| - 1];
      KeptInactive(s[..|s| - 1]) + (if e.host != "" && e.containerID != "" then [e] else [])
  }

  predicate HeaderOk(p: Payload) {
    p.agent != "" && (PoolSourceOf(p.source).Some? || p.source == "portainer") && p.generation > 0
  }

  /** `validate`: the state with its routes filled and its unusable inactive entries dropped, or a refusal. */
  function Validated(p: Payload): Option<Payload> {
    var q := p.(routes := FilledRoutes(p), inactive := KeptInactive(p.inactive));
    if HeaderOk(p) && forall i :: 0 <= i < |q.routes| ==> RouteOk(p, q.routes[i]) then Some(q) else None
  }

  method Validate(p: Payload) returns (r: Option<Payload>)
    ensures r == Validated(p)
  {
    hide PoolSourceOf, RouteOk;
    if !HeaderOk(p) {
      return None;
    }
    var kept: seq<Inactive> := [];
    for i := 0 to |p.inactive|
      invariant kept == KeptInactive(p.inactive[..i])
    {
      var e := p.inactive[i];
      assert p.inactive[..i + 1][..i] == p.inactive[..i];
      if e.host != "" && e.containerID != "" {
        kept := kept + [e];
      }
    }
    assert p.inactive[..|p.inactive|] == p.inactive;
    var routes: seq<AgentRoute> := [];
    for i := 0 to |p.routes|
      invariant |routes| == i && forall k :: 0 <= k < i ==> routes[k] == Filled(p, p.routes[k]) && RouteOk(p, routes[k])
    {
      var x := p.routes[i];
      if x.agentName == "" {
        x := x.(agentName := p.agent);
      }
      if x.source == "" {
        x := x.(source := p.source);
      }
      if !RouteOk(p, x) {
        assert x == FilledRoutes(p)[i];
        return None;
      }
      routes := routes + [x];
    }
    assert routes == FilledRoutes(p);
    return Some(p.(routes := routes, inactive := kept));
  }

  /**
    What `validate` demands, in the terms of the state: an agent, a source with a full state, a positive generation, and
    routes of that agent and source (or of none), within the endpoint when there is one.
   */
  lemma ValidatedIff(p: Payload)
    ensures Validated(p).Some? <==>
            && p.agent != "" && p.generation > 0 && (p.source == "portainer" || PoolSourceOf(p.source).Some?)
            && forall i :: 0 <= i < |p.routes| ==>
                 && p.routes[i].agentName in {"", p.agent} && p.routes[i].source in {"", p.source}
                 && (p.source == "portainer" && p.scope != "" ==> "portainer:" + p.scope + ":" <= p.routes[i].id)
  {
    hide PoolSourceOf;
    var q := FilledRoutes(p);
    forall i | 0 <= i < |p.routes|
      ensures RouteOk(p, q[i]) <==>
              && p.routes[i].agentName in {"", p.agent} && p.routes[i].source in {"", p.source}
              && (p.source == "portainer" && p.scope != "" ==> "portainer:" + p.scope + ":" <= p.routes[i].id)
    {
      assert q[i] == Filled(p, p.routes[i]);
    }
  }

  lemma CountLast(s: seq<Inactive>, e: Inactive)
    requires s != []
    ensures multiset(s)[e] == multiset(s[..|s| - 1])[e] + (if s[|s| - 1] == e then 1 else 0)
  {
    assert s == s[..|s| - 1] + [s[|s| - 1]];
  }

  /** The inactive entries kept: those with a host and a container, each as often as before. */
  lemma {:induction false} KeptInactiveMeans(s: seq<Inactive>, e: Inactive)
    ensures multiset(KeptInactive(s))[e] == if e.host != "" && e.containerID != "" then multiset(s)[e] else 0
  {
    if s != [] {
      var k := |s| - 1;
      var low, kept := KeptInactive(s[..k]), KeptInactive(s);
      KeptInactiveMeans(s[..k], e);
      CountLast(s, e);
      if s[k].host != "" && s[k].containerID != "" {
        assert kept == low + [s[k]] && kept[..|kept| - 1] == low;
        CountLast(kept, e);
      } else {
        assert kept == low;
      }
    }
  }

  lemma {:induction false} KeptInactiveTwice(s: seq<Inactive>)
    ensures KeptInactive(KeptInactive(s)) == KeptInactive(s)
  {
    if s != [] {
      var k := |s| - 1;
      KeptInactiveTwice(s[..k]);
      var low := KeptInactive(s[..k]);
      assert (low + [s[k]])[..|low|] == low && low + [] == low;
    }
  }

  /** A state that passed passes again unchanged: what a peer retained is accepted by the others as it is. */
  lemma ValidatedTwice(p: Payload)
    requires Validated(p).Some?
    ensures var q := Validated(p).value;
            Validated(q) == Some(q) && q.generation == p.generation > 0 && Key(q) == Key(p)
  {
    hide PoolSourceOf, HasPrefix;
    var q := Validated(p).value;
    KeptInactiveTwice(p.inactive);
    forall i | 0 <= i < |q.routes| ensures Filled(q, q.routes[i]) == q.routes[i] && RouteOk(q, q.routes[i]) {
      assert RouteOk(p, FilledRoutes(p)[i]);
    }
    assert FilledRoutes(q) == q.routes;
  }

  // ----- the key

  // ----- what applying the routes leaves of a state

  function RewrittenRoute(r: AgentRoute, hostOf: string -> string): AgentRoute {
    r.(aliases := RewrittenAliases(r.aliases, hostOf))
  }

  /** The state that is kept: every route has passed through `applyAgentRoute`, which rewrites its aliases in place. */
  function Rewritten(p: Payload, hostOf: string -> string): (q: Payload)
    ensures q.agent == p.agent && q.source == p.source && q.scope == p.scope && q.generation == p.generation
    ensures q.inactive == p.inactive && |q.routes| == |p.routes|
    ensures forall i :: 0 <= i < |q.routes| ==> q.routes[i] == RewrittenRoute(p.routes[i], hostOf)
  {
    p.(routes := seq(|p.routes|, i requires 0 <= i < |p.routes| => RewrittenRoute(p.routes[i], hostOf)))
  }

  /** A validated state stays valid and keeps its key. */
  lemma RewrittenValid(p: Payload, hostOf: string -> string)
    requires Validated(p) == Some(p)
    ensures Validated(Rewritten(p, hostOf)) == Some(Rewritten(p, hostOf)) && Key(Rewritten(p, hostOf)) == Key(p)
  {
    hide PoolSourceOf, RewrittenAliases;
    var q := Rewritten(p, hostOf);
    forall i | 0 <= i < |q.routes| ensures RouteOk(q, FilledRoutes(q)[i]) && FilledRoutes(q)[i] == q.routes[i] {
      assert RouteOk(p, FilledRoutes(p)[i]) && FilledRoutes(p)[i] == p.routes[i];
    }
    assert FilledRoutes(q) == q.routes;
  }

  function Key(p: Payload): string {
    p.agent + "|" + p.source + "|" + p.scope
  }

  /** Text up to the first separator is determined by the whole. */
  lemma SplitAt(c: char, a: string, x: string, b: string, y: string)
    requires c !in a && c !in b && a + [c] + x == b + [c] + y
    ensures a == b && x == y
  {
    var s := a + [c] + x;
    assert s[|a|] == c && s[|b|] == c;
    assert forall i :: 0 <= i < |a| ==> s[i] == a[i];
    assert forall i :: 0 <= i < |b| ==> s[i] == b[i];
    assert |a| == |b|;
    assert a == s[..|a|] && b == s[..|b|];
    assert x == s[|a| + 1..] && y == s[|b| + 1..];
  }

  lemma SourceHasNoBar(source: string)
    requires PoolSourceOf(source).Some? || source == "portainer"
    ensures '|' !in source
  {
    if DirectoryName(source) {
      forall i | 0 <= i < |source| ensures source[i] != '|' {
      }
    }
  }

  /** The key tells agent, source and scope apart for every valid state whose Agent has no `|` in its name. */
  lemma KeyInjective(p: Payload, q: Payload)
    requires HeaderOk(p) && HeaderOk(q) && '|' !in p.agent && '|' !in q.agent && Key(p) == Key(q)
    ensures p.agent == q.agent && p.source == q.source && p.scope == q.scope
  {
    hide PoolSourceOf;
    var x, y := p.source + "|" + p.scope, q.source + "|" + q.scope;
    assert Key(p) == p.agent + "|" + x && Key(q) == q.agent + "|" + y;
    SplitAt('|', p.agent, x, q.agent, y);
    SourceHasNoBar(p.source);
    SourceHasNoBar(q.source);
    SplitAt('|', p.source, p.scope, q.source, q.scope);
  }

  // ----- the content hash

  function RouteKey(r: AgentRoute): seq<string> {
    [r.id, r.host, r.containerID]
  }

  function InactiveKey(e: Inactive): seq<string> {
    [e.host, e.containerID]
  }

  /** Routes are sorted by identifier, then host, then container; inactive entries by host, then container. */
  lemma SortKeysMean(a: AgentRoute, b: AgentRoute, x: Inactive, y: Inactive)
    ensures KeyLess(RouteKey(a), RouteKey(b)) <==>
            if a.id != b.id then StrLess(a.id, b.id)
            else if a.host != b.host then StrLess(a.host, b.host) else StrLess(a.containerID, b.containerID)
    ensures KeyLess(InactiveKey(x), InactiveKey(y)) <==>
            if x.host != y.host then StrLess(x.host, y.host) else StrLess(x.containerID, y.containerID)
  {
    hide StrLess, KeyLess;
    StrTotal(a.id, a.id);
    StrTotal(a.host, a.host);
    StrTotal(x.host, x.host);
    KeyLessCons(a.id, [a.host, a.containerID], b.id, [b.host, b.containerID]);
    KeyLessCons(a.host, [a.containerID], b.host, [b.containerID]);
    KeyLessLast(a.containerID, b.containerID);
    KeyLessCons(x.host, [x.containerID], y.host, [y.containerID]);
    KeyLessLast(x.containerID, y.containerID);
    assert RouteKey(a) == [a.id] + [a.host, a.containerID] && RouteKey(b) == [b.id] + [b.host, b.containerID];
    assert [a.host, a.containerID] == [a.host] + [a.containerID] && [b.host, b.containerID] == [b.host] + [b.containerID];
    assert InactiveKey(x) == [x.host] + [x.containerID] && InactiveKey(y) == [y.host] + [y.containerID];
  }

  lemma KeyLessCons(a: string, s: seq<string>, b: string, t: seq<string>)
    ensures KeyLess([a] + s, [b] + t) <==> StrLess(a, b) || (a == b && KeyLess(s, t))
  {
    hide StrLess;
    assert ([a] + s)[1..] == s && ([b] + t)[1..] == t;
  }

  lemma KeyLessLast(a: string, b: string)
    ensures KeyLess([a], [b]) <==> StrLess(a, b)
  {
    hide StrLess;
    assert [a][1..] == [] && [b][1..] == [];
    assert !KeyLess([], []);
  }

  /** The hash of a state: the document of its sorted routes and inactive entries. */
  datatype Hash = Sha256(routes: seq<AgentRoute>, inactive: seq<Inactive>)

  function ContentHash(p: Payload): Hash {
    Sha256(Sort(p.routes, RouteKey), Sort(p.inactive, InactiveKey))
  }

  /** The same routes and inactive entries, in any order. */
  ghost predicate SameContent(p: Payload, q: Payload) {
    multiset(p.routes) == multiset(q.routes) && multiset(p.inactive) == multiset(q.inactive)
  }

  /** Equal hashes mean equal content; equal content hashes the same when sort keys tell the entries apart. */
  lemma HashEqualIffSameContent(p: Payload, q: Payload)
    ensures ContentHash(p) == ContentHash(q) ==> SameContent(p, q)
    ensures KeysDetermine(p.routes, RouteKey) && KeysDetermine(p.inactive, InactiveKey) && SameContent(p, q) ==>
              ContentHash(p) == ContentHash(q)
  {
    hide Sort, KeyLess;
    SortIsSortedCopy(p.routes, RouteKey);
    SortIsSortedCopy(q.routes, RouteKey);
    SortIsSortedCopy(p.inactive, InactiveKey);
    SortIsSortedCopy(q.inactive, InactiveKey);
    if KeysDetermine(p.routes, RouteKey) && KeysDetermine(p.inactive, InactiveKey) && SameContent(p, q) {
      SortOrderIndependent(p.routes, q.routes, RouteKey);
      SortOrderIndependent(p.inactive, q.inactive, InactiveKey);
    }
  }

  /** A peer that receives the kept state and rewrites it again keeps the same. */
  predicate SettledState(p: Payload, hostOf: string -> string) {
    Rewritten(Rewritten(p, hostOf), hostOf) == Rewritten(p, hostOf)
  }

  lemma SettledIff(p: Payload, hostOf: string -> string)
    ensures SettledState(p, hostOf) <==> forall i :: 0 <= i < |p.routes| ==> Settles(p.routes[i].aliases, hostOf)
  {
    hide RewrittenAliases;
    var once := Rewritten(p, hostOf);
    var twice := Rewritten(once, hostOf);
    forall i | 0 <= i < |p.routes| ensures Settles(p.routes[i].aliases, hostOf) <==> twice.routes[i] == once.routes[i] {
    }
    assert twice == once <==> twice.routes == once.routes;
  }

  /** When sort keys tell the routes apart, the hash too stays the same exactly then. */
  lemma SettledHashIff(p: Payload, hostOf: string -> string)
    requires KeysDetermine(Rewritten(p, hostOf).routes, RouteKey)
    ensures ContentHash(Rewritten(Rewritten(p, hostOf), hostOf)) == ContentHash(Rewritten(p, hostOf)) <==> SettledState(p, hostOf)
  {
    hide RewrittenAliases, ContentHash;
    var once := Rewritten(p, hostOf);
    var twice := Rewritten(once, hostOf);
    HashEqualIffSameContent(twice, once);
    if ContentHash(twice) == ContentHash(once) {
      forall i | 0 <= i < |once.routes| ensures twice.routes[i] == once.routes[i] {
        assert twice.routes[i] in multiset(twice.routes);
        assert twice.routes[i] in once.routes;
        assert RouteKey(twice.routes[i]) == RouteKey(once.routes[i]);
      }
      assert twice.routes == once.routes;
    }
  }

  // ----- the store

  datatype Store = Store(states: map<string, Payload>, hashes: map<string, Hash>)

  const EMPTY_STORE := Store(map[], map[])

  ghost predicate StoreOk(s: Store) {
    && s.states.Keys == s.hashes.Keys
    && forall k :: k in s.states ==> Key(s.states[k]) == k && s.hashes[k] == ContentHash(s.states[k])
  }

  predicate Newer(s: Store, p: Payload) {
    Key(p) !in s.states || s.states[Key(p)].generation < p.generation
  }

  function Put(s: Store, p: Payload): Store {
    if Newer(s, p) then Store(s.states[Key(p) := p], s.hashes[Key(p) := ContentHash(p)]) else s
  }

  /** The state is newer than what is kept for its key, and its content differs or nothing was kept. */
  predicate Changes(s: Store, p: Payload) {
    Newer(s, p) && (Key(p) !in s.states || ContentHash(s.states[Key(p)]) != ContentHash(p))
  }

  class AgentStateStore {
    var states: map<string, Payload>
    var hashes: map<string, Hash>

    constructor ()
      ensures Value() == EMPTY_STORE
    {
      states, hashes := map[], map[];
    }

    function Value(): Store
      reads this
    {
      Store(states, hashes)
    }

    /** `put`: keeps the state if it is newer, and tells whether the content changed. */
    method PutState(p: Payload) returns (changed: bool)
      requires StoreOk(Value())
      modifies this
      ensures StoreOk(Value()) && Value() == Put(old(Value()), p)
      ensures changed <==> Changes(old(Value()), p)
    {
      hide ContentHash, Key;
      var k := Key(p);
      if k in states && states[k].generation >= p.generation {
        return false;
      }
      var h := ContentHash(p);
      changed := k !in states || hashes[k] != h;
      states := states[k := p];
      hashes := hashes[k := h];
    }
  }

  /** What `put` keeps: a later state of its key, or the first, with its hash, and nothing otherwise. */
  lemma PutMeans(s: Store, p: Payload, k: string)
    ensures Key(p) in s.states && s.states[Key(p)].generation >= p.generation ==> Put(s, p) == s
    ensures Key(p) !in s.states || s.states[Key(p)].generation < p.generation ==>
              && Key(p) in Put(s, p).states && Put(s, p).states[Key(p)] == p
              && Key(p) in Put(s, p).hashes && Put(s, p).hashes[Key(p)] == ContentHash(p)
    ensures k != Key(p) ==> (k in Put(s, p).states <==> k in s.states) && (k in s.states ==> Put(s, p).states[k] == s.states[k])
  {
    hide Key, ContentHash;
  }

  /** `put` reports a change exactly when a newer state has other routes or inactive entries, or none was kept. */
  lemma ChangeMeansContent(s: Store, p: Payload)
    requires KeysDetermine(p.routes, RouteKey) && KeysDetermine(p.inactive, InactiveKey)
    ensures Changes(s, p) <==> Newer(s, p) && (Key(p) in s.states ==> !SameContent(p, s.states[Key(p)]))
  {
    hide ContentHash, KeysDetermine, Key;
    if Key(p) in s.states {
      HashEqualIffSameContent(p, s.states[Key(p)]);
    }
  }

  class AgentGenerations {
    var last: map<string, int>

    constructor ()
      ensures last == map[]
    {
      last := map[];
    }

    /** `accept`: a generation passes if it is later than the last accepted one for the key, and is then the last. */
    method Accept(key: string, gen: int) returns (ok: bool)
      modifies this
      ensures ok <==> gen > LastOf(old(last), key)
      ensures last == if ok then old(last)[key := gen] else old(last)
    {
      if gen <= LastOf(last, key) {
        return false;
      }
      last := last[key := gen];
      ok := true;
    }
  }

  function LastOf(last: map<string, int>, key: string): int {
    if key in last then last[key] else 0
  }

  // ----- what a state declares to the prune step

  /** The containers a state declares for a host. */
  function ContainersFor(routes: seq<AgentRoute>, hostOf: string -> string, host: string): seq<string> {
    if routes == [] then []
    else
      var r := routes[|routes| - 1];
      ContainersFor(routes[..|routes| - 1], hostOf, host) + (if Lower(hostOf(r.host)) == host then [r.containerID] else [])
  }

  function RouteIds(routes: seq<AgentRoute>): set<string> {
    set i | 0 <= i < |routes| :: routes[i].id
  }

  function HostList(req: Request, host: string): seq<string> {
    if host in req.hostContainers then req.hostContainers[host] else []
  }

  /** The request says what the state declares. */
  ghost predicate Says(req: Request, p: Payload, routes: seq<AgentRoute>, hostOf: string -> string) {
    && req.agent == p.agent && req.source == p.source && req.scope == p.scope
    && req.routeIDs == RouteIds(routes)
    && forall host :: HostList(req, host) == ContainersFor(routes, hostOf, host)
  }

  /** The loop of `acceptAgentState` that collects declared containers by host; `hostOf` is `ParseHostEntry`. */
  method CollectDeclared(p: Payload, hostOf: string -> string) returns (req: Request)
    ensures Says(req, p, p.routes, hostOf)
  {
    req := Request(p.agent, p.source, p.scope, map[], {});
    for i := 0 to |p.routes|
      invariant Says(req, p, p.routes[..i], hostOf)
    {
      var r := p.routes[i];
      var h := Lower(hostOf(r.host));
      var known := HostList(req, h);
      ghost var before := req;
      req := req.(hostContainers := req.hostContainers[h := known + [r.containerID]], routeIDs := req.routeIDs + {r.id});
      SaysStep(before, req, p, i, hostOf);
    }
    assert p.routes[..|p.routes|] == p.routes;
  }

  lemma SaysStep(req: Request, next: Request, p: Payload, i: nat, hostOf: string -> string)
    requires i < |p.routes| && Says(req, p, p.routes[..i], hostOf)
    requires var r := p.routes[i];
             var h := Lower(hostOf(r.host));
             next == req.(hostContainers := req.hostContainers[h := ContainersFor(p.routes[..i], hostOf, h) + [r.containerID]],
                          routeIDs := req.routeIDs + {r.id})
    ensures Says(next, p, p.routes[..i + 1], hostOf)
  {
    hide Lower, ContainersFor;
    var before, after := p.routes[..i], p.routes[..i + 1];
    forall host ensures HostList(next, host) == ContainersFor(after, hostOf, host) {
      assert HostList(req, host) == ContainersFor(before, hostOf, host);
      ContainersSnoc(p.routes, i, hostOf, host);
    }
    hide RouteIds;
    RouteIdsSnoc(p.routes, i);
  }

  lemma ContainersSnoc(routes: seq<AgentRoute>, i: nat, hostOf: string -> string, host: string)
    requires i < |routes|
    ensures ContainersFor(routes[..i + 1], hostOf, host) == ContainersFor(routes[..i], hostOf, host) +
              (if Lower(hostOf(routes[i].host)) == host then [routes[i].containerID] else [])
  {
    hide Lower;
    assert routes[..i + 1][..i] == routes[..i];
  }

  lemma RouteIdsSnoc(routes: seq<AgentRoute>, i: nat)
    requires i < |routes|
    ensures RouteIds(routes[..i + 1]) == RouteIds(routes[..i]) + {routes[i].id}
  {
    forall x ensures x in RouteIds(routes[..i + 1]) <==> x in RouteIds(routes[..i]) + {routes[i].id} {
      if x in RouteIds(routes[..i + 1]) {
        var k :| 0 <= k < i + 1 && routes[..i + 1][k].id == x;
        assert k < i ==> routes[..i][k].id == x;
      }
      if x in RouteIds(routes[..i]) {
        var k :| 0 <= k < i && routes[..i][k].id == x;
        assert routes[..i + 1][k].id == x;
      }
      assert routes[..i + 1][i].id == routes[i].id;
    }
  }

  lemma {:induction false} ContainersForSource(routes: seq<AgentRoute>, hostOf: string -> string, host: string, c: string)
    requires c in ContainersFor(routes, hostOf, host)
    ensures exists i :: 0 <= i < |routes| && routes[i].containerID == c && Lower(hostOf(routes[i].host)) == host
  {
    hide Lower;
    var k := |routes| - 1;
    if !(Lower(hostOf(routes[k].host)) == host && routes[k].containerID == c) {
      assert c in ContainersFor(routes[..k], hostOf, host);
      ContainersForSource(routes[..k], hostOf, host, c);
      var i :| 0 <= i < k && routes[..k][i].containerID == c && Lower(hostOf(routes[..k][i].host)) == host;
      assert routes[i].containerID == c;
    }
  }

  /**
    From the state to the table: after the prune for a pool state, whatever the routes applied before, every backend left
    of that agent and source on this gateway has a route of the state with its host and a matching container.
   */
  lemma BackendsLeftAreInTheState(t: Table, req: Request, p: Payload, hostOf: string -> string, id: string, b: Backend)
    requires Says(req, p, p.routes, hostOf) && ValidTable(t) && p.source != "portainer" && PoolSourceOf(p.source).Some?
    requires id in AfterPrune(t, req) && IsDockerDiscovery(id) && b in AfterPrune(t, req)[id].backends
    requires b.ownerEdge == "" && OwnerOf(HeadOf(t[id]), b) == p.agent && Owns(PoolSourceOf(p.source).value, b.containerID)
    ensures exists i :: 0 <= i < |p.routes| && Lower(hostOf(p.routes[i].host)) == Lower(t[id].host) &&
                        Same(PoolSourceOf(p.source).value, b.containerID, p.routes[i].containerID)
  {
    assert id in t;
    hide AfterPrune, PoolSourceOf, Owns, Same, Lower, IsDockerDiscovery;
    var ps, host := PoolSourceOf(p.source).value, Lower(t[id].host);
    PruneLeavesOnlyDeclared(t, req, id, ps);
    var declared := DeclaredFor(req, t[id].host);
    assert declared == HostList(req, host) == ContainersFor(p.routes, hostOf, host);
    assert Declared(ps, declared, b.containerID);
    var k :| 0 <= k < |declared| && Same(ps, b.containerID, declared[k]);
    ContainersForSource(p.routes, hostOf, host, declared[k]);
  }

  lemma {:induction false} ContainersForHas(routes: seq<AgentRoute>, hostOf: string -> string, host: string, i: nat)
    requires i < |routes| && Lower(hostOf(routes[i].host)) == host
    ensures routes[i].containerID in ContainersFor(routes, hostOf, host)
  {
    hide Lower;
    var k := |routes| - 1;
    if i < k {
      assert routes[..k][i] == routes[i];
      ContainersForHas(routes[..k], hostOf, host, i);
    }
  }

  /** What a state declares for the host of a route: exactly the containers of its routes for that host. */
  lemma DeclaredByState(req: Request, p: Payload, hostOf: string -> string, host: string, c: string)
    requires Says(req, p, p.routes, hostOf)
    ensures DeclaresContainer(req, host, c) <==>
            exists i :: 0 <= i < |p.routes| && Lower(hostOf(p.routes[i].host)) == Lower(host) && p.routes[i].containerID == c
  {
    hide Lower, ContainersFor;
    assert HostList(req, Lower(host)) == ContainersFor(p.routes, hostOf, Lower(host));
    if DeclaresContainer(req, host, c) {
      ContainersForSource(p.routes, hostOf, Lower(host), c);
    }
    if exists i :: 0 <= i < |p.routes| && Lower(hostOf(p.routes[i].host)) == Lower(host) && p.routes[i].containerID == c {
      var i :| 0 <= i < |p.routes| && Lower(hostOf(p.routes[i].host)) == Lower(host) && p.routes[i].containerID == c;
      ContainersForHas(p.routes, hostOf, Lower(host), i);
    }
  }

  /**
    From the state to the table, the other way: a backend of a discovery pool for whose host the state has a route of the
    same container is still there after the prune, and so are such a canary and such a shadow.
   */
  lemma RouteProtects(t: Table, req: Request, p: Payload, hostOf: string -> string, id: string, i: nat)
    requires Says(req, p, p.routes, hostOf) && p.source != "portainer" && PoolSourceOf(p.source).Some?
    requires id in t && t[id].id == id && IsDockerDiscovery(id)
    requires i < |p.routes| && Lower(hostOf(p.routes[i].host)) == Lower(t[id].host)
    ensures forall b :: b in t[id].backends && Same(PoolSourceOf(p.source).value, b.containerID, p.routes[i].containerID) ==>
              id in AfterPrune(t, req) && b in AfterPrune(t, req)[id].backends
    ensures t[id].canary.Some? && Same(PoolSourceOf(p.source).value, t[id].canary.value.containerID, p.routes[i].containerID) ==>
              id in AfterPrune(t, req) && AfterPrune(t, req)[id].canary == t[id].canary
    ensures t[id].shadow.Some? && Same(PoolSourceOf(p.source).value, t[id].shadow.value.containerID, p.routes[i].containerID) ==>
              id in AfterPrune(t, req) && AfterPrune(t, req)[id].shadow == t[id].shadow
  {
    hide AfterPrune, PoolSourceOf, Owns, Same, Lower, ContainersFor, HasPrefix;
    var ps := PoolSourceOf(p.source).value;
    DeclaredByState(req, p, hostOf, t[id].host, p.routes[i].containerID);
    PoolStaysIff(t, req, id, ps);
    assert forall stored :: Same(ps, stored, p.routes[i].containerID) ==> DeclaresSame(ps, req, t[id].host, stored);
  }

  /**
    The validation of a scoped Portainer state and its prune agree on what the scope covers: a route the state declares is
    one the prune judges if and only if the scope has no colon. With one, the prune never touches the state's own routes.
   */
  lemma DeclaredRouteJudgedIff(p: Payload, req: Request, hostOf: string -> string, rt: Route)
    requires Validated(p).Some? && p.source == "portainer" && p.scope != ""
    requires Says(req, p, Validated(p).value.routes, hostOf) && rt.id in req.routeIDs && rt.agentName == p.agent
    ensures PortainerApplies(HeadOf(rt), req) <==> ':' !in p.scope
  {
    hide PoolSourceOf, ContainersFor, PortainerEndpointOf;
    var routes := Validated(p).value.routes;
    var i :| 0 <= i < |routes| && routes[i].id == rt.id;
    assert RouteOk(p, routes[i]);
    var start := "portainer:" + p.scope + ":";
    assert rt.id == start + rt.id[|start|..];
    assert HasPrefix(start, "portainer:");
    EndpointOfScope(p.scope, rt.id[|start|..]);
  }

  /** A validated state speaks for its own Agent and source only. */
  lemma ValidatedSpeaksForItself(p: Payload, i: nat)
    requires Validated(p).Some? && i < |p.routes|
    ensures var r, v := p.routes[i], Validated(p).value.routes[i];
            && v.agentName == p.agent && v.source == p.source
            && v.id == r.id && v.host == r.host && v.containerID == r.containerID && v.aliases == r.aliases && v.rest == r.rest
            && r.agentName in {"", p.agent} && r.source in {"", p.source}
  {
    hide PoolSourceOf;
    assert Validated(p).value.routes[i] == Filled(p, p.routes[i]);
    assert RouteOk(p, Validated(p).value.routes[i]);
  }
}
