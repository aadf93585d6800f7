/**
  The gateways of a group exchanging Agent states (internal/edge/agentstate.go and agentstate_replica.go), as a step system.

  A handler passes `accept`, then applies the routes, which rewrites their aliases, and later passes `put`: two separate
  locks, so handlers interleave between them. Messages may be delayed, repeated, reordered or lost; a gateway may restart
  and lose its memory. Sealing by the group key is the identity. `hostOf` is the host that `ParseHostEntry` reads.
 */
module Replication {
  import opened Optional
  import opened PoolSources
  import opened AgentState

  // ----- one gateway

  /** `pending`: the states accepted and not yet put. `accepted`: those accepted since the gateway started, as received. */
  datatype Node = Node(last: map<string, int>, store: Store, pending: seq<Payload>, accepted: set<Payload>)

  const FRESH_NODE := Node(map[], EMPTY_STORE, [], {})

  /** The first part of `acceptAgentState`: validation, then the generation filter. */
  function Accept(n: Node, p: Payload): Node {
    match Validated(p)
    case None => n
    case Some(q) =>
      if q.generation <= LastOf(n.last, Key(q)) then n
      else n.(last := n.last[Key(q) := q.generation], pending := n.pending + [q], accepted := n.accepted + {q})
  }

  /** The last part: a pending handler, its routes applied, puts its state. */
  function PutPending(n: Node, i: nat, hostOf: string -> string): Node {
    if i >= |n.pending| then n
    else n.(store := Put(n.store, Rewritten(n.pending[i], hostOf)), pending := n.pending[..i] + n.pending[i + 1..])
  }

  /** What is kept for the key is what applying an accepted state leaves of it. */
  ghost predicate KeptFrom(n: Node, k: string, hostOf: string -> string)
    requires k in n.store.states
  {
    exists q :: q in n.accepted && n.store.states[k] == Rewritten(q, hostOf)
  }

  /** What holds of a gateway at every moment. */
  ghost predicate NodeInv(n: Node, hostOf: string -> string) {
    && StoreOk(n.store)
    && (forall q :: q in n.accepted ==> Validated(q) == Some(q) && Key(q) in n.last && q.generation <= n.last[Key(q)])
    && (forall k :: k in n.last ==> exists q :: q in n.accepted && Key(q) == k && q.generation == n.last[k])
    && (forall k :: k in n.store.states ==> KeptFrom(n, k, hostOf))
    && (forall q :: q in n.pending ==> q in n.accepted)
    && (forall q :: q in n.accepted ==> q in n.pending || KeptAtLeast(n.store, q))
    && (forall q, r :: q in n.accepted && r in n.accepted && Key(q) == Key(r) && q.generation == r.generation ==> q == r)
  }

  /** The store has this state or a later one of its key. */
  predicate KeptAtLeast(s: Store, q: Payload) {
    Key(q) in s.states && s.states[Key(q)].generation >= q.generation
  }

  lemma FreshInv(hostOf: string -> string)
    ensures NodeInv(FRESH_NODE, hostOf)
  {
  }

  lemma PutOk(s: Store, q: Payload)
    requires StoreOk(s)
    ensures StoreOk(Put(s, q)) && KeptAtLeast(Put(s, q), q)
    ensures forall r :: KeptAtLeast(s, r) ==> KeptAtLeast(Put(s, q), r)
    ensures forall k :: k in Put(s, q).states ==> Put(s, q).states[k] == q || (k in s.states && Put(s, q).states[k] == s.states[k])
    ensures forall k :: k in s.states ==> k in Put(s, q).states && Put(s, q).states[k].generation >= s.states[k].generation
  {
    hide ContentHash, Key;
  }

  lemma AcceptInv(n: Node, p: Payload, hostOf: string -> string)
    requires NodeInv(n, hostOf)
    ensures NodeInv(Accept(n, p), hostOf)
  {
    hide Key, StoreOk, KeptAtLeast, Validated, NodeInv;
    if Validated(p).Some? {
      ValidatedTwice(p);
      var q := Validated(p).value;
      if q.generation > LastOf(n.last, Key(q)) {
        AcceptNew(n, q, hostOf);
      }
    }
  }

  lemma AcceptNew(n: Node, q: Payload, hostOf: string -> string)
    requires NodeInv(n, hostOf) && Validated(q) == Some(q) && q.generation > LastOf(n.last, Key(q)) && q.generation > 0
    ensures NodeInv(n.(last := n.last[Key(q) := q.generation], pending := n.pending + [q], accepted := n.accepted + {q}), hostOf)
  {
    hide Key, StoreOk, KeptAtLeast, Validated, Rewritten;
    var m := n.(last := n.last[Key(q) := q.generation], pending := n.pending + [q], accepted := n.accepted + {q});
    forall k | k in m.last ensures exists r :: r in m.accepted && Key(r) == k && r.generation == m.last[k] {
      if k == Key(q) {
        assert q in m.accepted;
      } else {
        var r :| r in n.accepted && Key(r) == k && r.generation == n.last[k];
        assert r in m.accepted;
      }
    }
    forall k | k in m.store.states ensures KeptFrom(m, k, hostOf) {
      assert KeptFrom(n, k, hostOf);
    }
  }

  lemma PutInv(n: Node, i: nat, hostOf: string -> string)
    requires NodeInv(n, hostOf)
    ensures NodeInv(PutPending(n, i, hostOf), hostOf)
  {
    hide Key, StoreOk, KeptAtLeast, Validated, Put, Rewritten, KeptFrom;
    if i < |n.pending| {
      var q, m := n.pending[i], PutPending(n, i, hostOf);
      PutOk(n.store, Rewritten(q, hostOf));
      KeptAtLeastRewritten(m.store, q, hostOf);
      forall r | r in n.accepted ensures r in m.pending || KeptAtLeast(m.store, r) {
        if r in n.pending && r != q {
          StaysPending(n.pending, i, r);
        }
      }
      forall k | k in m.store.states ensures KeptFrom(m, k, hostOf) {
        PutKeptFrom(n, m, q, k, hostOf);
      }
    }
  }

  lemma KeptAtLeastRewritten(s: Store, q: Payload, hostOf: string -> string)
    ensures KeptAtLeast(s, Rewritten(q, hostOf)) == KeptAtLeast(s, q)
  {
  }

  lemma PutKeptFrom(n: Node, m: Node, q: Payload, k: string, hostOf: string -> string)
    requires k in m.store.states && m.accepted == n.accepted && q in n.accepted
    requires m.store.states[k] == Rewritten(q, hostOf) || (k in n.store.states && m.store.states[k] == n.store.states[k])
    requires k in n.store.states ==> KeptFrom(n, k, hostOf)
    ensures KeptFrom(m, k, hostOf)
  {
    hide Rewritten;
  }

  lemma StaysPending(s: seq<Payload>, i: nat, r: Payload)
    requires i < |s| && r in s && r != s[i]
    ensures r in s[..i] + s[i + 1..]
  {
    var k :| 0 <= k < |s| && s[k] == r;
    if k < i {
      assert s[..i][k] == r;
    } else {
      assert s[i + 1..][k - i - 1] == r;
    }
  }

  // ----- the group

  /** `sent`: what Agents have sent. `wire`: states on their way between gateways. */
  datatype Group = Group(nodes: seq<Node>, sent: set<Payload>, wire: set<Payload>)

  datatype Step =
    /** An Agent sends a state to the gateways. */
    | Send(p: Payload)
    /** A gateway handles a state an Agent sent, possibly late or again. */
    | FromAgent(n: nat, p: Payload)
    /** A gateway handles a state received from a peer, possibly late or again. */
    | FromPeer(n: nat, p: Payload)
    /** A handler reaches `put`. */
    | PutOne(n: nat, i: nat)
    /** A gateway reads a state it keeps, for a push or for the answer to a pull. */
    | Export(n: nat, key: string)
    | Restart(n: nat)

  function Next(g: Group, s: Step, hostOf: string -> string): Group {
    match s
    case Send(p) => g.(sent := g.sent + {p})
    case FromAgent(n, p) => if n < |g.nodes| && p in g.sent then g.(nodes := g.nodes[n := Accept(g.nodes[n], p)]) else g
    case FromPeer(n, p) => if n < |g.nodes| && p in g.wire then g.(nodes := g.nodes[n := Accept(g.nodes[n], p)]) else g
    case PutOne(n, i) => if n < |g.nodes| then g.(nodes := g.nodes[n := PutPending(g.nodes[n], i, hostOf)]) else g
    case Export(n, key) =>
      if n < |g.nodes| && key in g.nodes[n].store.states then g.(wire := g.wire + {g.nodes[n].store.states[key]}) else g
    case Restart(n) => if n < |g.nodes| then g.(nodes := g.nodes[n := FRESH_NODE]) else g
  }

  function Start(size: nat): (g: Group)
    ensures |g.nodes| == size
  {
    Group(seq(size, i => FRESH_NODE), {}, {})
  }

  function Run(g: Group, steps: seq<Step>, hostOf: string -> string): Group {
    if steps == [] then g else Next(Run(g, steps[..|steps| - 1], hostOf), steps[|steps| - 1], hostOf)
  }

  /** The state after it was applied and kept `i` times on its way. */
  function Hops(p: Payload, i: nat, hostOf: string -> string): Payload {
    if i == 0 then p else Rewritten(Hops(p, i - 1, hostOf), hostOf)
  }

  /** The validated form of a state that an Agent sent, after some hops. */
  ghost predicate Authentic(sent: set<Payload>, q: Payload, hostOf: string -> string) {
    exists p, i: nat :: p in sent && Validated(p).Some? && q == Hops(Validated(p).value, i, hostOf)
  }

  ghost predicate GroupInv(g: Group, hostOf: string -> string) {
    && (forall n :: 0 <= n < |g.nodes| ==> NodeInv(g.nodes[n], hostOf) && AllAuthentic(g.sent, g.nodes[n].accepted, hostOf))
    && AllAuthentic(g.sent, g.wire, hostOf)
  }

  ghost predicate AllAuthentic(sent: set<Payload>, s: set<Payload>, hostOf: string -> string) {
    forall q :: q in s ==> Authentic(sent, q, hostOf)
  }

  lemma AuthenticGrows(sent: set<Payload>, more: set<Payload>, s: set<Payload>, hostOf: string -> string)
    requires sent <= more && AllAuthentic(sent, s, hostOf)
    ensures AllAuthentic(more, s, hostOf)
  {
    hide Validated, Hops;
    forall q | q in s ensures Authentic(more, q, hostOf) {
      var p, i: nat :| p in sent && Validated(p).Some? && q == Hops(Validated(p).value, i, hostOf);
      assert p in more;
    }
  }

  lemma {:induction false} HopsValid(p: Payload, i: nat, hostOf: string -> string)
    requires Validated(p) == Some(p)
    ensures Validated(Hops(p, i, hostOf)) == Some(Hops(p, i, hostOf))
    ensures Key(Hops(p, i, hostOf)) == Key(p) && Hops(p, i, hostOf).generation == p.generation
  {
    hide Validated, Key;
    if i > 0 {
      HopsValid(p, i - 1, hostOf);
      RewrittenValid(Hops(p, i - 1, hostOf), hostOf);
    }
  }

  lemma AuthenticValid(sent: set<Payload>, q: Payload, hostOf: string -> string)
    requires Authentic(sent, q, hostOf)
    ensures Validated(q) == Some(q)
  {
    hide Validated, Key, Hops;
    var p, i: nat :| p in sent && Validated(p).Some? && q == Hops(Validated(p).value, i, hostOf);
    ValidatedTwice(p);
    HopsValid(Validated(p).value, i, hostOf);
  }

  /** What a gateway keeps of an authentic state is authentic, one hop further. */
  lemma AuthenticHop(sent: set<Payload>, q: Payload, hostOf: string -> string)
    requires Authentic(sent, q, hostOf)
    ensures Authentic(sent, Rewritten(q, hostOf), hostOf)
  {
    hide Validated, Rewritten;
    var p, i: nat :| p in sent && Validated(p).Some? && q == Hops(Validated(p).value, i, hostOf);
    assert Rewritten(q, hostOf) == Hops(Validated(p).value, i + 1, hostOf);
  }

  lemma SentAuthentic(sent: set<Payload>, p: Payload, hostOf: string -> string)
    requires p in sent && Validated(p).Some?
    ensures Authentic(sent, Validated(p).value, hostOf)
  {
    hide Validated;
    assert Validated(p).value == Hops(Validated(p).value, 0, hostOf);
  }

  /** A state accepted from an Agent or from a peer is authentic. */
  lemma AcceptAuthentic(n: Node, p: Payload, sent: set<Payload>, hostOf: string -> string)
    requires AllAuthentic(sent, n.accepted, hostOf) && (p in sent || Authentic(sent, p, hostOf))
    ensures AllAuthentic(sent, Accept(n, p).accepted, hostOf)
  {
    hide Validated, Authentic, Key;
    if Validated(p).Some? {
      if p in sent {
        SentAuthentic(sent, p, hostOf);
      } else {
        AuthenticValid(sent, p, hostOf);
      }
    }
  }

  lemma NextInv(g: Group, s: Step, hostOf: string -> string)
    requires GroupInv(g, hostOf)
    ensures GroupInv(Next(g, s, hostOf), hostOf)
  {
    hide NodeInv, AllAuthentic, Accept, PutPending, Authentic;
    match s {
      case Send(p) => SendInv(g, p, hostOf);
      case FromAgent(n, p) =>
        if n < |g.nodes| && p in g.sent {
          AcceptInv(g.nodes[n], p, hostOf);
          AcceptAuthentic(g.nodes[n], p, g.sent, hostOf);
        }
      case FromPeer(n, p) =>
        if n < |g.nodes| && p in g.wire {
          AcceptInv(g.nodes[n], p, hostOf);
          WireAuthentic(g, p, hostOf);
          AcceptAuthentic(g.nodes[n], p, g.sent, hostOf);
        }
      case PutOne(n, i) =>
        if n < |g.nodes| {
          PutInv(g.nodes[n], i, hostOf);
          PutKeepsAccepted(g.nodes[n], i, hostOf);
        }
      case Export(n, key) =>
        if n < |g.nodes| && key in g.nodes[n].store.states {
          ExportAuthentic(g, n, key, hostOf);
        }
      case Restart(n) =>
        FreshInv(hostOf);
        NothingAuthentic(g.sent, hostOf);
    }
  }

  lemma SendInv(g: Group, p: Payload, hostOf: string -> string)
    requires GroupInv(g, hostOf)
    ensures GroupInv(Next(g, Send(p), hostOf), hostOf)
  {
    hide NodeInv, AllAuthentic;
    forall n | 0 <= n < |g.nodes| ensures AllAuthentic(g.sent + {p}, g.nodes[n].accepted, hostOf) {
      AuthenticGrows(g.sent, g.sent + {p}, g.nodes[n].accepted, hostOf);
    }
    AuthenticGrows(g.sent, g.sent + {p}, g.wire, hostOf);
  }

  lemma WireAuthentic(g: Group, p: Payload, hostOf: string -> string)
    requires GroupInv(g, hostOf) && p in g.wire
    ensures Authentic(g.sent, p, hostOf)
  {
    hide Authentic, NodeInv;
  }

  lemma PutKeepsAccepted(n: Node, i: nat, hostOf: string -> string)
    ensures PutPending(n, i, hostOf).accepted == n.accepted && PutPending(n, i, hostOf).last == n.last
  {
  }

  /** What a gateway keeps was sent by an Agent, validated, and has been applied at least once. */
  lemma KeptAuthentic(g: Group, n: nat, key: string, hostOf: string -> string)
    requires GroupInv(g, hostOf) && n < |g.nodes| && key in g.nodes[n].store.states
    ensures exists q :: Authentic(g.sent, q, hostOf) && g.nodes[n].store.states[key] == Rewritten(q, hostOf)
  {
    hide Authentic, Validated, Rewritten;
    var node := g.nodes[n];
    assert KeptFrom(node, key, hostOf);
    var q :| q in node.accepted && node.store.states[key] == Rewritten(q, hostOf);
    assert AllAuthentic(g.sent, node.accepted, hostOf);
    assert Authentic(g.sent, q, hostOf);
  }

  lemma ExportAuthentic(g: Group, n: nat, key: string, hostOf: string -> string)
    requires GroupInv(g, hostOf) && n < |g.nodes| && key in g.nodes[n].store.states
    ensures AllAuthentic(g.sent, g.wire + {g.nodes[n].store.states[key]}, hostOf)
  {
    hide Authentic, NodeInv, Rewritten;
    KeptAuthentic(g, n, key, hostOf);
    var q :| Authentic(g.sent, q, hostOf) && g.nodes[n].store.states[key] == Rewritten(q, hostOf);
    AuthenticHop(g.sent, q, hostOf);
  }

  lemma NothingAuthentic(sent: set<Payload>, hostOf: string -> string)
    ensures AllAuthentic(sent, FRESH_NODE.accepted, hostOf)
  {
  }

  /** Over every run of any group: the invariant of every gateway, and nothing accepted that no Agent sent. */
  lemma {:induction false} EveryRunKeepsInv(size: nat, steps: seq<Step>, hostOf: string -> string)
    ensures GroupInv(Run(Start(size), steps, hostOf), hostOf)
  {
    hide Next, NodeInv;
    if steps == [] {
      FreshInv(hostOf);
    } else {
      EveryRunKeepsInv(size, steps[..|steps| - 1], hostOf);
      NextInv(Run(Start(size), steps[..|steps| - 1], hostOf), steps[|steps| - 1], hostOf);
    }
  }

  // ----- what that means

  lemma KeptIsAccepted(n: Node, k: string, hostOf: string -> string) returns (q: Payload)
    requires NodeInv(n, hostOf) && k in n.store.states
    ensures q in n.accepted && n.store.states[k] == Rewritten(q, hostOf)
    ensures Key(q) == k && Validated(q) == Some(q) && q.generation == n.store.states[k].generation
    ensures Key(n.store.states[k]) == k && Validated(n.store.states[k]) == Some(n.store.states[k])
  {
    hide Validated, Key, KeptAtLeast;
    assert KeptFrom(n, k, hostOf);
    q :| q in n.accepted && n.store.states[k] == Rewritten(q, hostOf);
    RewrittenValid(q, hostOf);
  }

  /** Over every run: a kept state's generation never exceeds the accepted generation of its key. */
  lemma KeptNotBeyondAccepted(size: nat, steps: seq<Step>, n: nat, k: string, hostOf: string -> string)
    requires n < |Run(Start(size), steps, hostOf).nodes| && k in Run(Start(size), steps, hostOf).nodes[n].store.states
    ensures var node := Run(Start(size), steps, hostOf).nodes[n];
            k in node.last && 0 < node.store.states[k].generation <= node.last[k] && Key(node.store.states[k]) == k
  {
    hide Run, Validated, Key, KeptAtLeast;
    EveryRunKeepsInv(size, steps, hostOf);
    var q := KeptIsAccepted(Run(Start(size), steps, hostOf).nodes[n], k, hostOf);
    PositiveGeneration(q);
  }

  lemma PositiveGeneration(p: Payload)
    requires Validated(p) == Some(p)
    ensures p.generation > 0
  {
  }

  lemma NextKeepsSize(g: Group, s: Step, hostOf: string -> string)
    ensures |Next(g, s, hostOf).nodes| == |g.nodes|
  {
    hide Accept, PutPending;
  }

  lemma AcceptKeepsStore(n: Node, p: Payload)
    ensures Accept(n, p).store == n.store
  {
  }

  lemma PutNeverGoesBack(n: Node, i: nat, k: string, hostOf: string -> string)
    requires NodeInv(n, hostOf) && k in n.store.states
    ensures var m := PutPending(n, i, hostOf);
            k in m.store.states && m.store.states[k].generation >= n.store.states[k].generation
  {
    hide NodeInv, Put;
    StoreIsOk(n, hostOf);
    if i < |n.pending| {
      PutOk(n.store, Rewritten(n.pending[i], hostOf));
    }
  }

  lemma StoreIsOk(n: Node, hostOf: string -> string)
    requires NodeInv(n, hostOf)
    ensures StoreOk(n.store)
  {
  }

  /** A step never lowers the generation of a kept state nor drops it, except the restart of its gateway. */
  lemma KeptNeverGoesBack(g: Group, s: Step, n: nat, k: string, hostOf: string -> string)
    requires GroupInv(g, hostOf) && n < |g.nodes| && s != Restart(n) && k in g.nodes[n].store.states
    ensures n < |Next(g, s, hostOf).nodes| && k in Next(g, s, hostOf).nodes[n].store.states
    ensures Next(g, s, hostOf).nodes[n].store.states[k].generation >= g.nodes[n].store.states[k].generation
  {
    hide NodeInv, Accept, PutPending;
    NextKeepsSize(g, s, hostOf);
    if (s.FromAgent? || s.FromPeer?) && s.n == n {
      AcceptKeepsStore(g.nodes[n], s.p);
    } else if s.PutOne? && s.n == n {
      PutNeverGoesBack(g.nodes[n], s.i, k, hostOf);
    }
  }

  /** The one accepted state of the key with the highest generation. */
  ghost predicate IsHighest(n: Node, k: string, q: Payload) {
    && q in n.accepted && Key(q) == k && q.generation == LastOf(n.last, k)
    && forall r :: r in n.accepted && Key(r) == k ==> r.generation <= q.generation && (r.generation == q.generation ==> r == q)
  }

  /** What is kept for the key is what applying its highest accepted state leaves of it. */
  ghost predicate KeepsHighest(n: Node, k: string, hostOf: string -> string) {
    k in n.store.states && exists q :: IsHighest(n, k, q) && n.store.states[k] == Rewritten(q, hostOf)
  }

  /**
    Whatever the order, repetition and interleaving of handlers: once none is between `accept` and `put`, the gateway keeps
    for each accepted key the state of highest accepted generation, and keeps nothing else.
   */
  lemma IdleKeepsHighest(n: Node, k: string, hostOf: string -> string)
    requires NodeInv(n, hostOf) && n.pending == []
    ensures k in n.store.states <==> k in n.last
    ensures k in n.last ==> KeepsHighest(n, k, hostOf)
  {
    hide Validated, Key, Rewritten;
    if k in n.last {
      HighestIsKept(n, k, hostOf);
    }
    if k in n.store.states {
      var q := KeptIsAccepted(n, k, hostOf);
    }
  }

  lemma HighestIsKept(n: Node, k: string, hostOf: string -> string)
    requires NodeInv(n, hostOf) && n.pending == [] && k in n.last
    ensures KeepsHighest(n, k, hostOf)
  {
    hide Validated, Key, Rewritten;
    var q :| q in n.accepted && Key(q) == k && q.generation == n.last[k];
    assert KeptAtLeast(n.store, q);
    var r := KeptIsAccepted(n, k, hostOf);
    assert r == q;
    assert IsHighest(n, k, q);
  }

  /** The same, of any gateway reached by any run. */
  lemma EveryIdleGatewayKeepsHighest(size: nat, steps: seq<Step>, n: nat, k: string, hostOf: string -> string)
    requires n < |Run(Start(size), steps, hostOf).nodes| && Run(Start(size), steps, hostOf).nodes[n].pending == []
    ensures var node := Run(Start(size), steps, hostOf).nodes[n];
            (k in node.store.states <==> k in node.last) && (k in node.last ==> KeepsHighest(node, k, hostOf))
  {
    hide Run, NodeInv, KeepsHighest;
    EveryRunKeepsInv(size, steps, hostOf);
    IdleKeepsHighest(Run(Start(size), steps, hostOf).nodes[n], k, hostOf);
  }
}
