/**
  Convergence of a whole group (internal/edge/agentstate_replica.go), what Agents must send for it, and what happens when
  they do not.
 */
module ReplicaGroup {
  import opened Optional
  import opened PoolSources
  import opened SortByKey
  import opened AgentState
  import opened AliasRewrite
  import opened StateDigest
  import opened Replication
  import opened ReplicaPulls

  // ----- what Agents send

  /**
    Agents give each generation of a key to one state only; keys have no newline; no two kept contents have one hash; and
    what is kept of a state is not changed when it is applied again.
   */
  ghost predicate Honest(sent: set<Payload>, hex: Hash -> string, hostOf: string -> string) {
    && IsHex(hex)
    && (forall p :: p in sent ==> '\n' !in Key(p))
    && (forall p, q :: p in sent && q in sent && Key(p) == Key(q) && p.generation == q.generation ==> p == q)
    && (forall p :: p in sent && Validated(p).Some? ==> SettledState(Validated(p).value, hostOf))
    && (forall p, q :: p in sent && q in sent && Validated(p).Some? && Validated(q).Some? ==>
          SameHex(Rewritten(Validated(p).value, hostOf), Rewritten(Validated(q).value, hostOf), hex))
  }

  /** The validated forms of what was sent, and what is kept of them. */
  ghost function Versions(sent: set<Payload>, hostOf: string -> string): set<Payload> {
    (set p | p in sent && Validated(p).Some? :: Validated(p).value) +
    (set p | p in sent && Validated(p).Some? :: Rewritten(Validated(p).value, hostOf))
  }

  lemma VersionSource(sent: set<Payload>, q: Payload, hex: Hash -> string, hostOf: string -> string) returns (p: Payload)
    requires q in Versions(sent, hostOf) && Honest(sent, hex, hostOf)
    ensures p in sent && Validated(p).Some? && Key(q) == Key(p) && q.generation == p.generation
    ensures var v := Validated(p).value; (q == v || q == Rewritten(v, hostOf)) && Rewritten(q, hostOf) == Rewritten(v, hostOf)
    ensures Rewritten(q, hostOf) in Versions(sent, hostOf) && SettledState(q, hostOf)
  {
    hide Validated, Key, Rewritten, IsHex, SameHex;
    p :| p in sent && Validated(p).Some? && (q == Validated(p).value || q == Rewritten(Validated(p).value, hostOf));
    ValidatedTwice(p);
    SameGeneration(Validated(p).value, hostOf);
    assert SettledState(Validated(p).value, hostOf);
  }

  lemma HonestFit(sent: set<Payload>, hex: Hash -> string, hostOf: string -> string)
    requires Honest(sent, hex, hostOf)
    ensures Fit(Versions(sent, hostOf), hex, hostOf)
  {
    hide Validated, Key, Rewritten, IsHex, SameHex, Versions, SettledState;
    var ps := Versions(sent, hostOf);
    forall q | q in ps ensures '\n' !in Key(q) && Rewritten(q, hostOf) in ps && SettledState(q, hostOf) {
      var p := VersionSource(sent, q, hex, hostOf);
    }
    forall q, r | q in ps && r in ps
      ensures SameHex(Rewritten(q, hostOf), Rewritten(r, hostOf), hex)
      ensures Key(q) == Key(r) && q.generation == r.generation ==> Rewritten(q, hostOf) == Rewritten(r, hostOf)
    {
      var x := VersionSource(sent, q, hex, hostOf);
      var y := VersionSource(sent, r, hex, hostOf);
    }
  }

  lemma {:induction false} HopsSettle(p: Payload, i: nat, hostOf: string -> string)
    requires SettledState(p, hostOf)
    ensures Hops(p, i, hostOf) == if i == 0 then p else Rewritten(p, hostOf)
  {
    hide Rewritten;
    if i > 1 {
      HopsSettle(p, i - 1, hostOf);
    } else if i == 1 {
      assert Hops(p, 0, hostOf) == p;
    }
  }

  lemma AuthenticVersion(sent: set<Payload>, q: Payload, hex: Hash -> string, hostOf: string -> string)
    requires Honest(sent, hex, hostOf) && Authentic(sent, q, hostOf)
    ensures q in Versions(sent, hostOf)
  {
    hide Validated, Rewritten, IsHex, SameHex, SettledState, Hops;
    var p, i: nat :| p in sent && Validated(p).Some? && q == Hops(Validated(p).value, i, hostOf);
    HopsSettle(Validated(p).value, i, hostOf);
  }

  /** Then an idle gateway of any reachable group is fit for pulls. */
  lemma HonestMember(g: Group, n: nat, hex: Hash -> string, hostOf: string -> string)
    requires GroupInv(g, hostOf) && n < |g.nodes| && g.nodes[n].pending == [] && Honest(g.sent, hex, hostOf)
    ensures Member(g.nodes[n], Versions(g.sent, hostOf), hostOf)
  {
    hide NodeInv, Authentic, Honest, Versions;
    forall q | q in g.nodes[n].accepted ensures q in Versions(g.sent, hostOf) {
      assert AllAuthentic(g.sent, g.nodes[n].accepted, hostOf);
      AuthenticVersion(g.sent, q, hex, hostOf);
    }
  }

  /** And any two gateways keep the same of one key and generation, by whichever way they received it. */
  lemma HonestAgentsNoReuse(g: Group, m: nat, n: nat, q: Payload, r: Payload, hex: Hash -> string, hostOf: string -> string)
    requires GroupInv(g, hostOf) && m < |g.nodes| && n < |g.nodes| && Honest(g.sent, hex, hostOf)
    requires q in g.nodes[m].accepted && r in g.nodes[n].accepted && Key(q) == Key(r) && q.generation == r.generation
    ensures Rewritten(q, hostOf) == Rewritten(r, hostOf)
  {
    hide NodeInv, Authentic, Honest, Versions, Key, Rewritten;
    assert AllAuthentic(g.sent, g.nodes[m].accepted, hostOf) && AllAuthentic(g.sent, g.nodes[n].accepted, hostOf);
    AuthenticVersion(g.sent, q, hex, hostOf);
    AuthenticVersion(g.sent, r, hex, hostOf);
    HonestFit(g.sent, hex, hostOf);
  }

  // ----- two gateways of a group

  /** In any run of any group with such Agents, two idle gateways that pull from each other, in turn, end in agreement. */
  lemma GroupPullsConverge(size: nat, steps: seq<Step>, m: nat, n: nat, docM: seq<Payload>, docN: seq<Payload>,
                           hex: Hash -> string, hostOf: string -> string)
    requires m < |Run(Start(size), steps, hostOf).nodes| && n < |Run(Start(size), steps, hostOf).nodes|
    requires var g := Run(Start(size), steps, hostOf);
             && g.nodes[m].pending == [] && g.nodes[n].pending == [] && Honest(g.sent, hex, hostOf)
             && IsExport(docM, g.nodes[m].store) && IsExport(docN, Pull(g.nodes[n], g.nodes[m], docM, hex, hostOf).store)
    ensures var g := Run(Start(size), steps, hostOf);
            var n' := Pull(g.nodes[n], g.nodes[m], docM, hex, hostOf);
            Agree(Pull(g.nodes[m], n', docN, hex, hostOf), n', hex)
  {
    hide Run, Pull, IsExport, NodeInv, Agree, Honest, Versions, Fit, Member;
    EveryRunKeepsInv(size, steps, hostOf);
    var g := Run(Start(size), steps, hostOf);
    HonestFit(g.sent, hex, hostOf);
    HonestMember(g, m, hex, hostOf);
    HonestMember(g, n, hex, hostOf);
    MutualPullsConverge(g.nodes[m], g.nodes[n], docM, docN, Versions(g.sent, hostOf), hex, hostOf);
  }

  /** And so do two that pull from each other at the same time. */
  lemma GroupOverlapConverges(size: nat, steps: seq<Step>, m: nat, n: nat, docM: seq<Payload>, docN: seq<Payload>,
                              hex: Hash -> string, hostOf: string -> string)
    requires m < |Run(Start(size), steps, hostOf).nodes| && n < |Run(Start(size), steps, hostOf).nodes|
    requires var g := Run(Start(size), steps, hostOf);
             && g.nodes[m].pending == [] && g.nodes[n].pending == [] && Honest(g.sent, hex, hostOf)
             && IsExport(docM, g.nodes[m].store) && IsExport(docN, g.nodes[n].store)
    ensures var g := Run(Start(size), steps, hostOf);
            Agree(Pull(g.nodes[m], g.nodes[n], docN, hex, hostOf), Pull(g.nodes[n], g.nodes[m], docM, hex, hostOf), hex)
  {
    hide Run, Pull, IsExport, NodeInv, Agree, Honest, Versions, Fit, Member;
    EveryRunKeepsInv(size, steps, hostOf);
    var g := Run(Start(size), steps, hostOf);
    HonestFit(g.sent, hex, hostOf);
    HonestMember(g, m, hex, hostOf);
    HonestMember(g, n, hex, hostOf);
    OverlappingPullsConverge(g.nodes[m], g.nodes[n], docM, docN, Versions(g.sent, hostOf), hex, hostOf);
  }

  // ----- a round of the whole group: one gateway pulls from all, then all pull from it

  function ContentOf(x: Option<Payload>): Option<Hash> {
    if x.Some? then Some(ContentHash(x.value)) else None
  }

  /** What a peer keeps of a key is no later than what the hub keeps, or of the same content. */
  predicate CoveredAt(x: Option<Payload>, hub: Option<Payload>) {
    x.Some? ==> hub.Some? && (x.value.generation <= hub.value.generation || ContentOf(x) == ContentOf(hub))
  }

  ghost predicate Covered(peer: Node, hub: Node) {
    forall k :: CoveredAt(At(peer, k), At(hub, k))
  }

  lemma HashesIff(a: Node, b: Node, ps: set<Payload>, hostOf: string -> string)
    requires Member(a, ps, hostOf) && Member(b, ps, hostOf)
    ensures a.store.hashes == b.store.hashes <==> forall k :: ContentOf(At(a, k)) == ContentOf(At(b, k))
  {
    hide ContentHash, Member, Key;
    MemberStore(a, ps, hostOf);
    MemberStore(b, ps, hostOf);
    if forall k :: ContentOf(At(a, k)) == ContentOf(At(b, k)) {
      forall k ensures k in a.store.hashes <==> k in b.store.hashes {
        assert ContentOf(At(a, k)) == ContentOf(At(b, k));
        assert k in a.store.hashes.Keys <==> k in a.store.states.Keys;
        assert k in b.store.hashes.Keys <==> k in b.store.states.Keys;
      }
      assert a.store.hashes.Keys == b.store.hashes.Keys;
      forall k | k in a.store.hashes ensures a.store.hashes[k] == b.store.hashes[k] {
        assert ContentOf(At(a, k)) == ContentOf(At(b, k));
        assert k in a.store.states.Keys && k in b.store.states.Keys;
      }
    }
    if a.store.hashes == b.store.hashes {
      forall k ensures ContentOf(At(a, k)) == ContentOf(At(b, k)) {
        assert k in a.store.hashes.Keys <==> k in a.store.states.Keys;
        assert k in b.store.hashes.Keys <==> k in b.store.states.Keys;
      }
    }
  }

  /** Taking the later one gives the hub's content exactly for a covered key. */
  lemma LaterCovered(peer: Node, hub: Node, k: string, ps: set<Payload>, hex: Hash -> string, hostOf: string -> string)
    requires Member(peer, ps, hostOf) && Member(hub, ps, hostOf) && Fit(ps, hex, hostOf)
    ensures ContentOf(LaterOf(At(peer, k), At(hub, k))) == ContentOf(At(hub, k)) <==> CoveredAt(At(peer, k), At(hub, k))
  {
    hide Member, Fit, ContentHash;
    if k in peer.store.states && k in hub.store.states && peer.store.states[k].generation == hub.store.states[k].generation {
      KeptSame(peer, hub, k, ps, hex, hostOf);
    }
  }

  /** A gateway that pulls from the hub agrees with it afterwards if and only if the hub covered it. */
  lemma SpreadAgreesIff(peer: Node, hub: Node, doc: seq<Payload>, ps: set<Payload>, hex: Hash -> string, hostOf: string -> string)
    requires Member(peer, ps, hostOf) && Member(hub, ps, hostOf) && Fit(ps, hex, hostOf) && IsExport(doc, hub.store)
    ensures Agree(Pull(peer, hub, doc, hex, hostOf), hub, hex) <==> Covered(peer, hub)
  {
    hide Member, Fit, IsExport, Agree, Pull, DigestText, CoveredAt, ContentOf, LaterOf, At;
    var m := Pull(peer, hub, doc, hex, hostOf);
    PullMember(peer, hub, doc, ps, hex, hostOf);
    AgreeIffHashes(m, hub, ps, hex, hostOf);
    HashesIff(m, hub, ps, hostOf);
    if DigestText(peer.store, hex) == DigestText(hub.store, hex) {
      SkippedPull(peer, hub, doc, hex, hostOf);
      DigestDecides(peer, hub, ps, hex, hostOf);
      forall k ensures CoveredAt(At(peer, k), At(hub, k)) {
        SameContentCovered(At(peer, k), At(hub, k));
      }
    } else {
      forall k ensures ContentOf(At(m, k)) == ContentOf(At(hub, k)) <==> CoveredAt(At(peer, k), At(hub, k)) {
        PulledAt(peer, hub, doc, ps, hex, hostOf, k);
        LaterCovered(peer, hub, k, ps, hex, hostOf);
      }
    }
  }

  lemma SameContentCovered(x: Option<Payload>, hub: Option<Payload>)
    ensures ContentOf(x) == ContentOf(hub) ==> CoveredAt(x, hub)
  {
    hide ContentHash;
  }

  /** The hub pulls from its peers in turn. */
  ghost function Gather(hub: Node, peers: seq<Node>, docs: seq<seq<Payload>>, hex: Hash -> string, hostOf: string -> string): Node
    requires |docs| == |peers|
  {
    if peers == [] then hub
    else
      var k := |peers| - 1;
      Pull(Gather(hub, peers[..k], docs[..k], hex, hostOf), peers[k], docs[k], hex, hostOf)
  }

  ghost predicate KeptIn(n: Node, kept: set<Payload>) {
    forall k :: k in n.store.states ==> n.store.states[k] in kept
  }

  predicate ComesBack(x: Payload, y: Payload, z: Payload) {
    && x.generation < y.generation < z.generation
    && ContentHash(x) == ContentHash(z) && ContentHash(y) != ContentHash(x)
  }

  /** Contents do not come back: between two states of a key with one content, no state of another content. */
  ghost predicate NoReturn(kept: set<Payload>) {
    forall x, y, z :: x in kept && y in kept && z in kept && Key(x) == Key(y) == Key(z) ==> !ComesBack(x, y, z)
  }

  /** A later pull does not uncover a peer. */
  lemma StaysCovered(peer: Node, hub: Node, q: Node, k: string, kept: set<Payload>, ps: set<Payload>, hex: Hash -> string,
                     hostOf: string -> string)
    requires Member(peer, ps, hostOf) && Member(hub, ps, hostOf) && Member(q, ps, hostOf) && Fit(ps, hex, hostOf)
    requires KeptIn(peer, kept) && KeptIn(hub, kept) && KeptIn(q, kept) && NoReturn(kept)
    requires CoveredAt(At(peer, k), At(hub, k))
    ensures CoveredAt(At(peer, k), LaterOf(At(hub, k), At(q, k)))
  {
    hide Member, Fit, ContentHash, Key, ComesBack;
    if k in peer.store.states && k in hub.store.states && k in q.store.states {
      KeptFit(peer, k, ps, hex, hostOf);
      KeptFit(hub, k, ps, hex, hostOf);
      KeptFit(q, k, ps, hex, hostOf);
      assert !ComesBack(hub.store.states[k], q.store.states[k], peer.store.states[k]);
      CoveredThrough(peer.store.states[k], hub.store.states[k], q.store.states[k]);
    }
  }

  lemma CoveredThrough(x: Payload, hub: Payload, q: Payload)
    requires CoveredAt(Some(x), Some(hub)) && !ComesBack(hub, q, x)
    ensures CoveredAt(Some(x), LaterOf(Some(hub), Some(q)))
  {
    hide ContentHash;
  }

  /** One pull of the hub: it stays within the kept states, covers the peer it pulled from, and uncovers none. */
  lemma HubPull(hub: Node, q: Node, doc: seq<Payload>, kept: set<Payload>, ps: set<Payload>, hex: Hash -> string,
                hostOf: string -> string)
    requires Member(hub, ps, hostOf) && Member(q, ps, hostOf) && Fit(ps, hex, hostOf) && IsExport(doc, q.store)
    requires KeptIn(hub, kept) && KeptIn(q, kept) && NoReturn(kept)
    ensures var h := Pull(hub, q, doc, hex, hostOf);
            && Member(h, ps, hostOf) && KeptIn(h, kept) && Covered(q, h)
            && forall peer :: Member(peer, ps, hostOf) && KeptIn(peer, kept) && Covered(peer, hub) ==> Covered(peer, h)
  {
    hide Member, Fit, IsExport, Pull, DigestText, CoveredAt, ContentOf, NoReturn;
    var h := Pull(hub, q, doc, hex, hostOf);
    PullMember(hub, q, doc, ps, hex, hostOf);
    if DigestText(hub.store, hex) == DigestText(q.store, hex) {
      SkippedPull(hub, q, doc, hex, hostOf);
      DigestDecides(hub, q, ps, hex, hostOf);
      HashesIff(q, hub, ps, hostOf);
      forall k ensures CoveredAt(At(q, k), At(h, k)) {
        SameContentCovered(At(q, k), At(h, k));
      }
    } else {
      forall k ensures At(h, k) == LaterOf(At(hub, k), At(q, k)) && CoveredAt(At(q, k), At(h, k)) {
        PulledAt(hub, q, doc, ps, hex, hostOf, k);
        PulledCovers(At(hub, k), At(q, k));
      }
      forall k | k in h.store.states ensures h.store.states[k] in kept {
        assert At(h, k) == LaterOf(At(hub, k), At(q, k));
      }
      forall peer | Member(peer, ps, hostOf) && KeptIn(peer, kept) && Covered(peer, hub) ensures Covered(peer, h) {
        forall k ensures CoveredAt(At(peer, k), At(h, k)) {
          StaysCovered(peer, hub, q, k, kept, ps, hex, hostOf);
        }
      }
    }
  }

  lemma PulledCovers(x: Option<Payload>, y: Option<Payload>)
    ensures CoveredAt(y, LaterOf(x, y))
  {
    hide ContentHash;
  }

  lemma {:induction false} Gathered(hub: Node, peers: seq<Node>, docs: seq<seq<Payload>>, kept: set<Payload>, ps: set<Payload>,
                                    hex: Hash -> string, hostOf: string -> string)
    requires |docs| == |peers| && Member(hub, ps, hostOf) && KeptIn(hub, kept) && Fit(ps, hex, hostOf) && NoReturn(kept)
    requires forall i :: 0 <= i < |peers| ==>
               Member(peers[i], ps, hostOf) && KeptIn(peers[i], kept) && IsExport(docs[i], peers[i].store)
    ensures var h := Gather(hub, peers, docs, hex, hostOf);
            Member(h, ps, hostOf) && KeptIn(h, kept) && forall i :: 0 <= i < |peers| ==> Covered(peers[i], h)
    decreases |peers|
  {
    hide Member, Fit, IsExport, Pull, Covered, KeptIn, NoReturn;
    if peers != [] {
      var k := |peers| - 1;
      Gathered(hub, peers[..k], docs[..k], kept, ps, hex, hostOf);
      HubPull(Gather(hub, peers[..k], docs[..k], hex, hostOf), peers[k], docs[k], kept, ps, hex, hostOf);
      forall i | 0 <= i < |peers| ensures Covered(peers[i], Gather(hub, peers, docs, hex, hostOf)) {
        assert i < k ==> peers[..k][i] == peers[i];
      }
    }
  }

  /** A round of the whole group leaves every gateway in agreement with the hub, when contents do not come back. */
  lemma RoundConverges(hub: Node, peers: seq<Node>, docs: seq<seq<Payload>>, doc: seq<Payload>, kept: set<Payload>,
                       ps: set<Payload>, hex: Hash -> string, hostOf: string -> string)
    requires |docs| == |peers| && Member(hub, ps, hostOf) && KeptIn(hub, kept) && Fit(ps, hex, hostOf) && NoReturn(kept)
    requires forall i :: 0 <= i < |peers| ==>
               Member(peers[i], ps, hostOf) && KeptIn(peers[i], kept) && IsExport(docs[i], peers[i].store)
    requires IsExport(doc, Gather(hub, peers, docs, hex, hostOf).store)
    ensures var h := Gather(hub, peers, docs, hex, hostOf);
            forall i :: 0 <= i < |peers| ==> Agree(Pull(peers[i], h, doc, hex, hostOf), h, hex)
  {
    hide Member, Fit, IsExport, Pull, Covered, KeptIn, Gather, Agree, NoReturn;
    Gathered(hub, peers, docs, kept, ps, hex, hostOf);
    var h := Gather(hub, peers, docs, hex, hostOf);
    forall i | 0 <= i < |peers| ensures Agree(Pull(peers[i], h, doc, hex, hostOf), h, hex) {
      SpreadAgreesIff(peers[i], h, doc, ps, hex, hostOf);
    }
  }

  /** The gateways of a group with these numbers. */
  function Pick(g: Group, ns: seq<nat>): (r: seq<Node>)
    requires forall i :: 0 <= i < |ns| ==> ns[i] < |g.nodes|
    ensures |r| == |ns| && forall i :: 0 <= i < |ns| ==> r[i] == g.nodes[ns[i]]
  {
    seq(|ns|, i requires 0 <= i < |ns| => g.nodes[ns[i]])
  }

  /** The same in any run of any group with honest Agents, for any hub and any idle gateways. */
  lemma GroupRoundConverges(size: nat, steps: seq<Step>, m: nat, ns: seq<nat>, docs: seq<seq<Payload>>, doc: seq<Payload>,
                            kept: set<Payload>, hex: Hash -> string, hostOf: string -> string)
    requires var g := Run(Start(size), steps, hostOf);
             && m < |g.nodes| && (forall i :: 0 <= i < |ns| ==> ns[i] < |g.nodes|) && |docs| == |ns|
             && g.nodes[m].pending == [] && (forall i :: 0 <= i < |ns| ==> g.nodes[ns[i]].pending == [])
             && Honest(g.sent, hex, hostOf) && NoReturn(kept)
             && KeptIn(g.nodes[m], kept) && (forall i :: 0 <= i < |ns| ==> KeptIn(g.nodes[ns[i]], kept))
             && (forall i :: 0 <= i < |ns| ==> IsExport(docs[i], g.nodes[ns[i]].store))
             && IsExport(doc, Gather(g.nodes[m], Pick(g, ns), docs, hex, hostOf).store)
    ensures var g := Run(Start(size), steps, hostOf);
            var h := Gather(g.nodes[m], Pick(g, ns), docs, hex, hostOf);
            forall i :: 0 <= i < |ns| ==> Agree(Pull(g.nodes[ns[i]], h, doc, hex, hostOf), h, hex)
  {
    hide Run, Pull, IsExport, NodeInv, Agree, Honest, Versions, Fit, Member, KeptIn, Gather, NoReturn;
    EveryRunKeepsInv(size, steps, hostOf);
    var g := Run(Start(size), steps, hostOf);
    HonestFit(g.sent, hex, hostOf);
    HonestMember(g, m, hex, hostOf);
    var peers := Pick(g, ns);
    forall i | 0 <= i < |ns| ensures Member(peers[i], Versions(g.sent, hostOf), hostOf) {
      HonestMember(g, ns[i], hex, hostOf);
    }
    RoundConverges(g.nodes[m], peers, docs, doc, kept, Versions(g.sent, hostOf), hex, hostOf);
  }
}
