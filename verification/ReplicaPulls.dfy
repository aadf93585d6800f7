/**
  Pulls between the gateways of a group (internal/edge/agentstate_replica.go): a gateway asks a peer for all it keeps, the
  peer answers nothing when the digests agree, and each state received is validated, filtered, applied and put like any
  other. Digests are those of `StateDigest`.
 */
module ReplicaPulls {
  import opened Optional
  import opened PoolSources
  import opened SortByKey
  import opened AgentState
  import opened AliasRewrite
  import opened StateDigest
  import opened Replication

  /** What a pull receives: every state the peer keeps, once, in some order. */
  ghost predicate IsExport(doc: seq<Payload>, s: Store) {
    && (forall k :: k in s.states ==> s.states[k] in doc)
    && (forall i :: 0 <= i < |doc| ==> Key(doc[i]) in s.states && s.states[Key(doc[i])] == doc[i])
    && (forall i, j :: 0 <= i < j < |doc| ==> Key(doc[i]) != Key(doc[j]))
  }

  /** `acceptAgentState` from start to end. */
  function AcceptWhole(n: Node, p: Payload, hostOf: string -> string): Node {
    var m := Accept(n, p);
    if |m.pending| > |n.pending| then PutPending(m, |n.pending|, hostOf) else m
  }

  /** The two steps in a row do to generations and store what `AgentGateway.Gateway.AcceptAgentState` does. */
  lemma AcceptWholeIsAtomic(n: Node, p: Payload, hostOf: string -> string)
    ensures var m := AcceptWhole(n, p, hostOf);
            if Validated(p).None? || p.generation <= LastOf(n.last, Key(p))
            then m == n
            else && m.last == n.last[Key(p) := p.generation]
                 && m.store == Put(n.store, Rewritten(Validated(p).value, hostOf)) && m.pending == n.pending
  {
    hide Validated, Key, Put, Rewritten;
    if Validated(p).Some? {
      ValidatedTwice(p);
      var m := Accept(n, p);
      assert |m.pending| > |n.pending| ==> m.pending[|n.pending|] == Validated(p).value && m.pending[..|n.pending|] == n.pending;
    }
  }

  /** `mergeAgentStateReplica` */
  function MergeDoc(n: Node, doc: seq<Payload>, hostOf: string -> string): Node {
    if doc == [] then n else AcceptWhole(MergeDoc(n, doc[..|doc| - 1], hostOf), doc[|doc| - 1], hostOf)
  }

  /** `syncAgentStateFromPeer` against `handleAgentStateReplicaExport`: nothing is sent when the digests agree. */
  ghost function Pull(n: Node, peer: Node, doc: seq<Payload>, hex: Hash -> string, hostOf: string -> string): Node {
    if DigestText(n.store, hex) == DigestText(peer.store, hex) then n else MergeDoc(n, doc, hostOf)
  }

  ghost predicate Idle(n: Node, hostOf: string -> string) {
    NodeInv(n, hostOf) && n.pending == []
  }

  /** The state kept for a key. */
  function At(n: Node, k: string): Option<Payload> {
    if k in n.store.states then Some(n.store.states[k]) else None
  }

  /** The kept state, or the other one if it is later or none is kept. */
  function Later(kept: Option<Payload>, p: Payload): Option<Payload> {
    if kept.None? || kept.value.generation < p.generation then Some(p) else kept
  }

  /** On an idle gateway the last accepted generation is the kept one. */
  lemma IdleLast(n: Node, k: string, hostOf: string -> string)
    requires Idle(n, hostOf)
    ensures LastOf(n.last, k) == if k in n.store.states then n.store.states[k].generation else 0
  {
    hide NodeInv, Key, Rewritten;
    IdleKeepsHighest(n, k, hostOf);
    if k in n.last {
      var q :| IsHighest(n, k, q) && n.store.states[k] == Rewritten(q, hostOf);
      SameGeneration(q, hostOf);
    }
  }

  lemma SameGeneration(q: Payload, hostOf: string -> string)
    ensures Rewritten(q, hostOf).generation == q.generation && Key(Rewritten(q, hostOf)) == Key(q)
  {
  }

  lemma AcceptWholeFacts(n: Node, p: Payload, hostOf: string -> string)
    requires Idle(n, hostOf) && Validated(p) == Some(p)
    ensures var m := AcceptWhole(n, p, hostOf);
            && Idle(m, hostOf) && m.accepted <= n.accepted + {p} && n.accepted <= m.accepted
            && (forall k :: k != Key(p) ==> At(m, k) == At(n, k))
            && At(m, Key(p)) == Later(At(n, Key(p)), Rewritten(p, hostOf))
  {
    hide Key, Validated, KeptAtLeast, NodeInv, StoreOk, Rewritten;
    AcceptInv(n, p, hostOf);
    IdleLast(n, Key(p), hostOf);
    PositiveGeneration(p);
    SameGeneration(p, hostOf);
    var m := Accept(n, p);
    if p.generation > LastOf(n.last, Key(p)) {
      assert m.pending == [p] && m.store == n.store && Newer(n.store, Rewritten(p, hostOf));
      PutInv(m, 0, hostOf);
      assert AcceptWhole(n, p, hostOf).pending == [];
    }
  }

  lemma {:induction false} MergeDocFacts(n: Node, doc: seq<Payload>, hostOf: string -> string)
    requires Idle(n, hostOf)
    requires forall i :: 0 <= i < |doc| ==> Validated(doc[i]) == Some(doc[i])
    requires forall i, j :: 0 <= i < j < |doc| ==> Key(doc[i]) != Key(doc[j])
    ensures var m := MergeDoc(n, doc, hostOf);
            && Idle(m, hostOf) && n.accepted <= m.accepted && (forall q :: q in m.accepted ==> q in n.accepted || q in doc)
            && (forall i :: 0 <= i < |doc| ==> At(m, Key(doc[i])) == Later(At(n, Key(doc[i])), Rewritten(doc[i], hostOf)))
            && (forall k :: (forall i :: 0 <= i < |doc| ==> Key(doc[i]) != k) ==> At(m, k) == At(n, k))
  {
    hide Idle, AcceptWhole, Validated, Key, At, Later, Rewritten;
    if doc != [] {
      var i := |doc| - 1;
      MergeDocFacts(n, doc[..i], hostOf);
      var m, p := MergeDoc(n, doc[..i], hostOf), doc[i];
      AcceptWholeFacts(m, p, hostOf);
      forall k | forall j :: 0 <= j < |doc| ==> Key(doc[j]) != k ensures At(AcceptWhole(m, p, hostOf), k) == At(n, k) {
        assert forall j :: 0 <= j < i ==> Key(doc[..i][j]) != k;
      }
      assert forall j :: 0 <= j < i ==> Key(doc[..i][j]) != Key(p);
      forall j | 0 <= j < i
        ensures At(AcceptWhole(m, p, hostOf), Key(doc[j])) == Later(At(n, Key(doc[j])), Rewritten(doc[j], hostOf))
      {
        assert doc[..i][j] == doc[j];
      }
      assert forall q :: q in doc[..i] ==> q in doc;
    }
  }

  /** After merging what a peer keeps, each key has the later of the two states, the peer's having been applied once more. */
  lemma MergedHasLater(n: Node, peer: Node, doc: seq<Payload>, k: string, hostOf: string -> string)
    requires Idle(n, hostOf) && Idle(peer, hostOf) && IsExport(doc, peer.store)
    ensures var m := MergeDoc(n, doc, hostOf);
            && Idle(m, hostOf) && n.accepted <= m.accepted <= n.accepted + peer.store.states.Values
            && At(m, k) == if k in peer.store.states then Later(At(n, k), Rewritten(peer.store.states[k], hostOf)) else At(n, k)
  {
    hide Validated, Key, MergeDoc, NodeInv, Rewritten;
    forall i | 0 <= i < |doc| ensures Validated(doc[i]) == Some(doc[i]) {
      var _ := KeptIsAccepted(peer, Key(doc[i]), hostOf);
    }
    MergeDocFacts(n, doc, hostOf);
    var m := MergeDoc(n, doc, hostOf);
    forall q | q in m.accepted ensures q in n.accepted + peer.store.states.Values {
      if q in doc {
        assert peer.store.states[Key(q)] == q;
      }
    }
    if k in peer.store.states {
      var q := peer.store.states[k];
      var _ := KeptIsAccepted(peer, k, hostOf);
      assert q in doc && Key(q) == k;
      var i :| 0 <= i < |doc| && doc[i] == q;
    } else if exists i :: 0 <= i < |doc| && Key(doc[i]) == k {
      assert false;
    }
  }

  // ----- states on which gateways can agree

  /**
    States fit for replication: what is kept of them is among them and is not changed by being applied again; one key and
    generation leave one kept state; no key has a newline; and no two kept contents have one hash.
   */
  ghost predicate Fit(ps: set<Payload>, hex: Hash -> string, hostOf: string -> string) {
    && IsHex(hex)
    && (forall p :: p in ps ==> '\n' !in Key(p) && Rewritten(p, hostOf) in ps && SettledState(p, hostOf))
    && (forall p, q :: p in ps && q in ps && Key(p) == Key(q) && p.generation == q.generation ==>
          Rewritten(p, hostOf) == Rewritten(q, hostOf))
    && (forall p, q :: p in ps && q in ps ==> SameHex(Rewritten(p, hostOf), Rewritten(q, hostOf), hex))
  }

  /** Hashes written alike are the same. */
  predicate SameHex(p: Payload, q: Payload, hex: Hash -> string) {
    hex(ContentHash(p)) == hex(ContentHash(q)) ==> ContentHash(p) == ContentHash(q)
  }

  /** An idle gateway that has only ever accepted such states. */
  ghost predicate Member(n: Node, ps: set<Payload>, hostOf: string -> string) {
    Idle(n, hostOf) && n.accepted <= ps
  }

  /** A kept state is one of them, is left alone by another application, and is the only one of its key and generation. */
  lemma KeptFit(n: Node, k: string, ps: set<Payload>, hex: Hash -> string, hostOf: string -> string)
    requires Member(n, ps, hostOf) && Fit(ps, hex, hostOf) && k in n.store.states
    ensures var s := n.store.states[k];
            && s in ps && Rewritten(s, hostOf) == s && Key(s) == k && '\n' !in k
            && n.store.hashes.Keys == n.store.states.Keys && n.store.hashes[k] == ContentHash(s)
  {
    hide Validated, Key, Rewritten, ContentHash, IsHex, KeptAtLeast;
    var q := KeptIsAccepted(n, k, hostOf);
    StoreIsOk(n, hostOf);
  }

  lemma KeptSame(a: Node, b: Node, k: string, ps: set<Payload>, hex: Hash -> string, hostOf: string -> string)
    requires Member(a, ps, hostOf) && Member(b, ps, hostOf) && Fit(ps, hex, hostOf)
    requires k in a.store.states && k in b.store.states && a.store.states[k].generation == b.store.states[k].generation
    ensures a.store.states[k] == b.store.states[k]
  {
    hide Key, Rewritten, ContentHash, IsHex, Member;
    KeptFit(a, k, ps, hex, hostOf);
    KeptFit(b, k, ps, hex, hostOf);
  }

  /** Among such gateways, digests are equal exactly when the same keys are kept with the same hashes. */
  lemma DigestDecides(a: Node, b: Node, ps: set<Payload>, hex: Hash -> string, hostOf: string -> string)
    requires Member(a, ps, hostOf) && Member(b, ps, hostOf) && Fit(ps, hex, hostOf)
    ensures DigestText(a.store, hex) == DigestText(b.store, hex) <==> a.store.hashes == b.store.hashes
  {
    hide Key, ContentHash, NodeInv, IsHex, DigestText, Rewritten, Member, Fit, SameHex;
    MemberStore(a, ps, hostOf);
    MemberStore(b, ps, hostOf);
    forall k | k in a.store.states ensures '\n' !in k {
      KeptFit(a, k, ps, hex, hostOf);
    }
    forall k | k in b.store.states ensures '\n' !in k {
      KeptFit(b, k, ps, hex, hostOf);
    }
    forall k, l | k in a.store.hashes && l in b.store.hashes && hex(a.store.hashes[k]) == hex(b.store.hashes[l])
      ensures a.store.hashes[k] == b.store.hashes[l]
    {
      HashesApart(a, b, k, l, ps, hex, hostOf);
    }
    FitHex(ps, hex, hostOf);
    DigestEqualIff(a.store, b.store, hex);
  }

  lemma FitHex(ps: set<Payload>, hex: Hash -> string, hostOf: string -> string)
    requires Fit(ps, hex, hostOf)
    ensures IsHex(hex)
  {
  }

  lemma MemberStore(n: Node, ps: set<Payload>, hostOf: string -> string)
    requires Member(n, ps, hostOf)
    ensures StoreOk(n.store) && n.store.states.Keys == n.store.hashes.Keys
  {
  }

  lemma HashesApart(a: Node, b: Node, k: string, l: string, ps: set<Payload>, hex: Hash -> string, hostOf: string -> string)
    requires Member(a, ps, hostOf) && Member(b, ps, hostOf) && Fit(ps, hex, hostOf)
    requires k in a.store.states && l in b.store.states && k in a.store.hashes && l in b.store.hashes
    requires hex(a.store.hashes[k]) == hex(b.store.hashes[l])
    ensures a.store.hashes[k] == b.store.hashes[l]
  {
    hide Key, ContentHash, Rewritten, IsHex, Member;
    KeptFit(a, k, ps, hex, hostOf);
    KeptFit(b, l, ps, hex, hostOf);
    assert SameHex(Rewritten(a.store.states[k], hostOf), Rewritten(b.store.states[l], hostOf), hex);
  }

  // ----- one pull

  /** The later of what the two keep. */
  function LaterOf(x: Option<Payload>, y: Option<Payload>): Option<Payload> {
    if y.None? then x else Later(x, y.value)
  }

  lemma PullMember(n: Node, peer: Node, doc: seq<Payload>, ps: set<Payload>, hex: Hash -> string, hostOf: string -> string)
    requires Member(n, ps, hostOf) && Member(peer, ps, hostOf) && Fit(ps, hex, hostOf) && IsExport(doc, peer.store)
    ensures Member(Pull(n, peer, doc, hex, hostOf), ps, hostOf)
  {
    hide Fit, IsExport, NodeInv, MergeDoc, DigestText;
    if DigestText(n.store, hex) != DigestText(peer.store, hex) {
      MergedHasLater(n, peer, doc, "", hostOf);
      forall s | s in peer.store.states.Values ensures s in ps {
        var k :| k in peer.store.states && peer.store.states[k] == s;
        KeptFit(peer, k, ps, hex, hostOf);
      }
    }
  }

  lemma PulledAt(n: Node, peer: Node, doc: seq<Payload>, ps: set<Payload>, hex: Hash -> string, hostOf: string -> string, k: string)
    requires Member(n, ps, hostOf) && Member(peer, ps, hostOf) && Fit(ps, hex, hostOf) && IsExport(doc, peer.store)
    requires DigestText(n.store, hex) != DigestText(peer.store, hex)
    ensures At(Pull(n, peer, doc, hex, hostOf), k) == LaterOf(At(n, k), At(peer, k))
  {
    hide Fit, IsExport, NodeInv, MergeDoc, DigestText;
    MergedHasLater(n, peer, doc, k, hostOf);
    if k in peer.store.states {
      KeptFit(peer, k, ps, hex, hostOf);
    }
  }

  lemma SkippedPull(n: Node, peer: Node, doc: seq<Payload>, hex: Hash -> string, hostOf: string -> string)
    requires DigestText(n.store, hex) == DigestText(peer.store, hex)
    ensures Pull(n, peer, doc, hex, hostOf) == n
  {
  }

  // ----- two gateways

  /** Two gateways in agreement: equal digests, the same keys, and the same content for each. */
  ghost predicate Agree(a: Node, b: Node, hex: Hash -> string) {
    && DigestText(a.store, hex) == DigestText(b.store, hex)
    && a.store.states.Keys == b.store.states.Keys
    && a.store.hashes == b.store.hashes
    && forall k :: k in a.store.states ==> SameContent(a.store.states[k], b.store.states[k])
  }

  /** Equal hashes are equal content: the same routes and inactive entries for every key. */
  lemma ConvergedContent(a: Node, b: Node, k: string, hostOf: string -> string)
    requires Idle(a, hostOf) && Idle(b, hostOf) && a.store.hashes == b.store.hashes && k in a.store.states
    ensures k in b.store.states && SameContent(a.store.states[k], b.store.states[k])
  {
    hide Key, ContentHash, NodeInv;
    StoreIsOk(a, hostOf);
    StoreIsOk(b, hostOf);
    assert k in a.store.states.Keys;
    assert a.store.hashes[k] == b.store.hashes[k];
    HashEqualIffSameContent(a.store.states[k], b.store.states[k]);
  }

  lemma AgreeIffHashes(a: Node, b: Node, ps: set<Payload>, hex: Hash -> string, hostOf: string -> string)
    requires Member(a, ps, hostOf) && Member(b, ps, hostOf) && Fit(ps, hex, hostOf)
    ensures Agree(a, b, hex) <==> a.store.hashes == b.store.hashes
  {
    hide NodeInv, Fit, SameContent, DigestText;
    DigestDecides(a, b, ps, hex, hostOf);
    MemberStore(a, ps, hostOf);
    MemberStore(b, ps, hostOf);
    if a.store.hashes == b.store.hashes {
      forall k | k in a.store.states ensures SameContent(a.store.states[k], b.store.states[k]) {
        ConvergedContent(a, b, k, hostOf);
      }
    }
  }

  lemma SameStates(a: Node, b: Node, ps: set<Payload>, hex: Hash -> string, hostOf: string -> string)
    requires Member(a, ps, hostOf) && Member(b, ps, hostOf) && Fit(ps, hex, hostOf) && forall k :: At(a, k) == At(b, k)
    ensures Agree(a, b, hex)
  {
    hide Key, ContentHash, NodeInv, Fit, Agree, Member;
    AgreeIffHashes(a, b, ps, hex, hostOf);
    MemberStore(a, ps, hostOf);
    MemberStore(b, ps, hostOf);
    forall k ensures k in a.store.states <==> k in b.store.states {
      assert At(a, k) == At(b, k);
    }
    assert a.store.states.Keys == b.store.states.Keys;
    forall k | k in a.store.hashes ensures a.store.hashes[k] == b.store.hashes[k] {
      assert At(a, k) == At(b, k);
    }
  }

  /**
    One round of mutual pulls between two idle gateways, with no new state from an Agent, leaves them in agreement: even
    though a pull is skipped when the digests already agree, whatever the generations, and every state received is validated
    and applied again.
   */
  lemma MutualPullsConverge(a: Node, b: Node, docA: seq<Payload>, docB: seq<Payload>, ps: set<Payload>, hex: Hash -> string,
                            hostOf: string -> string)
    requires Member(a, ps, hostOf) && Member(b, ps, hostOf) && Fit(ps, hex, hostOf)
    requires IsExport(docA, a.store)
    requires IsExport(docB, Pull(b, a, docA, hex, hostOf).store)
    ensures var b' := Pull(b, a, docA, hex, hostOf); Agree(Pull(a, b', docB, hex, hostOf), b', hex)
  {
    hide Pull, IsExport, Fit, Agree, DigestText, Member, LaterOf, At;
    var b' := Pull(b, a, docA, hex, hostOf);
    PullMember(b, a, docA, ps, hex, hostOf);
    if DigestText(a.store, hex) == DigestText(b'.store, hex) {
      SkippedPull(a, b', docB, hex, hostOf);
      DigestDecides(a, b', ps, hex, hostOf);
      AgreeIffHashes(a, b', ps, hex, hostOf);
    } else {
      if DigestText(b.store, hex) == DigestText(a.store, hex) {
        SkippedPull(b, a, docA, hex, hostOf);
      }
      var a' := Pull(a, b', docB, hex, hostOf);
      PullMember(a, b', docB, ps, hex, hostOf);
      forall k ensures At(a', k) == At(b', k) {
        PulledAt(b, a, docA, ps, hex, hostOf, k);
        PulledAt(a, b', docB, ps, hex, hostOf, k);
        SameAfterRound(a, b, k, ps, hex, hostOf);
      }
      SameStates(a', b', ps, hex, hostOf);
    }
  }

  /** Taking the later one is the same from both sides. */
  lemma SameAfterRound(a: Node, b: Node, k: string, ps: set<Payload>, hex: Hash -> string, hostOf: string -> string)
    requires Member(a, ps, hostOf) && Member(b, ps, hostOf) && Fit(ps, hex, hostOf)
    ensures LaterOf(At(a, k), At(b, k)) == LaterOf(At(b, k), At(a, k))
    ensures LaterOf(At(a, k), LaterOf(At(b, k), At(a, k))) == LaterOf(At(b, k), At(a, k))
  {
    hide Member, Fit;
    if k in a.store.states && k in b.store.states && a.store.states[k].generation == b.store.states[k].generation {
      KeptSame(a, b, k, ps, hex, hostOf);
    }
  }

  /** The same when the two pulls overlap, each merging what the other kept before the round. */
  lemma OverlappingPullsConverge(a: Node, b: Node, docA: seq<Payload>, docB: seq<Payload>, ps: set<Payload>, hex: Hash -> string,
                                 hostOf: string -> string)
    requires Member(a, ps, hostOf) && Member(b, ps, hostOf) && Fit(ps, hex, hostOf)
    requires IsExport(docA, a.store) && IsExport(docB, b.store)
    ensures Agree(Pull(a, b, docB, hex, hostOf), Pull(b, a, docA, hex, hostOf), hex)
  {
    hide Pull, IsExport, Fit, Agree, DigestText, Member, LaterOf, At;
    var a', b' := Pull(a, b, docB, hex, hostOf), Pull(b, a, docA, hex, hostOf);
    PullMember(a, b, docB, ps, hex, hostOf);
    PullMember(b, a, docA, ps, hex, hostOf);
    if DigestText(a.store, hex) == DigestText(b.store, hex) {
      SkippedPull(a, b, docB, hex, hostOf);
      SkippedPull(b, a, docA, hex, hostOf);
      DigestDecides(a, b, ps, hex, hostOf);
      AgreeIffHashes(a, b, ps, hex, hostOf);
    } else {
      forall k ensures At(a', k) == At(b', k) {
        PulledAt(a, b, docB, ps, hex, hostOf, k);
        PulledAt(b, a, docA, ps, hex, hostOf, k);
        SameAfterRound(a, b, k, ps, hex, hostOf);
      }
      SameStates(a', b', ps, hex, hostOf);
    }
  }
}
