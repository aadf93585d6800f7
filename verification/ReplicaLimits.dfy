/**
  Where replication does not converge (internal/edge/agentstate_replica.go): states that change each time they are applied,
  keys that hold a newline, and contents that come back.
 */
module ReplicaLimits {
  import opened Optional
  import opened PoolSources
  import opened SortByKey
  import opened AgentState
  import opened AliasRewrite
  import opened StateDigest
  import opened Replication
  import opened ReplicaPulls
  import opened ReplicaGroup

  // ----- a state that changes when it is applied again

  /** A gateway that received the state from its Agent, and one that pulled it from there. */
  function Direct(p: Payload, hostOf: string -> string): Node {
    AcceptWhole(FRESH_NODE, p, hostOf)
  }

  ghost function Relayed(p: Payload, hex: Hash -> string, hostOf: string -> string): Node
    requires Validated(p).Some?
  {
    Pull(FRESH_NODE, Direct(p, hostOf), [Rewritten(Validated(p).value, hostOf)], hex, hostOf)
  }

  lemma DirectKeeps(p: Payload, hostOf: string -> string)
    requires Validated(p).Some?
    ensures var n, v := Direct(p, hostOf), Validated(p).value;
            && Idle(n, hostOf) && n.store.states == map[Key(p) := Rewritten(v, hostOf)]
            && n.store.hashes == map[Key(p) := ContentHash(Rewritten(v, hostOf))] && n.last == map[Key(p) := p.generation]
  {
    hide Validated, Key, Rewritten, ContentHash, NodeInv;
    ValidatedTwice(p);
    FreshInv(hostOf);
    AcceptWholeIsAtomic(FRESH_NODE, p, hostOf);
    var v := Validated(p).value;
    SameGeneration(v, hostOf);
    DirectIdle(p, hostOf);
  }

  lemma DirectIdle(p: Payload, hostOf: string -> string)
    requires Validated(p).Some?
    ensures Idle(Direct(p, hostOf), hostOf)
  {
    hide Validated, Key, Rewritten, NodeInv;
    FreshInv(hostOf);
    AcceptInv(FRESH_NODE, p, hostOf);
    ValidatedTwice(p);
    var m := Accept(FRESH_NODE, p);
    PutInv(m, 0, hostOf);
    assert m.pending == [Validated(p).value];
  }

  /** An empty store and one with a state have different digests. */
  lemma SomeText(s: Store, k: string, hex: Hash -> string)
    requires s.states.Keys == {k}
    ensures DigestText(s, hex) != DigestText(EMPTY_STORE, hex)
  {
    SortedOne(k);
    SortedKeysFacts({});
    assert EMPTY_STORE.states.Keys == {};
    assert SortedKeys({}) == [];
  }

  lemma RelayedKeeps(p: Payload, hex: Hash -> string, hostOf: string -> string)
    requires Validated(p).Some?
    ensures var n, v := Relayed(p, hex, hostOf), Validated(p).value;
            && Idle(n, hostOf) && n.store.states == map[Key(p) := Rewritten(Rewritten(v, hostOf), hostOf)]
            && n.store.hashes == map[Key(p) := ContentHash(Rewritten(Rewritten(v, hostOf), hostOf))]
            && n.last == map[Key(p) := p.generation]
  {
    hide Validated, Key, Rewritten, ContentHash, NodeInv, DigestText;
    var v := Validated(p).value;
    var r := Rewritten(v, hostOf);
    ValidatedTwice(p);
    DirectKeeps(p, hostOf);
    RewrittenValid(v, hostOf);
    SameGeneration(v, hostOf);
    SomeText(Direct(p, hostOf).store, Key(p), hex);
    DirectKeeps(r, hostOf);
    assert [r][..0] == [];
    assert MergeDoc(FRESH_NODE, [r], hostOf) == Direct(r, hostOf);
  }

  /** A state of a generation already accepted changes nothing. */
  lemma RefusedPull(n: Node, peer: Node, s: Payload, hex: Hash -> string, hostOf: string -> string)
    requires Validated(s) == Some(s) && s.generation <= LastOf(n.last, Key(s))
    ensures Pull(n, peer, [s], hex, hostOf) == n
  {
    hide Validated, Key, DigestText;
    AcceptWholeIsAtomic(n, s, hostOf);
    assert [s][..0] == [];
    assert MergeDoc(n, [s], hostOf) == AcceptWhole(n, s, hostOf);
  }

  /**
    One valid state, one gateway that has it from the Agent and one that has it by a pull. They agree if and only if
    applying the state a second time does not change its hash, and no pull between them ever changes anything.
   */
  lemma RelayAgreesIff(p: Payload, hex: Hash -> string, hostOf: string -> string)
    requires Validated(p).Some?
    ensures var a, b, v := Direct(p, hostOf), Relayed(p, hex, hostOf), Validated(p).value;
            var once := Rewritten(v, hostOf);
            var twice := Rewritten(once, hostOf);
            && Idle(a, hostOf) && Idle(b, hostOf)
            && IsExport([once], a.store) && IsExport([twice], b.store)
            && Pull(a, b, [twice], hex, hostOf) == a && Pull(b, a, [once], hex, hostOf) == b
            && (a.store.hashes == b.store.hashes <==> ContentHash(twice) == ContentHash(once))
            && (KeysDetermine(once.routes, RouteKey) ==> (a.store.hashes == b.store.hashes <==> SettledState(v, hostOf)))
  {
    hide Validated, Key, Rewritten, ContentHash, NodeInv, DigestText, KeysDetermine, Pull, SettledState, Direct, Relayed;
    var a, b, v := Direct(p, hostOf), Relayed(p, hex, hostOf), Validated(p).value;
    var once := Rewritten(v, hostOf);
    var twice := Rewritten(once, hostOf);
    ValidatedTwice(p);
    DirectKeeps(p, hostOf);
    RelayedKeeps(p, hex, hostOf);
    RewrittenValid(v, hostOf);
    RewrittenValid(once, hostOf);
    SameGeneration(v, hostOf);
    SameGeneration(once, hostOf);
    RefusedPull(a, b, twice, hex, hostOf);
    RefusedPull(b, a, once, hex, hostOf);
    assert a.store.hashes[Key(p)] == ContentHash(once) && b.store.hashes[Key(p)] == ContentHash(twice);
    if KeysDetermine(once.routes, RouteKey) {
      SettledHashIff(v, hostOf);
    }
  }

  /** Two blank aliases before a host are enough. */
  function BlankAliases(): Payload {
    Payload("a", "docker", "", 1, [AgentRoute("r", "h", "c", "a", "docker", ["", "", "b"], "")], [])
  }

  lemma BlankAliasesNeverAgree(hex: Hash -> string, hostOf: string -> string)
    requires hostOf("") == "" && hostOf("b") == "b"
    ensures Validated(BlankAliases()) == Some(BlankAliases())
    ensures Direct(BlankAliases(), hostOf).store.hashes != Relayed(BlankAliases(), hex, hostOf).store.hashes
  {
    hide Direct, Relayed, BlankAliases, Rewritten, Validated, ContentHash, Key, IsExport, Idle, Pull;
    BlankAliasesValid(hostOf);
    RelayAgreesIff(BlankAliases(), hex, hostOf);
  }

  lemma BlankAliasesValid(hostOf: string -> string)
    requires hostOf("") == "" && hostOf("b") == "b"
    ensures Validated(BlankAliases()) == Some(BlankAliases())
    ensures !SettledState(BlankAliases(), hostOf) && KeysDetermine(Rewritten(BlankAliases(), hostOf).routes, RouteKey)
  {
    hide RewrittenAliases, PoolSourceOf;
    var p := BlankAliases();
    DockerIsPool();
    assert FilledRoutes(p) == p.routes;
    BlanksBeforeAHost(hostOf);
    SettledIff(p, hostOf);
    assert ["b", "", "b"][1] != ["b", "b", "b"][1];
    assert !Settles(p.routes[0].aliases, hostOf);
  }

  // ----- a newline in a key

  /**
    The assumption on newlines is needed: here one gateway keeps two states and the other a third, of other keys, and no
    pull between them ever moves anything.
   */
  lemma NewlineStopsPulls(hex: Hash -> string, hostOf: string -> string, doc: seq<Payload>)
    ensures var a := AcceptWhole(Direct(Bare("a", "s"), hostOf), Bare("b", "t"), hostOf);
            var b := Direct(Bare("a", TwoLines(hex)), hostOf);
            && Idle(a, hostOf) && Idle(b, hostOf) && a.store.states.Keys != b.store.states.Keys
            && Pull(a, b, doc, hex, hostOf) == a && Pull(b, a, doc, hex, hostOf) == b
  {
    hide NodeInv, DigestText, ContentHash, Key;
    var p, q, r := Bare("a", "s"), Bare("b", "t"), Bare("a", TwoLines(hex));
    NewlineCollides(hex);
    BareKeys(hex);
    BareKept(p, hostOf);
    BareKept(q, hostOf);
    BareKept(r, hostOf);
    DirectKeeps(p, hostOf);
    DirectKeeps(r, hostOf);
    var a1 := Direct(p, hostOf);
    StrTotal(Key(p), Key(p));
    AcceptWholeIsAtomic(a1, q, hostOf);
    AcceptWholeFacts(a1, q, hostOf);
    assert a1.store == Put(EMPTY_STORE, p) && Direct(r, hostOf).store == Put(EMPTY_STORE, r);
  }

  /** A state without routes is valid and kept as it is. */
  lemma BareKept(p: Payload, hostOf: string -> string)
    requires p.routes == [] && p.inactive == [] && HeaderOk(p)
    ensures Validated(p) == Some(p) && Rewritten(p, hostOf) == p
  {
    hide PoolSourceOf;
    assert FilledRoutes(p) == p.routes;
    assert Rewritten(p, hostOf).routes == p.routes;
  }

  // ----- a content that comes back

  /** The content of a source that stops one container and starts it again: the first and last state are the same. */
  function Stopped(gen: int, inactive: seq<Inactive>): Payload {
    Payload("a", "docker", "", gen, [], inactive)
  }

  const FIRST := Stopped(3, [])
  const OTHER := Stopped(4, [Inactive("h", "c", "")])
  const AGAIN := Stopped(5, [])

  lemma StoppedFacts(hostOf: string -> string)
    ensures forall p :: p in {FIRST, OTHER, AGAIN} ==> Validated(p) == Some(p) && Rewritten(p, hostOf) == p && Key(p) == "a|docker|"
    ensures ContentHash(FIRST) == ContentHash(AGAIN) != ContentHash(OTHER)
  {
    hide PoolSourceOf, ContentHash;
    assert PoolSourceOf("docker").Some? by {
      DockerIsPool();
    }
    forall p | p in {FIRST, OTHER, AGAIN} ensures Validated(p) == Some(p) && Rewritten(p, hostOf) == p && Key(p) == "a|docker|" {
      assert FilledRoutes(p) == p.routes;
      assert Rewritten(p, hostOf).routes == p.routes;
      OneInactive();
    }
    SameBareHash(FIRST, AGAIN);
    HashEqualIffSameContent(FIRST, OTHER);
    assert multiset(OTHER.inactive)[OTHER.inactive[0]] == 1;
  }

  lemma DockerIsPool()
    ensures PoolSourceOf("docker").Some?
  {
  }

  lemma OneInactive()
    ensures KeptInactive([]) == [] && KeptInactive(OTHER.inactive) == OTHER.inactive
  {
    assert OTHER.inactive[..0] == [];
  }

  /**
    A round does not always bring the group together: the hub skips the peer whose content it has, though that peer is
    later, then pulls another content from a second peer, and the first one refuses it as late.
   */
  lemma ContentReturns(hex: Hash -> string, hostOf: string -> string)
    requires IsHex(hex) && hex(ContentHash(FIRST)) != hex(ContentHash(OTHER))
    ensures var hub, p, q := Direct(FIRST, hostOf), Direct(AGAIN, hostOf), Direct(OTHER, hostOf);
            var h := Gather(hub, [p, q], [[AGAIN], [OTHER]], hex, hostOf);
            && IsExport([AGAIN], p.store) && IsExport([OTHER], q.store) && IsExport([OTHER], h.store)
            && !Agree(Pull(p, h, [OTHER], hex, hostOf), h, hex)
  {
    hide NodeInv, Key, ContentHash, DigestText, Validated, Rewritten, Pull, Direct, Agree, Fit, Member, Gather;
    var hub, p, q := Direct(FIRST, hostOf), Direct(AGAIN, hostOf), Direct(OTHER, hostOf);
    var ps := {FIRST, OTHER, AGAIN};
    StoppedFacts(hostOf);
    StoppedFit(hex, hostOf);
    StoppedMember(FIRST, hostOf);
    StoppedMember(AGAIN, hostOf);
    StoppedMember(OTHER, hostOf);
    DigestDecides(hub, p, ps, hex, hostOf);
    SkippedPull(hub, p, [AGAIN], hex, hostOf);
    DigestDecides(hub, q, ps, hex, hostOf);
    assert hub.store.hashes["a|docker|"] != q.store.hashes["a|docker|"];
    var h := Pull(hub, q, [OTHER], hex, hostOf);
    GatherTwo(hub, p, q, [AGAIN], [OTHER], hex, hostOf);
    PullMember(hub, q, [OTHER], ps, hex, hostOf);
    forall k ensures At(h, k) == if k == "a|docker|" then Some(OTHER) else None {
      PulledAt(hub, q, [OTHER], ps, hex, hostOf, k);
    }
    OnlyAt(h, "a|docker|", OTHER);
    SpreadAgreesIff(p, h, [OTHER], ps, hex, hostOf);
    assert !CoveredAt(At(p, "a|docker|"), At(h, "a|docker|"));
  }

  lemma GatherTwo(hub: Node, p: Node, q: Node, docP: seq<Payload>, docQ: seq<Payload>, hex: Hash -> string, hostOf: string -> string)
    ensures Gather(hub, [p, q], [docP, docQ], hex, hostOf) ==
            Pull(Pull(hub, p, docP, hex, hostOf), q, docQ, hex, hostOf)
  {
    hide Pull;
    assert [p, q][..1] == [p] && [docP, docQ][..1] == [docP] && [p][..0] == [] && [docP][..0] == [];
    assert Gather(hub, [p], [docP], hex, hostOf) == Pull(hub, p, docP, hex, hostOf);
  }

  lemma OnlyAt(n: Node, k: string, s: Payload)
    requires Key(s) == k && forall j :: At(n, j) == if j == k then Some(s) else None
    ensures IsExport([s], n.store)
  {
    hide Key;
    forall j | j in n.store.states ensures j == k && n.store.states[j] == s {
      assert At(n, j).Some?;
    }
    assert At(n, k) == Some(s);
  }

  lemma StoppedFit(hex: Hash -> string, hostOf: string -> string)
    requires IsHex(hex) && hex(ContentHash(FIRST)) != hex(ContentHash(OTHER))
    ensures Fit({FIRST, OTHER, AGAIN}, hex, hostOf)
  {
    hide ContentHash, Key, Rewritten, Validated, IsHex, SameHex;
    StoppedFacts(hostOf);
    assert '\n' !in "a|docker|";
    forall p, q | p in {FIRST, OTHER, AGAIN} && q in {FIRST, OTHER, AGAIN}
      ensures SameHex(p, q, hex) && (p.generation == q.generation ==> p == q)
    {
      StoppedPair(p, q, hex, hostOf);
    }
  }

  lemma StoppedPair(p: Payload, q: Payload, hex: Hash -> string, hostOf: string -> string)
    requires hex(ContentHash(FIRST)) != hex(ContentHash(OTHER)) && p in {FIRST, OTHER, AGAIN} && q in {FIRST, OTHER, AGAIN}
    ensures SameHex(p, q, hex) && (p.generation == q.generation ==> p == q)
  {
    hide ContentHash, Key, Rewritten, Validated;
    StoppedFacts(hostOf);
  }

  lemma StoppedMember(p: Payload, hostOf: string -> string)
    requires p in {FIRST, OTHER, AGAIN}
    ensures var n := Direct(p, hostOf);
            && Member(n, {FIRST, OTHER, AGAIN}, hostOf) && IsExport([p], n.store)
            && n.store.states == map["a|docker|" := p] && n.store.hashes == map["a|docker|" := ContentHash(p)]
  {
    hide ContentHash, Key, Rewritten, Validated, NodeInv;
    StoppedFacts(hostOf);
    DirectKeeps(p, hostOf);
    FreshInv(hostOf);
    AcceptWholeFacts(FRESH_NODE, p, hostOf);
  }
}
