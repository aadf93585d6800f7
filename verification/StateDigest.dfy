/**
  The digest by which two gateways compare what they keep (internal/edge/agentstate_replica.go): the hash of a text that
  lists each key with the hash of its state, in the order of the keys.

  The digest is modelled by its text: no two texts collide. `hex` writes the hash of a state on 64 characters.
 */
module StateDigest {
  import opened Optional
  import opened SortByKey
  import opened PoolSources
  import opened AgentState

  // ----- the text

  /** `key=hash` and a newline, for each key. */
  function Lines(keys: seq<string>, hash: string -> string): string {
    if keys == [] then "" else keys[0] + "=" + hash(keys[0]) + "\n" + Lines(keys[1..], hash)
  }

  /** The only field of the order on keys. */
  function Whole(k: string): seq<string> {
    [k]
  }

  /** The keys of a map, in some order. */
  ghost function AnyOrder(s: set<string>): (r: seq<string>)
    ensures multiset(r) == multiset(s)
  {
    if s == {} then []
    else
      var k :| k in s;
      AnyOrder(s - {k}) + [k]
  }

  ghost function SortedKeys(s: set<string>): seq<string> {
    Sort(AnyOrder(s), Whole)
  }

  /** What the store has as hash of a key; nothing for a key without one, as a Go map gives. */
  function HashOf(s: Store, k: string, hex: Hash -> string): string {
    if k in s.hashes then hex(s.hashes[k]) else ""
  }

  ghost function DigestText(s: Store, hex: Hash -> string): string {
    Lines(SortedKeys(s.states.Keys), k => HashOf(s, k, hex))
  }

  // ----- the loops of digest

  /** Keys determine themselves, so every sort of every listing of the same keys gives the same list. */
  lemma SortedKeysOf(s: set<string>, keys: seq<string>)
    requires multiset(keys) == multiset(s)
    ensures Sort(keys, Whole) == SortedKeys(s)
    ensures multiset(SortedKeys(s)) == multiset(s)
  {
    hide Sort, KeyLess;
    SortOrderIndependent(keys, AnyOrder(s), Whole);
    SortIsSortedCopy(AnyOrder(s), Whole);
  }

  lemma SortedKeysFacts(s: set<string>)
    ensures forall k :: k in SortedKeys(s) <==> k in s
  {
    hide SortedKeys;
    SortedKeysOf(s, AnyOrder(s));
    forall k ensures k in SortedKeys(s) <==> k in s {
      assert k in SortedKeys(s) <==> k in multiset(SortedKeys(s));
      assert k in multiset(s) <==> k in s;
    }
  }

  lemma {:induction false} LinesSnoc(keys: seq<string>, i: nat, hash: string -> string)
    requires i < |keys|
    ensures Lines(keys[..i + 1], hash) == Lines(keys[..i], hash) + keys[i] + "=" + hash(keys[i]) + "\n"
    decreases i
  {
    if i == 0 {
      assert keys[..1] == [keys[0]] && keys[..1][1..] == [];
    } else {
      LinesSnoc(keys[1..], i - 1, hash);
      assert keys[..i + 1][1..] == keys[1..][..i] && keys[..i][1..] == keys[1..][..i - 1];
    }
  }

  /** The first loop, in any iteration order of the map. */
  method CollectKeys(s: set<string>) returns (keys: seq<string>)
    ensures multiset(keys) == multiset(s)
  {
    keys := [];
    var todo := s;
    while todo != {}
      invariant todo <= s && multiset(keys) + multiset(todo) == multiset(s)
      decreases todo
    {
      var k :| k in todo;
      assert multiset(todo) == multiset(todo - {k}) + multiset{k};
      keys := keys + [k];
      todo := todo - {k};
    }
  }

  /** `digest`: collect the keys, sort them, write the lines. */
  method Digest(store: AgentStateStore, hex: Hash -> string) returns (text: string)
    ensures text == DigestText(store.Value(), hex)
  {
    hide Sort, SortedKeys;
    var s := store.Value();
    var keys := CollectKeys(s.states.Keys);
    SortedKeysOf(s.states.Keys, keys);
    keys := Sort(keys, Whole);
    ghost var hash := k => HashOf(s, k, hex);
    text := "";
    for i := 0 to |keys|
      invariant text == Lines(keys[..i], hash)
    {
      LinesSnoc(keys, i, hash);
      text := text + keys[i] + "=" + HashOf(s, keys[i], hex) + "\n";
    }
    assert keys[..|keys|] == keys;
  }

  // ----- what equal texts mean

  /** Hashes are written on 64 characters without newline, and keys have no newline. */
  ghost predicate Plain(keys: seq<string>, hash: string -> string) {
    forall k :: k in keys ==> |hash(k)| == 64 && '\n' !in hash(k) && '\n' !in k
  }

  lemma LineInjective(k: string, h: string, l: string, g: string)
    requires |h| == |g| && k + "=" + h == l + "=" + g
    ensures k == l && h == g
  {
    var s := k + "=" + h;
    assert |k| == |l|;
    assert k == s[..|k|] && l == s[..|l|] && h == s[|k| + 1..] && g == s[|l| + 1..];
  }

  /** Two equal texts list the same keys with the same hashes. */
  lemma {:induction false} LinesInjective(keys: seq<string>, hash: string -> string, keys': seq<string>, hash': string -> string)
    requires Plain(keys, hash) && Plain(keys', hash') && Lines(keys, hash) == Lines(keys', hash')
    ensures keys == keys' && forall k :: k in keys ==> hash(k) == hash'(k)
    decreases |keys|
  {
    if keys != [] && keys' != [] {
      var k, l := keys[0], keys'[0];
      var a, b := k + "=" + hash(k), l + "=" + hash'(l);
      var x, y := Lines(keys[1..], hash), Lines(keys'[1..], hash');
      assert Lines(keys, hash) == a + "\n" + x && Lines(keys', hash') == b + "\n" + y;
      SplitAt('\n', a, x, b, y);
      LineInjective(k, hash(k), l, hash'(l));
      LinesInjective(keys[1..], hash, keys'[1..], hash');
      assert keys == [k] + keys[1..] && keys' == [l] + keys'[1..];
    }
  }

  lemma {:induction false} LinesSame(keys: seq<string>, hash: string -> string, hash': string -> string)
    requires forall k :: k in keys ==> hash(k) == hash'(k)
    ensures Lines(keys, hash) == Lines(keys, hash')
  {
    if keys != [] {
      LinesSame(keys[1..], hash, hash');
    }
  }

  /** A way of writing hashes: 64 characters, none a newline. */
  ghost predicate IsHex(hex: Hash -> string) {
    forall h :: |hex(h)| == 64 && '\n' !in hex(h)
  }

  /** No key of the store has a newline. */
  ghost predicate PlainKeys(s: Store) {
    forall k :: k in s.states ==> '\n' !in k
  }

  /** No two of the hashes kept by the stores are written alike. */
  ghost predicate NoCollision(s: Store, t: Store, hex: Hash -> string) {
    forall k, l :: k in s.hashes && l in t.hashes && hex(s.hashes[k]) == hex(t.hashes[l]) ==> s.hashes[k] == t.hashes[l]
  }

  /** Two stores have equal digests if and only if they list the same keys with the same hashes. */
  lemma DigestEqualIff(s: Store, t: Store, hex: Hash -> string)
    requires s.states.Keys == s.hashes.Keys && t.states.Keys == t.hashes.Keys
    requires IsHex(hex) && PlainKeys(s) && PlainKeys(t) && NoCollision(s, t, hex)
    ensures DigestText(s, hex) == DigestText(t, hex) <==> s.hashes == t.hashes
  {
    hide SortedKeys, Lines;
    var ks, kt := SortedKeys(s.states.Keys), SortedKeys(t.states.Keys);
    var hs, ht := k => HashOf(s, k, hex), k => HashOf(t, k, hex);
    SortedKeysFacts(s.states.Keys);
    SortedKeysFacts(t.states.Keys);
    if s.hashes == t.hashes {
      LinesSame(ks, hs, ht);
    }
    if DigestText(s, hex) == DigestText(t, hex) {
      assert Plain(ks, hs) && Plain(kt, ht);
      LinesInjective(ks, hs, kt, ht);
      assert forall k :: k in s.states.Keys <==> k in t.states.Keys;
      assert s.hashes.Keys == t.hashes.Keys;
      forall k | k in s.hashes ensures s.hashes[k] == t.hashes[k] {
        assert hs(k) == ht(k);
      }
    }
  }

  // ----- a newline in a key

  lemma SortedOne(k: string)
    ensures SortedKeys({k}) == [k]
  {
    SortedKeysOf({k}, [k]);
    assert Sort([k], Whole) == [k] by {
      assert [k][..0] == [];
    }
  }

  lemma SortedTwo(k: string, l: string)
    requires StrLess(k, l)
    ensures SortedKeys({k, l}) == [k, l]
  {
    hide Sort, StrLess;
    StrTotal(k, l);
    KeyTotal(Whole(k), Whole(l));
    assert KeyLess(Whole(k), Whole(l));
    hide KeyLess;
    assert multiset([k, l]) == multiset({k, l});
    SortIsSortedCopy(AnyOrder({k, l}), Whole);
    SortedCopyUnique([k, l], SortedKeys({k, l}), Whole);
  }

  /** A state without routes. */
  function Bare(agent: string, scope: string): Payload {
    Payload(agent, "portainer", scope, 1, [], [])
  }

  /** The scope that writes, after the key of agent `a` and scope `s`, the end of its line and the key of another agent. */
  function TwoLines(hex: Hash -> string): string {
    "s=" + hex(ContentHash(Bare("a", "s"))) + "\nb|portainer|t"
  }

  /**
    Without the assumption on newlines the digest does not tell stores apart: one state whose scope holds a newline writes
    the same text as two states of other keys.
   */
  lemma NewlineCollides(hex: Hash -> string)
    ensures var two := Put(Put(EMPTY_STORE, Bare("a", "s")), Bare("b", "t"));
            var one := Put(EMPTY_STORE, Bare("a", TwoLines(hex)));
            two.hashes.Keys != one.hashes.Keys && DigestText(two, hex) == DigestText(one, hex)
    ensures Validated(Bare("a", TwoLines(hex))) == Some(Bare("a", TwoLines(hex)))
  {
    hide ContentHash, PoolSourceOf, SortedKeys;
    var p, q, r := Bare("a", "s"), Bare("b", "t"), Bare("a", TwoLines(hex));
    var k, l, m := Key(p), Key(q), Key(r);
    BareKeys(hex);
    var h := hex(ContentHash(p));
    assert ContentHash(q) == ContentHash(p) && ContentHash(r) == ContentHash(p) by {
      SameBareHash(p, q);
      SameBareHash(p, r);
    }
    var two, one := Put(Put(EMPTY_STORE, p), q), Put(EMPTY_STORE, r);
    assert two.states.Keys == {k, l} && one.states.Keys == {m};
    SortedTwo(k, l);
    SortedOne(m);
    var ht, ho := j => HashOf(two, j, hex), j => HashOf(one, j, hex);
    assert ht(k) == h && ht(l) == h && ho(m) == h;
    assert [k, l][1..] == [l] && [l][1..] == [] && [m][1..] == [];
    assert Lines([l], ht) == l + "=" + h + "\n" + "";
    assert Lines([k, l], ht) == k + "=" + h + "\n" + (l + "=" + h + "\n" + "");
    assert Lines([m], ho) == m + "=" + h + "\n" + "";
  }

  lemma SameBareHash(p: Payload, q: Payload)
    requires p.routes == q.routes && p.inactive == q.inactive
    ensures ContentHash(p) == ContentHash(q)
  {
  }

  lemma BareKeys(hex: Hash -> string)
    ensures var k, l, m := Key(Bare("a", "s")), Key(Bare("b", "t")), Key(Bare("a", TwoLines(hex)));
            && StrLess(k, l) && m != k && m != l
            && m == k + "=" + hex(ContentHash(Bare("a", "s"))) + "\n" + l
  {
    hide ContentHash;
    var k, l, m := Key(Bare("a", "s")), Key(Bare("b", "t")), Key(Bare("a", TwoLines(hex)));
    assert k == "a|portainer|s" && l == "b|portainer|t";
    assert |m| > |k|;
  }
}
