/**
  The configuration patch of an Agent (internal/agent/internal_api.go, `applyConfigPatch`): four nested loops merge the
  patch into the configuration, and leave some secrets alone when the patch carries them empty or masked.

  JSON values other than strings and objects are opaque; `null` is not part of this model.
 */
module ConfigPatch {
  import opened Optional

  datatype Json = Str(s: string) | Obj(fields: Object) | Other(repr: string)

  type Object = map<string, Json>

  /** Eight bullets: how the Admin shows a secret it does not know. */
  const MASK := "\U{2022}\U{2022}\U{2022}\U{2022}\U{2022}\U{2022}\U{2022}\U{2022}"

  predicate Masked(v: Json) {
    v.Str? && (v.s == "" || v.s == MASK)
  }

  /** The loops at depths 2 and 4 skip a secret that comes empty or masked; those at depths 1 and 3 do not. */
  predicate Guarded(depth: nat) {
    depth == 2 || depth == 4
  }

  predicate Skipped(secrets: set<string>, k: string, v: Json, depth: nat) {
    Guarded(depth) && k in secrets && Masked(v)
  }

  // ----- the merge as a function of depth

  /** The value under one key, from what base and patch have there. */
  function MergedValue(secrets: set<string>, k: string, b: Option<Json>, p: Option<Json>, depth: nat): Option<Json>
    requires 1 <= depth <= 4
    decreases 4 - depth, 0
  {
    if p.None? || Skipped(secrets, k, p.value, depth) then b
    else if depth < 4 && b.Some? && b.value.Obj? && p.value.Obj? then
      Some(Obj(Merge(secrets, b.value.fields, p.value.fields, depth + 1)))
    else p
  }

  function At(o: Object, k: string): Option<Json> {
    if k in o then Some(o[k]) else None
  }

  /** The merge of two objects at a depth, with no notion of iteration order. */
  function Merge(secrets: set<string>, b: Object, p: Object, depth: nat): Object
    requires 1 <= depth <= 4
    decreases 4 - depth, 1
  {
    map k | k in b.Keys + p.Keys && MergedValue(secrets, k, At(b, k), At(p, k), depth).Some?
      :: MergedValue(secrets, k, At(b, k), At(p, k), depth).value
  }

  lemma MergeAt(secrets: set<string>, b: Object, p: Object, depth: nat, k: string)
    requires 1 <= depth <= 4
    ensures At(Merge(secrets, b, p, depth), k) == MergedValue(secrets, k, At(b, k), At(p, k), depth)
  {
  }

  lemma SameObject(x: Object, y: Object)
    requires forall k :: At(x, k) == At(y, k)
    ensures x == y
  {
    assert forall k :: k in x <==> At(x, k).Some?;
    assert forall k :: k in y <==> At(y, k).Some?;
    assert x.Keys == y.Keys;
    forall k | k in x ensures x[k] == y[k] {
      assert At(x, k) == At(y, k);
    }
  }

  // ----- the loops

  /** Where a loop stands: the keys in `todo` are as in the base, the others merged. */
  ghost predicate HalfMerged(secrets: set<string>, cur: Object, b: Object, p: Object, todo: set<string>, depth: nat)
    requires 1 <= depth <= 4
  {
    forall k :: At(cur, k) == if k in todo then At(b, k) else MergedValue(secrets, k, At(b, k), At(p, k), depth)
  }

  lemma LoopStep(secrets: set<string>, cur: Object, next: Object, b: Object, p: Object, todo: set<string>, depth: nat, k: string)
    requires 1 <= depth <= 4 && HalfMerged(secrets, cur, b, p, todo, depth) && k in todo
    requires At(next, k) == MergedValue(secrets, k, At(b, k), At(p, k), depth)
    requires forall j :: j != k ==> At(next, j) == At(cur, j)
    ensures HalfMerged(secrets, next, b, p, todo - {k}, depth)
  {
  }

  lemma LoopEnd(secrets: set<string>, cur: Object, b: Object, p: Object, depth: nat)
    requires 1 <= depth <= 4 && HalfMerged(secrets, cur, b, p, {}, depth)
    ensures cur == Merge(secrets, b, p, depth)
  {
    forall k ensures At(cur, k) == At(Merge(secrets, b, p, depth), k) {
      MergeAt(secrets, b, p, depth, k);
    }
    SameObject(cur, Merge(secrets, b, p, depth));
  }

  /** Depth 4: the fields of one named entry. */
  method MergeEntry(secrets: set<string>, b: Object, p: Object) returns (r: Object)
    ensures r == Merge(secrets, b, p, 4)
  {
    r := b;
    var todo := p.Keys;
    while todo != {}
      invariant todo <= p.Keys && HalfMerged(secrets, r, b, p, todo, 4)
      decreases todo
    {
      var k :| k in todo;
      ghost var cur := r;
      if !(k in secrets && Masked(p[k])) {
        r := r[k := p[k]];
      }
      LoopStep(secrets, cur, r, b, p, todo, 4, k);
      todo := todo - {k};
    }
    LoopEnd(secrets, r, b, p, 4);
  }

  /** Depth 3: the named entries of a map such as `endpoint_edges`. */
  method MergeSub(secrets: set<string>, b: Object, p: Object) returns (r: Object)
    ensures r == Merge(secrets, b, p, 3)
  {
    r := b;
    var todo := p.Keys;
    while todo != {}
      invariant todo <= p.Keys && HalfMerged(secrets, r, b, p, todo, 3)
      decreases todo
    {
      var k :| k in todo;
      ghost var cur := r;
      assert At(cur, k) == At(b, k);
      if k in r && r[k].Obj? && p[k].Obj? {
        var merged := MergeEntry(secrets, r[k].fields, p[k].fields);
        r := r[k := Obj(merged)];
      } else {
        r := r[k := p[k]];
      }
      LoopStep(secrets, cur, r, b, p, todo, 3, k);
      todo := todo - {k};
    }
    LoopEnd(secrets, r, b, p, 3);
  }

  /** Depth 2: the keys of one section. */
  method MergeSection(secrets: set<string>, b: Object, p: Object) returns (r: Object)
    ensures r == Merge(secrets, b, p, 2)
  {
    r := b;
    var todo := p.Keys;
    while todo != {}
      invariant todo <= p.Keys && HalfMerged(secrets, r, b, p, todo, 2)
      decreases todo
    {
      var k :| k in todo;
      ghost var cur := r;
      assert At(cur, k) == At(b, k);
      if k in secrets && Masked(p[k]) {
      } else if k in r && r[k].Obj? && p[k].Obj? {
        var merged := MergeSub(secrets, r[k].fields, p[k].fields);
        r := r[k := Obj(merged)];
      } else {
        r := r[k := p[k]];
      }
      LoopStep(secrets, cur, r, b, p, todo, 2, k);
      todo := todo - {k};
    }
    LoopEnd(secrets, r, b, p, 2);
  }

  /** Depth 1: the sections. Whatever order the maps are walked in, the result is the merge. */
  method ApplyConfigPatch(secrets: set<string>, base: Object, patch: Object) returns (r: Object)
    ensures r == Merge(secrets, base, patch, 1)
  {
    r := base;
    var todo := patch.Keys;
    while todo != {}
      invariant todo <= patch.Keys && HalfMerged(secrets, r, base, patch, todo, 1)
      decreases todo
    {
      var section :| section in todo;
      ghost var cur := r;
      assert At(cur, section) == At(base, section);
      if section !in r || !r[section].Obj? || !patch[section].Obj? {
        r := r[section := patch[section]];
      } else {
        var merged := MergeSection(secrets, r[section].fields, patch[section].fields);
        r := r[section := Obj(merged)];
      }
      LoopStep(secrets, cur, r, base, patch, todo, 1, section);
      todo := todo - {section};
    }
    LoopEnd(secrets, r, base, patch, 1);
  }

  // ----- the same patch twice

  lemma {:induction false} MergeSelf(secrets: set<string>, p: Object, depth: nat)
    requires 1 <= depth <= 4
    ensures Merge(secrets, p, p, depth) == p
    decreases 4 - depth
  {
    forall k ensures At(Merge(secrets, p, p, depth), k) == At(p, k) {
      MergeAt(secrets, p, p, depth, k);
      if k in p && p[k].Obj? && depth < 4 {
        MergeSelf(secrets, p[k].fields, depth + 1);
      }
    }
    SameObject(Merge(secrets, p, p, depth), p);
  }

  /** Applying a patch a second time changes nothing. */
  lemma {:induction false} MergeIdempotent(secrets: set<string>, b: Object, p: Object, depth: nat)
    requires 1 <= depth <= 4
    ensures var m := Merge(secrets, b, p, depth); Merge(secrets, m, p, depth) == m
    decreases 4 - depth
  {
    var m := Merge(secrets, b, p, depth);
    forall k ensures At(Merge(secrets, m, p, depth), k) == At(m, k) {
      MergeAt(secrets, b, p, depth, k);
      MergeAt(secrets, m, p, depth, k);
      ValueIdempotent(secrets, k, At(b, k), At(p, k), depth);
    }
    SameObject(Merge(secrets, m, p, depth), m);
  }

  lemma ValueIdempotent(secrets: set<string>, k: string, b: Option<Json>, p: Option<Json>, depth: nat)
    requires 1 <= depth <= 4
    ensures var v := MergedValue(secrets, k, b, p, depth); MergedValue(secrets, k, v, p, depth) == v
    decreases 4 - depth, 0
  {
    hide Merge;
    if p.Some? && !Skipped(secrets, k, p.value, depth) && depth < 4 && p.value.Obj? {
      if b.Some? && b.value.Obj? {
        MergeIdempotent(secrets, b.value.fields, p.value.fields, depth + 1);
      } else {
        MergeSelf(secrets, p.value.fields, depth + 1);
      }
    }
  }

  // ----- what happens along a path

  function Get(o: Object, path: seq<string>): Option<Json>
    requires path != []
    decreases |path|
  {
    if path[0] !in o then None
    else if |path| == 1 then Some(o[path[0]])
    else if o[path[0]].Obj? then Get(o[path[0]].fields, path[1..])
    else None
  }

  /** Both documents have objects along the path, down to the parent of its last key. */
  ghost predicate Parents(b: Object, p: Object, path: seq<string>)
    requires path != []
    decreases |path|
  {
    |path| == 1 ||
    (&& path[0] in b && path[0] in p && b[path[0]].Obj? && p[path[0]].Obj?
     && Parents(b[path[0]].fields, p[path[0]].fields, path[1..]))
  }

  /** The merge, seen from any path under objects of both documents: one rule, depending on the depth alone. */
  lemma {:induction false} MergeAlongPath(secrets: set<string>, b: Object, p: Object, path: seq<string>, depth: nat)
    requires 1 <= depth && path != [] && depth + |path| - 1 <= 4 && Parents(b, p, path)
    ensures Get(Merge(secrets, b, p, depth), path) ==
            MergedValue(secrets, path[|path| - 1], Get(b, path), Get(p, path), depth + |path| - 1)
    decreases |path|
  {
    hide Merge;
    var k := path[0];
    MergeAt(secrets, b, p, depth, k);
    if |path| > 1 {
      MergeAlongPath(secrets, b[k].fields, p[k].fields, path[1..], depth + 1);
    }
  }

  /** Below depth 4 nothing is merged: the patch's subtree is taken as it is. */
  lemma {:induction false} BelowDepthFour(secrets: set<string>, b: Object, p: Object, path: seq<string>, depth: nat)
    requires 1 <= depth <= 4 && path != [] && depth + |path| - 1 > 4 && Parents(b, p, path)
    ensures Get(Merge(secrets, b, p, depth), path) == Get(p, path)
    decreases |path|
  {
    hide Merge;
    var k := path[0];
    MergeAt(secrets, b, p, depth, k);
    if depth < 4 {
      BelowDepthFour(secrets, b[k].fields, p[k].fields, path[1..], depth + 1);
    }
  }

  /** The patch says nothing of the path: some key of it is missing, below objects of the patch. */
  predicate Unmentioned(p: Object, path: seq<string>)
    requires path != []
    decreases |path|
  {
    path[0] !in p || (|path| > 1 && p[path[0]].Obj? && Unmentioned(p[path[0]].fields, path[1..]))
  }

  /** The depth of the first key of the path that is missing from the patch. */
  function MissingDepth(p: Object, path: seq<string>): (d: nat)
    requires path != [] && Unmentioned(p, path)
    ensures 1 <= d <= |path|
    decreases |path|
  {
    if path[0] !in p then 1 else 1 + MissingDepth(p[path[0]].fields, path[1..])
  }

  lemma {:induction false} UnmentionedHasNoValue(p: Object, path: seq<string>)
    requires path != [] && Unmentioned(p, path)
    ensures Get(p, path) == None
    decreases |path|
  {
    if path[0] in p {
      UnmentionedHasNoValue(p[path[0]].fields, path[1..]);
    }
  }

  lemma {:induction false} UnmentionedAt(secrets: set<string>, b: Object, p: Object, path: seq<string>, depth: nat)
    requires 1 <= depth <= 4 && path != [] && Unmentioned(p, path)
    ensures Get(Merge(secrets, b, p, depth), path) ==
            if depth + MissingDepth(p, path) - 1 <= 4 then Get(b, path) else None
    decreases |path|
  {
    hide Merge;
    var k := path[0];
    MergeAt(secrets, b, p, depth, k);
    UnmentionedHasNoValue(p, path);
    if k in p && k in b && b[k].Obj? && depth < 4 {
      UnmentionedAt(secrets, b[k].fields, p[k].fields, path[1..], depth + 1);
    }
  }

  /**
    What the patch does not mention, whatever the configuration has there and however long the path: the value is kept
    exactly when the first key missing from the patch is at depth 4 at most. Below that it is lost with the object around it.
   */
  lemma UnmentionedUnchangedIff(secrets: set<string>, base: Object, patch: Object, path: seq<string>)
    requires path != [] && Unmentioned(patch, path)
    ensures Get(Merge(secrets, base, patch, 1), path) == if MissingDepth(patch, path) <= 4 then Get(base, path) else None
    ensures Get(Merge(secrets, base, patch, 1), path) == Get(base, path) <==>
            MissingDepth(patch, path) <= 4 || Get(base, path).None?
  {
    UnmentionedAt(secrets, base, patch, path, 1);
  }

  lemma {:induction false} ValuesHaveParents(b: Object, p: Object, path: seq<string>)
    requires path != [] && Get(b, path).Some? && Get(p, path).Some?
    ensures Parents(b, p, path)
    decreases |path|
  {
    if |path| > 1 {
      ValuesHaveParents(b[path[0]].fields, p[path[0]].fields, path[1..]);
    }
  }

  // ----- what the patch does mention

  /** The document has objects along the path, down to the parent of its last key. */
  predicate ParentsIn(o: Object, path: seq<string>)
    requires path != []
    decreases |path|
  {
    |path| == 1 || (path[0] in o && o[path[0]].Obj? && ParentsIn(o[path[0]].fields, path[1..]))
  }

  /** An empty or masked value under a secret key. */
  predicate NoNewSecret(secrets: set<string>, k: string, v: Json) {
    k in secrets && (v == Str("") || v == Str("\U{2022}\U{2022}\U{2022}\U{2022}\U{2022}\U{2022}\U{2022}\U{2022}"))
  }

  lemma {:induction false} LeafAt(secrets: set<string>, b: Object, p: Object, path: seq<string>, depth: nat)
    requires 1 <= depth <= 4 && path != [] && Get(p, path).Some? && !Get(p, path).value.Obj?
    ensures var d := depth + |path| - 1;
            Get(Merge(secrets, b, p, depth), path) ==
            if (d == 2 || d == 4) && ParentsIn(b, path) && NoNewSecret(secrets, path[|path| - 1], Get(p, path).value)
            then Get(b, path) else Get(p, path)
    decreases |path|
  {
    hide Merge;
    var k := path[0];
    MergeAt(secrets, b, p, depth, k);
    if |path| > 1 && k in b && b[k].Obj? && depth < 4 {
      LeafAt(secrets, b[k].fields, p[k].fields, path[1..], depth + 1);
    }
  }

  /**
    What the patch carries at a path, whatever the configuration has on it and however long the path: the value is there
    afterwards, except an empty or masked one under a secret key at depth 2 or 4 below objects of the configuration, which
    leaves what the configuration has there, be it nothing.
   */
  lemma PatchedValue(secrets: set<string>, base: Object, patch: Object, path: seq<string>)
    requires path != [] && Get(patch, path).Some? && !Get(patch, path).value.Obj?
    ensures Get(Merge(secrets, base, patch, 1), path) ==
            if (|path| == 2 || |path| == 4) && ParentsIn(base, path) && NoNewSecret(secrets, path[|path| - 1], Get(patch, path).value)
            then Get(base, path) else Get(patch, path)
  {
    LeafAt(secrets, base, patch, path, 1);
  }

  lemma {:induction false} ObjectAt(secrets: set<string>, b: Object, p: Object, path: seq<string>, depth: nat)
    requires 1 <= depth <= 4 && path != [] && Get(p, path).Some? && Get(p, path).value.Obj?
    ensures var r := Get(Merge(secrets, b, p, depth), path); r.Some? && r.value.Obj?
    decreases |path|
  {
    hide Merge;
    var k := path[0];
    MergeAt(secrets, b, p, depth, k);
    if |path| > 1 && k in b && b[k].Obj? && depth < 4 {
      ObjectAt(secrets, b[k].fields, p[k].fields, path[1..], depth + 1);
    }
  }

  /** Where the patch has an object there is one afterwards, whatever was there. */
  lemma PatchedObject(secrets: set<string>, base: Object, patch: Object, path: seq<string>)
    requires path != [] && Get(patch, path).Some? && Get(patch, path).value.Obj?
    ensures var r := Get(Merge(secrets, base, patch, 1), path); r.Some? && r.value.Obj?
  {
    ObjectAt(secrets, base, patch, path, 1);
  }

  /**
    A secret that the patch carries empty or masked. Whatever its depth, the configuration keeps the secret it has if and
    only if the path has two or four keys.
   */
  lemma SecretKeptIffGuarded(secrets: set<string>, base: Object, patch: Object, path: seq<string>)
    requires path != [] && path[|path| - 1] in secrets
    requires Get(patch, path).Some? && Masked(Get(patch, path).value)
    requires Get(base, path).Some? && Get(base, path).value.Str? && !Masked(Get(base, path).value)
    ensures Get(Merge(secrets, base, patch, 1), path) == Get(base, path) <==> |path| == 2 || |path| == 4
  {
    ValuesHaveParents(base, patch, path);
    if |path| <= 4 {
      MergeAlongPath(secrets, base, patch, path, 1);
    } else {
      BelowDepthFour(secrets, base, patch, path, 1);
    }
  }

  /** A concrete loss: a password directly inside a named sub-object is overwritten by the mask. */
  lemma SecretLostAtDepthThree()
    ensures var base := map["sources" := Obj(map["registry" := Obj(map["password" := Str("s3cret")])])];
            var patch := map["sources" := Obj(map["registry" := Obj(map["password" := Str("")])])];
            Get(Merge({"password"}, base, patch, 1), ["sources", "registry", "password"]) == Some(Str(""))
  {
    var base := map["sources" := Obj(map["registry" := Obj(map["password" := Str("s3cret")])])];
    var patch := map["sources" := Obj(map["registry" := Obj(map["password" := Str("")])])];
    var path := ["sources", "registry", "password"];
    assert path[1..] == ["registry", "password"] && path[1..][1..] == ["password"];
    assert Parents(base["sources"].fields["registry"].fields, patch["sources"].fields["registry"].fields, path[1..][1..]);
    assert Parents(base["sources"].fields, patch["sources"].fields, path[1..]);
    assert Get(patch["sources"].fields["registry"].fields, path[1..][1..]) == Some(Str(""));
    assert Get(patch["sources"].fields, path[1..]) == Some(Str(""));
    MergeAlongPath({"password"}, base, patch, path, 1);
  }
}
