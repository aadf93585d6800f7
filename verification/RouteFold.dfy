/**
  Merging of announced backends and folding of the routes of a container (internal/edge/agenthandlers.go).

  `strings.EqualFold` and `strings.TrimSpace` are modelled on ASCII.
 */
module RouteFold {
  import opened Optional
  import opened PoolSources
  import opened RoutePrune

  // ----- merging announced backends into a pool

  /** An announcement replaces a backend of the same container or of the same URL. */
  predicate Hits(o: Backend, x: Backend) {
    (x.containerID != "" && o.containerID == x.containerID) || (x.url != "" && o.url == x.url)
  }

  /** The first backend that `x` replaces, the length of the pool if it replaces none. */
  function FirstHit(out: seq<Backend>, x: Backend): (i: nat)
    ensures i <= |out| && (forall k :: 0 <= k < i ==> !Hits(out[k], x)) && (i < |out| ==> Hits(out[i], x))
  {
    if out == [] then 0
    else
      var i := FirstHit(out[..|out| - 1], x);
      if i < |out| - 1 || Hits(out[|out| - 1], x) then i else |out|
  }

  function MergeOne(out: seq<Backend>, x: Backend): seq<Backend> {
    var i := FirstHit(out, x);
    if i < |out| then out[i := x] else out + [x]
  }

  /** `mergeDiscoveryBackends` */
  function MergeBackends(existing: seq<Backend>, incoming: seq<Backend>): seq<Backend> {
    if incoming == [] then existing
    else MergeOne(MergeBackends(existing, incoming[..|incoming| - 1]), incoming[|incoming| - 1])
  }

  lemma MergeSnoc(existing: seq<Backend>, incoming: seq<Backend>, k: nat)
    requires k < |incoming|
    ensures MergeBackends(existing, incoming[..k + 1]) == MergeOne(MergeBackends(existing, incoming[..k]), incoming[k])
  {
    assert incoming[..k + 1][..k] == incoming[..k];
  }

  method MergeDiscoveryBackends(existing: seq<Backend>, incoming: seq<Backend>) returns (out: seq<Backend>)
    ensures out == MergeBackends(existing, incoming)
  {
    hide MergeBackends;
    out := existing;
    NothingMerged(existing, incoming);
    for k := 0 to |incoming|
      invariant out == MergeBackends(existing, incoming[..k])
    {
      var x := incoming[k];
      MergeSnoc(existing, incoming, k);
      var replaced, i := false, 0;
      while i < |out|
        invariant 0 <= i <= |out| && forall j :: 0 <= j < i ==> !Hits(out[j], x)
      {
        if x.containerID != "" && out[i].containerID == x.containerID {
          replaced := true;
          break;
        }
        if x.url != "" && out[i].url == x.url {
          replaced := true;
          break;
        }
        i := i + 1;
      }
      HitUnique(out, x, i);
      out := if replaced then out[i := x] else out + [x];
    }
    assert incoming[..|incoming|] == incoming;
  }

  lemma NothingMerged(existing: seq<Backend>, incoming: seq<Backend>)
    ensures MergeBackends(existing, incoming[..0]) == existing
  {
  }

  lemma HitUnique(out: seq<Backend>, x: Backend, i: nat)
    requires i <= |out| && (forall k :: 0 <= k < i ==> !Hits(out[k], x)) && (i < |out| ==> Hits(out[i], x))
    ensures FirstHit(out, x) == i
  {
  }

  /** Announcements with pairwise distinct, non-empty containers and URLs. */
  ghost predicate Announcement(incoming: seq<Backend>) {
    && (forall i :: 0 <= i < |incoming| ==> incoming[i].containerID != "" && incoming[i].url != "")
    && (forall i, j :: 0 <= i < j < |incoming| ==>
          incoming[i].containerID != incoming[j].containerID && incoming[i].url != incoming[j].url)
  }

  /** Every announced backend of the list is in the pool, at the first place it would replace. */
  ghost predicate Settled(out: seq<Backend>, x: Backend) {
    FirstHit(out, x) < |out| && out[FirstHit(out, x)] == x
  }

  lemma SettledStays(out: seq<Backend>, x: Backend, y: Backend)
    requires Settled(out, x) && !Hits(x, y) && !Hits(y, x)
    ensures Settled(MergeOne(out, y), x)
  {
    var next := MergeOne(out, y);
    HitUnique(next, x, FirstHit(out, x));
  }

  lemma SettledNow(out: seq<Backend>, x: Backend)
    requires Hits(x, x)
    ensures Settled(MergeOne(out, x), x)
  {
    HitUnique(MergeOne(out, x), x, FirstHit(out, x));
  }

  lemma {:induction false} AllSettled(existing: seq<Backend>, incoming: seq<Backend>, n: nat)
    requires Announcement(incoming) && n <= |incoming|
    ensures forall j :: 0 <= j < n ==> Settled(MergeBackends(existing, incoming[..n]), incoming[j])
  {
    hide FirstHit, MergeBackends, MergeOne;
    if n > 0 {
      AllSettled(existing, incoming, n - 1);
      MergeSnoc(existing, incoming, n - 1);
      var out, y := MergeBackends(existing, incoming[..n - 1]), incoming[n - 1];
      forall j | 0 <= j < n ensures Settled(MergeOne(out, y), incoming[j]) {
        if j == n - 1 {
          SettledNow(out, y);
        } else {
          SettledStays(out, incoming[j], y);
        }
      }
    }
  }

  lemma {:induction false} MergeSettled(out: seq<Backend>, incoming: seq<Backend>)
    requires forall j :: 0 <= j < |incoming| ==> Settled(out, incoming[j])
    ensures MergeBackends(out, incoming) == out
  {
    if incoming != [] {
      MergeSettled(out, incoming[..|incoming| - 1]);
      assert Settled(out, incoming[|incoming| - 1]);
    }
  }

  /** Merging such an announcement keeps every backend announced, and merging it again changes nothing. */
  lemma AnnouncementKeptAndIdempotent(existing: seq<Backend>, incoming: seq<Backend>)
    requires Announcement(incoming)
    ensures var m := MergeBackends(existing, incoming);
            (forall x :: x in incoming ==> x in m) && MergeBackends(m, incoming) == m
  {
    hide FirstHit;
    assert incoming[..|incoming|] == incoming;
    AllSettled(existing, incoming, |incoming|);
    MergeSettled(MergeBackends(existing, incoming), incoming);
  }

  /** A backend leaves its place only for an announcement of its container or of its URL; no place is lost. */
  lemma {:induction false} MergeLosesOnlyReplaced(existing: seq<Backend>, incoming: seq<Backend>, i: nat)
    requires i < |existing|
    ensures var m := MergeBackends(existing, incoming);
            && |existing| <= |m| <= |existing| + |incoming|
            && (m[i] == existing[i] || exists x :: x in incoming && Hits(existing[i], x))
  {
    hide Hits;
    if incoming != [] {
      var k := |incoming| - 1;
      MergeLosesOnlyReplaced(existing, incoming[..k], i);
      var out := MergeBackends(existing, incoming[..k]);
      if out[i] == existing[i] {
        assert incoming[k] in incoming;
      } else {
        var x :| x in incoming[..k] && Hits(existing[i], x);
        assert x in incoming;
      }
    }
  }

  /**
    A container announced with two URLs is not such an announcement, and does not keep both: the second replaces the
    first, and announcing them again over a pool that has both leaves the second twice.
   */
  lemma TwoUrlsOfOneContainer()
    ensures var a, b := Backend("http://10.0.0.1:80", "c1", "", ""), Backend("http://10.0.0.1:81", "c1", "", "");
            MergeBackends([], [a, b]) == [b] && MergeBackends([a, b], [a, b]) == [b, b]
  {
    var a, b := Backend("http://10.0.0.1:80", "c1", "", ""), Backend("http://10.0.0.1:81", "c1", "", "");
    assert Hits(a, a) && Hits(a, b) && Hits(b, b) && Hits(b, a);
    MergeTwo([], a, b);
    MergeTwo([a, b], a, b);
    HitUnique([], a, 0);
    HitUnique([a], b, 0);
    HitUnique([a, b], a, 0);
    HitUnique([a, b], b, 0);
    assert [a][0 := b] == [b] && [a, b][0 := a] == [a, b] && [a, b][0 := b] == [b, b];
    assert [] + [a] == [a];
  }

  lemma MergeTwo(out: seq<Backend>, a: Backend, b: Backend)
    ensures MergeBackends(out, [a, b]) == MergeOne(MergeOne(out, a), b)
  {
    MergeSnoc(out, [a, b], 0);
    MergeSnoc(out, [a, b], 1);
    NothingMerged(out, [a, b]);
    assert [a, b][..2] == [a, b];
  }

  /** One announced backend, outright: it takes the first place of its container or its URL, or a new place at the end. */
  lemma MergeOneMeans(out: seq<Backend>, x: Backend)
    ensures (forall k :: 0 <= k < |out| ==> !SamePlace(out[k], x)) ==> MergeBackends(out, [x]) == out + [x]
    ensures forall i :: 0 <= i < |out| && SamePlace(out[i], x) && (forall k :: 0 <= k < i ==> !SamePlace(out[k], x)) ==>
              MergeBackends(out, [x]) == out[i := x]
  {
    assert [x][..0] == [];
    assert MergeBackends(out, [x]) == MergeOne(out, x);
    if forall k :: 0 <= k < |out| ==> !SamePlace(out[k], x) {
      HitUnique(out, x, |out|);
    }
    forall i | 0 <= i < |out| && SamePlace(out[i], x) && (forall k :: 0 <= k < i ==> !SamePlace(out[k], x))
      ensures MergeBackends(out, [x]) == out[i := x]
    {
      HitUnique(out, x, i);
    }
  }

  /** The same named container, or the same URL. */
  predicate SamePlace(o: Backend, x: Backend) {
    (o.containerID == x.containerID && x.containerID != "") || (o.url == x.url && x.url != "")
  }

  /** Nothing is lost but to another backend of its place, and nothing comes from elsewhere. */
  lemma {:induction false} MergeKeepsOrDisplaces(existing: seq<Backend>, incoming: seq<Backend>)
    ensures var m := MergeBackends(existing, incoming);
            && (forall x :: x in existing || x in incoming ==> x in m || exists y :: y in incoming && y != x && SamePlace(x, y))
            && (forall z :: z in m ==> z in existing || z in incoming)
  {
    hide FirstHit;
    if incoming != [] {
      var k := |incoming| - 1;
      var before, y := incoming[..k], incoming[k];
      MergeKeepsOrDisplaces(existing, before);
      var out, m := MergeBackends(existing, before), MergeBackends(existing, incoming);
      MergeOneKeeps(out, y);
      assert forall z :: z in incoming <==> z in before || z == y;
    }
  }

  lemma MergeOneKeeps(out: seq<Backend>, y: Backend)
    ensures var m := MergeOne(out, y);
            && y in m && (forall x :: x in out ==> x in m || (y != x && SamePlace(x, y))) && (forall z :: z in m ==> z in out || z == y)
  {
    var i, m := FirstHit(out, y), MergeOne(out, y);
    if i < |out| {
      assert m[i] == y;
      forall x | x in out ensures x in m || (y != x && SamePlace(x, y)) {
        var j :| 0 <= j < |out| && out[j] == x;
        assert j != i ==> m[j] == x;
      }
    } else {
      assert m[|out|] == y;
    }
  }

  /** All of one container, as `applyAgentRoute` builds the backends of an announcement. */
  ghost predicate OfContainer(bs: seq<Backend>, c: string) {
    c != "" && forall i :: 0 <= i < |bs| ==> bs[i].containerID == c
  }

  /** Announced over a pool that starts with that container, every backend goes to the first place. */
  lemma {:induction false} FirstPlaceTaken(out: seq<Backend>, bs: seq<Backend>, c: string)
    requires OfContainer(bs, c) && bs != [] && out != [] && out[0].containerID == c
    ensures MergeBackends(out, bs) == [bs[|bs| - 1]] + out[1..]
    decreases |bs|
  {
    var last := bs[|bs| - 1];
    if |bs| == 1 {
      assert bs[..0] == [];
      HitUnique(out, last, 0);
    } else {
      var before := bs[..|bs| - 1];
      FirstPlaceTaken(out, before, c);
      HitUnique(MergeBackends(out, before), last, 0);
    }
  }

  /**
    Exactly when announcing a container again over the route its first announcement made leaves the route's backends
    alone: its first and last URL are the same. With distinct URLs, that is a single URL.
   */
  lemma ReannouncedUnchangedIff(bs: seq<Backend>, c: string)
    requires OfContainer(bs, c) && bs != []
    ensures MergeBackends(bs, bs) == bs <==> bs[0] == bs[|bs| - 1]
    ensures (forall x :: x in bs ==> x in MergeBackends(bs, bs)) <==> bs[0] == bs[|bs| - 1] || bs[0] in bs[1..]
  {
    hide MergeBackends;
    FirstPlaceTaken(bs, bs, c);
    var m := MergeBackends(bs, bs);
    assert bs == [bs[0]] + bs[1..];
    assert m[0] == bs[|bs| - 1];
    assert forall x :: x in m <==> x == bs[|bs| - 1] || x in bs[1..];
  }

  // ----- names

  predicate IsSpace(c: char) {
    c in [' ', '\t', '\n', '\r', '\U{000B}', '\U{000C}']
  }

  function TrimSpace(s: string): string
    decreases |s|
  {
    if s == "" then ""
    else if IsSpace(s[0]) then TrimSpace(s[1..])
    else if IsSpace(s[|s| - 1]) then TrimSpace(s[..|s| - 1])
    else s
  }

  predicate EqualFold(a: string, b: string) {
    Lower(a) == Lower(b)
  }

  function AppendUnique(list: seq<string>, v: string): seq<string> {
    var w := TrimSpace(v);
    if w == "" || exists i :: 0 <= i < |list| && EqualFold(list[i], w) then list else list + [w]
  }

  /** A name is reached by a route with this host and these aliases. */
  ghost predicate Covered(host: string, aliases: seq<string>, name: string) {
    || name == "" || TrimSpace(name) == "" || EqualFold(name, host)
    || exists i :: 0 <= i < |aliases| && EqualFold(aliases[i], TrimSpace(name))
  }

  /** `if name != "" && !EqualFold(name, host)`, append it. */
  function AddName(host: string, aliases: seq<string>, name: string): seq<string> {
    if name != "" && !EqualFold(name, host) then AppendUnique(aliases, name) else aliases
  }

  function AddNames(host: string, aliases: seq<string>, names: seq<string>): seq<string> {
    if names == [] then aliases else AddName(host, AddNames(host, aliases, names[..|names| - 1]), names[|names| - 1])
  }

  lemma AddNameCovers(host: string, aliases: seq<string>, name: string)
    ensures aliases <= AddName(host, aliases, name)
    ensures Covered(host, AddName(host, aliases, name), name)
  {
    hide TrimSpace, EqualFold;
    var r, w := AddName(host, aliases, name), TrimSpace(name);
    if name != "" && !EqualFold(name, host) && w != "" {
      if !(exists i :: 0 <= i < |aliases| && EqualFold(aliases[i], w)) {
        FoldReflexive(w);
        assert r[|aliases|] == w;
      }
    }
  }

  lemma FoldReflexive(w: string)
    ensures EqualFold(w, w)
  {
  }

  lemma CoveredGrows(host: string, aliases: seq<string>, more: seq<string>, name: string)
    requires aliases <= more && Covered(host, aliases, name)
    ensures Covered(host, more, name)
  {
    hide TrimSpace, EqualFold;
    if exists i :: 0 <= i < |aliases| && EqualFold(aliases[i], TrimSpace(name)) {
      var i :| 0 <= i < |aliases| && EqualFold(aliases[i], TrimSpace(name));
      assert more[i] == aliases[i];
    }
  }

  lemma {:induction false} AddNamesCover(host: string, aliases: seq<string>, names: seq<string>)
    ensures aliases <= AddNames(host, aliases, names)
    ensures forall n :: n in names ==> Covered(host, AddNames(host, aliases, names), n)
  {
    hide Covered, AddName;
    if names != [] {
      var k := |names| - 1;
      AddNamesCover(host, aliases, names[..k]);
      var before, r := AddNames(host, aliases, names[..k]), AddNames(host, aliases, names);
      AddNameCovers(host, before, names[k]);
      forall n | n in names ensures Covered(host, r, n) {
        if n != names[k] {
          assert n in names[..k];
          CoveredGrows(host, before, r, n);
        }
      }
    }
  }

  /** No two names that differ at most in case. */
  predicate NoneTwice(aliases: seq<string>) {
    forall i, j :: 0 <= i < j < |aliases| ==> !EqualFold(aliases[i], aliases[j])
  }

  /** Only names that were asked for are added, without the spaces around them, and none is added twice. */
  lemma {:induction false} AddNamesOnly(host: string, aliases: seq<string>, names: seq<string>)
    ensures var r := AddNames(host, aliases, names);
            && (forall a :: a in r ==> a in aliases || exists n :: n in names && a == TrimSpace(n))
            && (NoneTwice(aliases) ==> NoneTwice(r))
  {
    hide TrimSpace, EqualFold;
    if names != [] {
      var k := |names| - 1;
      AddNamesOnly(host, aliases, names[..k]);
      var before, r := AddNames(host, aliases, names[..k]), AddNames(host, aliases, names);
      forall a | a in r ensures a in aliases || exists n :: n in names && a == TrimSpace(n) {
        if a in before && a !in aliases {
          var n :| n in names[..k] && a == TrimSpace(n);
          assert n in names;
        } else if a !in before {
          assert a == TrimSpace(names[k]) && names[k] in names;
        }
      }
    }
  }

  /** Trimming leaves nothing exactly of a string of spaces, and otherwise neither begins nor ends with one. */
  lemma {:induction false} TrimMeans(s: string)
    ensures TrimSpace(s) == "" <==> forall i :: 0 <= i < |s| ==> IsSpace(s[i])
    ensures TrimSpace(s) != "" ==> !IsSpace(TrimSpace(s)[0]) && !IsSpace(TrimSpace(s)[|TrimSpace(s)| - 1])
    decreases |s|
  {
    hide IsSpace;
    if s != "" {
      if IsSpace(s[0]) {
        TrimMeans(s[1..]);
        assert forall i :: 0 < i < |s| ==> s[1..][i - 1] == s[i];
      } else if IsSpace(s[|s| - 1]) {
        TrimMeans(s[..|s| - 1]);
        assert s[..|s| - 1][0] == s[0];
      }
    }
  }

  // ----- folding

  predicate HoldsContainer(rt: Route, containerID: string) {
    || (exists i :: 0 <= i < |rt.backends| && IdMatch(rt.backends[i].containerID, containerID))
    || (rt.canary.Some? && IdMatch(rt.canary.value.containerID, containerID))
    || (rt.shadow.Some? && IdMatch(rt.shadow.value.containerID, containerID))
  }

  predicate IsHolder(t: Table, id: string, containerID: string) {
    id in t && HasPrefix(id, "docker-host:") && HoldsContainer(t[id], containerID)
  }

  /** The routes looked for: docker-host routes with the container in their pool, as their canary or as their shadow. */
  lemma HolderMeans(t: Table, id: string, containerID: string)
    ensures IsHolder(t, id, containerID) <==>
            && id in t && "docker-host:" <= id
            && (|| (exists b :: b in t[id].backends && IdMatch(b.containerID, containerID))
                || (exists x :: (t[id].canary == Some(x) || t[id].shadow == Some(x)) && IdMatch(x.containerID, containerID)))
  {
    hide IdMatch;
    if IsHolder(t, id, containerID) {
      var rt := t[id];
      if exists i :: 0 <= i < |rt.backends| && IdMatch(rt.backends[i].containerID, containerID) {
        var i :| 0 <= i < |rt.backends| && IdMatch(rt.backends[i].containerID, containerID);
        assert rt.backends[i] in rt.backends;
      }
    }
  }

  /** What one route brings to the primary. */
  function FoldInto(p: Route, rt: Route): Route {
    p.(backends := MergeBackends(p.backends, rt.backends), aliases := AddNames(p.host, p.aliases, [rt.host] + rt.aliases))
  }

  /** The primary after the routes of a list, itself excepted, have been folded into it one after the other. */
  function FoldSeq(t: Table, ids: seq<string>, p: string): Route
    requires p in t && forall id :: id in ids ==> id in t
  {
    if ids == [] then t[p]
    else
      var k := |ids| - 1;
      var before := FoldSeq(t, ids[..k], p);
      if ids[k] == p then before else FoldInto(before, t[ids[k]])
  }

  /** The names a route answers to. */
  function NamesOf(rt: Route): seq<string> {
    [rt.host] + rt.aliases
  }

  /** The survivor answers to every name of the route. */
  ghost predicate CoversRoute(p: Route, rt: Route) {
    forall n :: n in NamesOf(rt) ==> Covered(p.host, p.aliases, n)
  }

  lemma FoldCovers(p: Route, rt: Route)
    ensures var q := FoldInto(p, rt);
            && q.id == p.id && q.host == p.host && p.aliases <= q.aliases && CoversRoute(q, rt)
            && q.agentName == p.agentName && q.canary == p.canary && q.shadow == p.shadow
            && (forall x :: x in p.backends || x in rt.backends ==>
                  x in q.backends || exists y :: y in rt.backends && y != x && SamePlace(x, y))
            && (forall z :: z in q.backends ==> z in p.backends || z in rt.backends)
  {
    hide Covered, AddNames, MergeBackends;
    AddNamesCover(p.host, p.aliases, NamesOf(rt));
    MergeKeepsOrDisplaces(p.backends, rt.backends);
  }

  /** Another backend of the place of `x` in the pool of one of the routes. */
  ghost predicate Displaced(t: Table, ids: set<string>, x: Backend) {
    exists id, y :: id in ids && id in t && y in t[id].backends && y != x && SamePlace(x, y)
  }

  /** The pool of a route that took over those of others: nothing lost but to the same place, nothing from elsewhere. */
  ghost predicate PoolOf(t: Table, ids: set<string>, pool: seq<Backend>) {
    && (forall id, x :: id in ids && id in t && x in t[id].backends ==> x in pool || Displaced(t, ids, x))
    && (forall z :: z in pool ==> exists id :: id in ids && id in t && z in t[id].backends)
  }

  lemma {:induction false} FoldSeqPool(t: Table, ids: seq<string>, p: string)
    requires p in t && forall id :: id in ids ==> id in t
    ensures PoolOf(t, {p} + (set id | id in ids), FoldSeq(t, ids, p).backends)
  {
    hide FoldInto, SamePlace;
    if ids == [] {
      assert FoldSeq(t, ids, p) == t[p];
    } else {
      var k := |ids| - 1;
      FoldSeqPool(t, ids[..k], p);
      var some, all := {p} + (set id | id in ids[..k]), {p} + (set id | id in ids);
      assert all == some + {ids[k]} by {
        assert forall id :: id in ids <==> id in ids[..k] || id == ids[k];
      }
      if ids[k] != p {
        PoolStep(t, some, ids[k], FoldSeq(t, ids[..k], p));
      } else {
        assert all == some;
      }
    }
  }

  /** The aliases of the survivor come from the routes folded into it, and none comes twice. */
  ghost predicate AliasesOf(t: Table, ids: set<string>, p: Route, aliases: seq<string>) {
    && (forall a :: a in aliases ==> a in p.aliases || exists id, n :: id in ids && id in t && n in NamesOf(t[id]) && a == TrimSpace(n))
    && (NoneTwice(p.aliases) ==> NoneTwice(aliases))
  }

  lemma {:induction false} FoldSeqAliases(t: Table, ids: seq<string>, p: string)
    requires p in t && forall id :: id in ids ==> id in t
    ensures AliasesOf(t, {p} + (set id | id in ids), t[p], FoldSeq(t, ids, p).aliases)
  {
    hide AddNames, TrimSpace, NoneTwice;
    if ids != [] {
      var k := |ids| - 1;
      FoldSeqAliases(t, ids[..k], p);
      var some, all := {p} + (set id | id in ids[..k]), {p} + (set id | id in ids);
      assert forall id :: id in ids[..k] ==> id in ids;
      assert some <= all && ids[k] in all;
      var before, after := FoldSeq(t, ids[..k], p), FoldSeq(t, ids, p);
      if ids[k] != p {
        var rt := t[ids[k]];
        assert NamesOf(rt) == [rt.host] + rt.aliases;
        AddNamesOnly(before.host, before.aliases, NamesOf(rt));
      }
      forall a | a in after.aliases && a !in t[p].aliases
        ensures exists id, n :: id in all && id in t && n in NamesOf(t[id]) && a == TrimSpace(n)
      {
        if a in before.aliases {
          var id, n :| id in some && id in t && n in NamesOf(t[id]) && a == TrimSpace(n);
          assert id in all;
        }
      }
    }
  }

  lemma PoolStep(t: Table, some: set<string>, id: string, before: Route)
    requires id in t && PoolOf(t, some, before.backends)
    ensures PoolOf(t, some + {id}, FoldInto(before, t[id]).backends)
  {
    hide FoldInto, SamePlace;
    FoldCovers(before, t[id]);
    var all, pool := some + {id}, FoldInto(before, t[id]).backends;
    forall j, x | j in all && j in t && x in t[j].backends ensures x in pool || Displaced(t, all, x) {
      if x in before.backends || j == id {
        if x !in pool {
          var y :| y in t[id].backends && y != x && SamePlace(x, y);
          assert id in all && y in t[id].backends;
        }
      } else {
        assert Displaced(t, some, x);
        var i, y :| i in some && i in t && y in t[i].backends && y != x && SamePlace(x, y);
        assert i in all;
      }
    }
    forall z | z in pool ensures exists j :: j in all && j in t && z in t[j].backends {
      if z in t[id].backends {
        assert id in all;
      } else {
        var j :| j in some && j in t && z in t[j].backends;
        assert j in all;
      }
    }
  }

  lemma CoverStays(p: Route, q: Route, rt: Route)
    requires CoversRoute(p, rt) && q.host == p.host && p.aliases <= q.aliases
    ensures CoversRoute(q, rt)
  {
    hide Covered;
    forall n | n in NamesOf(rt) ensures Covered(q.host, q.aliases, n) {
      CoveredGrows(p.host, p.aliases, q.aliases, n);
    }
  }

  class FoldingTable {
    var routes: Table

    constructor (t: Table)
      ensures routes == t
    {
      routes := t;
    }

    /** The first scan: the routes that hold the container, in the order of the snapshot. */
    method Holders(containerID: string, order: seq<string>) returns (holders: seq<string>)
      ensures forall id :: id in holders <==> id in order && IsHolder(routes, id, containerID)
      ensures (forall i, j :: 0 <= i < j < |order| ==> order[i] != order[j]) ==>
                forall i, j :: 0 <= i < j < |holders| ==> holders[i] != holders[j]
    {
      hide HoldsContainer, HasPrefix;
      holders := [];
      for k := 0 to |order|
        invariant forall id :: id in holders <==> id in order[..k] && IsHolder(routes, id, containerID)
        invariant (forall i, j :: 0 <= i < j < |order| ==> order[i] != order[j]) ==>
                    forall i, j :: 0 <= i < j < |holders| ==> holders[i] != holders[j]
      {
        assert order[..k + 1] == order[..k] + [order[k]];
        if IsHolder(routes, order[k], containerID) {
          holders := holders + [order[k]];
        }
      }
      assert order[..|order|] == order;
    }

    /**
      `foldDockerRoutesForContainer`: `order` is the snapshot of the table. Afterwards at most one docker-host route holds
      the container; the survivor answers to every host and alias of the routes folded into it; nothing else changes.
     */
    method FoldDockerRoutes(containerID: string, primaryHost: string, order: seq<string>) returns (primary: Option<string>)
      requires ValidTable(routes) && (forall id :: id in order <==> id in routes)
      requires forall i, j :: 0 <= i < j < |order| ==> order[i] != order[j]
      modifies this
      ensures primary.None? <==> containerID == "" || forall id :: id in old(routes) ==> !IsHolder(old(routes), id, containerID)
      ensures primary.None? ==> routes == old(routes)
      ensures primary.Some? ==> Folded(old(routes), routes, containerID, primary.value)
      ensures primary.Some? ==> PoolOf(old(routes), HolderSet(old(routes), containerID), routes[primary.value].backends)
      ensures primary.Some? ==> AliasesOf(old(routes), HolderSet(old(routes), containerID), old(routes)[primary.value],
                                          routes[primary.value].aliases)
      ensures primary.Some? && !EqualFold(old(routes)[primary.value].host, primaryHost) ==>
                forall id :: IsHolder(old(routes), id, containerID) ==> !EqualFold(old(routes)[id].host, primaryHost)
    {
      hide HoldsContainer, HasPrefix, EqualFold, FoldInto, PoolOf, AliasesOf;
      if containerID == "" {
        return None;
      }
      var holders := Holders(containerID, order);
      if holders == [] {
        return None;
      }
      assert forall id :: IsHolder(routes, id, containerID) ==> id in order;
      var p := ChoosePrimary(holders, primaryHost);
      assert IsHolder(routes, p, containerID);
      FoldAll(containerID, holders, p);
      return Some(p);
    }

    method ChoosePrimary(holders: seq<string>, primaryHost: string) returns (p: string)
      requires holders != [] && forall id :: id in holders ==> id in routes
      ensures p in holders
      ensures !EqualFold(routes[p].host, primaryHost) ==>
                forall id :: id in holders ==> !EqualFold(routes[id].host, primaryHost)
    {
      hide EqualFold;
      p := holders[0];
      for k := 0 to |holders|
        invariant p == holders[0]
        invariant forall i :: 0 <= i < k ==> !EqualFold(routes[holders[i]].host, primaryHost)
      {
        if EqualFold(routes[holders[k]].host, primaryHost) {
          return holders[k];
        }
      }
    }

    /** The merging loop. */
    method FoldAll(containerID: string, holders: seq<string>, p: string)
      requires ValidTable(routes) && p in holders
      requires forall id :: id in holders <==> IsHolder(routes, id, containerID)
      requires forall i, j :: 0 <= i < j < |holders| ==> holders[i] != holders[j]
      modifies this
      ensures Folded(old(routes), routes, containerID, p)
      ensures PoolOf(old(routes), HolderSet(old(routes), containerID), routes[p].backends)
      ensures AliasesOf(old(routes), HolderSet(old(routes), containerID), old(routes)[p], routes[p].aliases)
    {
      hide HoldsContainer, HasPrefix, FoldInto, CoversRoute, PoolOf, AliasesOf;
      ghost var t := routes;
      StartPartly(t, containerID, holders, p);
      assert forall id :: id in holders ==> id in t;
      for k := 0 to |holders|
        invariant Partly(t, routes, holders[..k], p)
        invariant forall id :: id in holders[..k] ==> id in t
        invariant routes[p] == FoldSeq(t, holders[..k], p)
      {
        var id := holders[k];
        assert holders[..k + 1] == holders[..k] + [id] && holders[..k + 1][..k] == holders[..k];
        assert id in holders && id in t && t[id].id == id && t[p].id == p;
        assert id !in holders[..k];
        if id != p {
          ghost var before := routes;
          var rt := routes[id];
          routes := routes[p := FoldInto(routes[p], rt)] - {id};
          PartlyStep(t, before, routes, holders[..k], p, id);
        } else {
          PartlySkip(t, routes, holders[..k], p);
        }
      }
      assert holders[..|holders|] == holders;
      PartlyEnd(t, routes, containerID, holders, p);
      FoldSeqPool(t, holders, p);
      FoldSeqAliases(t, holders, p);
      assert {p} + (set id | id in holders) == HolderSet(t, containerID);
    }
  }

  /** The routes that hold the container. */
  ghost function HolderSet(t: Table, containerID: string): set<string> {
    set id | id in t && IsHolder(t, id, containerID)
  }

  /** The same route, with more aliases and another pool. */
  predicate SameButPool(p: Route, q: Route) {
    && q.id == p.id && q.host == p.host && q.agentName == p.agentName && q.canary == p.canary && q.shadow == p.shadow
    && p.aliases <= q.aliases
  }

  /** The outcome of a fold onto `p`. */
  ghost predicate Folded(t: Table, u: Table, containerID: string, p: string) {
    && IsHolder(t, p, containerID) && p in u
    && (forall id :: IsHolder(u, id, containerID) ==> id == p)
    && (forall id :: id in u && id != p ==> id in t && u[id] == t[id])
    && (forall id :: id in t && !IsHolder(t, id, containerID) ==> id in u)
    && SameButPool(t[p], u[p])
    && (forall id :: IsHolder(t, id, containerID) && id != p ==> id !in u && CoversRoute(u[p], t[id]))
  }

  /** The routes of `done` other than `p` have been folded into `p`. */
  ghost predicate Partly(t: Table, u: Table, done: seq<string>, p: string) {
    && p in t && p in u
    && (forall id :: id in u && id != p ==> id in t && u[id] == t[id])
    && (forall id :: id in t && id !in done ==> id in u)
    && (forall id :: id in t && id in done && id != p ==> id !in u && CoversRoute(u[p], t[id]))
    && SameButPool(t[p], u[p])
  }

  lemma StartPartly(t: Table, containerID: string, holders: seq<string>, p: string)
    requires p in holders && forall id :: id in holders <==> IsHolder(t, id, containerID)
    ensures Partly(t, t, holders[..0], p)
  {
  }

  lemma PartlyStep(t: Table, u: Table, v: Table, done: seq<string>, p: string, id: string)
    requires Partly(t, u, done, p) && id != p && id in t && id !in done
    requires id in u && v == u[p := FoldInto(u[p], u[id])] - {id}
    ensures Partly(t, v, done + [id], p)
  {
    hide CoversRoute, FoldInto;
    FoldCovers(u[p], u[id]);
    forall x | x in t && x in done + [id] && x != p ensures x !in v && CoversRoute(v[p], t[x]) {
      if x != id {
        assert x in done;
        CoverStays(u[p], v[p], t[x]);
      }
    }
  }

  lemma PartlySkip(t: Table, u: Table, done: seq<string>, p: string)
    requires Partly(t, u, done, p)
    ensures Partly(t, u, done + [p], p)
  {
    hide CoversRoute;
    forall x | x in t && x in done + [p] && x != p ensures x !in u && CoversRoute(u[p], t[x]) {
      assert x in done;
    }
  }

  lemma PartlyEnd(t: Table, u: Table, containerID: string, holders: seq<string>, p: string)
    requires Partly(t, u, holders, p) && p in holders
    requires forall id :: id in holders <==> IsHolder(t, id, containerID)
    ensures Folded(t, u, containerID, p)
  {
    hide CoversRoute, HoldsContainer, HasPrefix;
    forall id | IsHolder(u, id, containerID) && id != p ensures IsHolder(t, id, containerID) {
      assert u[id] == t[id];
    }
  }
}
