/**
  The aliases of an announced route (internal/edge/agenthandlers.go): `applyAgentRoute` cuts each one down to its host and
  drops the blank ones, in the storage of the state that announced it. The state that is then kept and passed on to peers
  carries the rewritten list, of its original length.

  `hostOf` is the host that `ParseHostEntry` reads in an alias.
 */
module AliasRewrite {
  import opened RouteFold

  predicate Blank(s: string) {
    TrimSpace(s) == ""
  }

  function Parsed(list: seq<string>, hostOf: string -> string): (r: seq<string>)
    ensures |r| == |list| && forall i :: 0 <= i < |r| ==> r[i] == hostOf(list[i])
  {
    seq(|list|, i requires 0 <= i < |list| => hostOf(list[i]))
  }

  function NonBlank(list: seq<string>): (r: seq<string>)
    ensures |r| <= |list|
  {
    if list == [] then []
    else NonBlank(list[..|list| - 1]) + (if Blank(list[|list| - 1]) then [] else [list[|list| - 1]])
  }

  /** What `filterEmptyStrings` leaves in the storage of its argument: the kept elements first, then what was there. */
  function Compacted(list: seq<string>): (r: seq<string>)
    ensures |r| == |list|
  {
    NonBlank(list) + list[|NonBlank(list)|..]
  }

  function RewrittenAliases(list: seq<string>, hostOf: string -> string): (r: seq<string>)
    ensures |r| == |list|
  {
    Compacted(Parsed(list, hostOf))
  }

  /** Blank: nothing but spaces, tabs and line ends. */
  lemma BlankMeans(s: string)
    ensures Blank(s) <==> forall i :: 0 <= i < |s| ==> s[i] in {' ', '\t', '\n', '\r', '\U{000B}', '\U{000C}'}
  {
    hide TrimSpace;
    TrimMeans(s);
  }

  // ----- the loops

  lemma NonBlankSnoc(list: seq<string>, i: nat)
    requires i < |list|
    ensures NonBlank(list[..i + 1]) == NonBlank(list[..i]) + (if Blank(list[i]) then [] else [list[i]])
  {
    assert list[..i + 1][..i] == list[..i];
  }

  /** The parsing loop. */
  method ParseAll(a: array<string>, hostOf: string -> string)
    modifies a
    ensures a[..] == Parsed(old(a[..]), hostOf)
  {
    for i := 0 to a.Length
      invariant forall k :: 0 <= k < i ==> a[k] == hostOf(old(a[k]))
      invariant forall k :: i <= k < a.Length ==> a[k] == old(a[k])
    {
      a[i] := hostOf(a[i]);
    }
  }

  /** `filterEmptyStrings`: the result is the first `kept` elements of the same storage. */
  method FilterEmpty(a: array<string>) returns (kept: nat)
    modifies a
    ensures a[..] == Compacted(old(a[..])) && kept == |NonBlank(old(a[..]))|
  {
    hide Blank;
    ghost var was := a[..];
    kept := 0;
    for i := 0 to a.Length
      invariant kept <= i && kept == |NonBlank(was[..i])|
      invariant forall k :: 0 <= k < kept ==> a[k] == NonBlank(was[..i])[k]
      invariant forall k :: kept <= k < a.Length ==> a[k] == was[k]
    {
      NonBlankSnoc(was, i);
      if !Blank(a[i]) {
        a[kept] := a[i];
        kept := kept + 1;
      }
    }
    assert was[..a.Length] == was;
  }

  /** What `applyAgentRoute` does to the aliases of the route it is given. */
  method RewriteInPlace(a: array<string>, hostOf: string -> string) returns (kept: nat)
    modifies a
    ensures a[..] == RewrittenAliases(old(a[..]), hostOf)
    ensures kept <= a.Length && a[..kept] == NonBlank(Parsed(old(a[..]), hostOf))
  {
    ParseAll(a, hostOf);
    kept := FilterEmpty(a);
    assert a[..][..kept] == a[..kept];
  }

  // ----- exactly when a second rewrite changes nothing

  /** No blank before something else. */
  predicate FrontLoaded(list: seq<string>) {
    forall i, j :: 0 <= i < j < |list| && Blank(list[i]) ==> Blank(list[j])
  }

  /** A kept element comes from its own place or a later one. */
  lemma {:induction false} NonBlankSource(list: seq<string>, j: nat) returns (i: nat)
    requires j < |NonBlank(list)|
    ensures j <= i < |list| && list[i] == NonBlank(list)[j] && !Blank(list[i])
  {
    hide Blank;
    var k := |list| - 1;
    if j < |NonBlank(list[..k])| {
      i := NonBlankSource(list[..k], j);
    } else {
      i := k;
    }
  }

  /** If rewriting changes nothing, every element is a host already: shown from the last element to the first. */
  lemma {:induction false} FixedFrom(list: seq<string>, hostOf: string -> string, j: nat)
    requires RewrittenAliases(list, hostOf) == list && j <= |list|
    ensures forall i :: j <= i < |list| ==> hostOf(list[i]) == list[i]
    decreases |list| - j
  {
    hide NonBlank;
    if j < |list| {
      FixedFrom(list, hostOf, j + 1);
      var c := Parsed(list, hostOf);
      var k := |NonBlank(c)|;
      if j < k {
        var i := NonBlankSource(c, j);
        assert list[j] == NonBlank(c)[j] == c[i] == hostOf(list[i]);
      } else {
        assert list[j] == c[k..][j - k] == c[j];
      }
    }
  }

  lemma {:induction false} FrontLoadedKept(list: seq<string>)
    requires FrontLoaded(list)
    ensures NonBlank(list) == list[..|NonBlank(list)|]
    ensures forall i :: |NonBlank(list)| <= i < |list| ==> Blank(list[i])
  {
    hide Blank;
    if list != [] {
      var k := |list| - 1;
      FrontLoadedKept(list[..k]);
    }
  }

  /** The kept elements are as many as the elements that are not blank, so a front part of that length holds them all. */
  lemma {:induction false} NonBlankAppend(x: seq<string>, y: seq<string>)
    ensures NonBlank(x + y) == NonBlank(x) + NonBlank(y)
    decreases |y|
  {
    hide Blank;
    if y == [] {
      assert x + y == x;
    } else {
      var k := |y| - 1;
      assert (x + y)[..|x| + k] == x + y[..k];
      NonBlankAppend(x, y[..k]);
    }
  }

  lemma {:induction false} NoneKept(list: seq<string>)
    requires NonBlank(list) == []
    ensures forall i :: 0 <= i < |list| ==> Blank(list[i])
  {
    hide Blank;
    if list != [] {
      var k := |list| - 1;
      NoneKept(list[..k]);
      forall i | 0 <= i < |list| ensures Blank(list[i]) {
        assert i < k ==> list[..k][i] == list[i];
      }
    }
  }

  lemma {:induction false} AllKept(list: seq<string>)
    requires forall i :: 0 <= i < |list| ==> !Blank(list[i])
    ensures NonBlank(list) == list
  {
    hide Blank;
    if list != [] {
      AllKept(list[..|list| - 1]);
    }
  }

  lemma {:induction false} KeptNotBlank(list: seq<string>)
    ensures forall i :: 0 <= i < |NonBlank(list)| ==> !Blank(NonBlank(list)[i])
  {
    hide Blank;
    if list != [] {
      KeptNotBlank(list[..|list| - 1]);
    }
  }

  lemma CompactFixedIff(list: seq<string>)
    ensures Compacted(list) == list <==> FrontLoaded(list)
  {
    hide NonBlank, Blank;
    var k := |NonBlank(list)|;
    assert list == list[..k] + list[k..];
    if FrontLoaded(list) {
      FrontLoadedKept(list);
    }
    if Compacted(list) == list {
      assert list[..k] == NonBlank(list);
      KeptNotBlank(list);
      AllKept(list[..k]);
      NonBlankAppend(list[..k], list[k..]);
      NoneKept(list[k..]);
      forall i, j | 0 <= i < j < |list| && Blank(list[i]) ensures Blank(list[j]) {
        assert i >= k ==> list[k..][j - k] == list[j];
      }
    }
  }

  /** A list is left alone by the rewrite if and only if it holds hosts only and its blank ones come last. */
  lemma RewriteFixedIff(list: seq<string>, hostOf: string -> string)
    ensures RewrittenAliases(list, hostOf) == list <==>
            (forall i :: 0 <= i < |list| ==> hostOf(list[i]) == list[i]) && FrontLoaded(list)
  {
    hide Compacted, FrontLoaded;
    CompactFixedIff(list);
    if RewrittenAliases(list, hostOf) == list {
      FixedFrom(list, hostOf, 0);
    }
    if forall i :: 0 <= i < |list| ==> hostOf(list[i]) == list[i] {
      assert Parsed(list, hostOf) == list;
    }
  }

  /** The rewrite of this list is left alone by a second one. */
  predicate Settles(list: seq<string>, hostOf: string -> string) {
    var once := RewrittenAliases(list, hostOf);
    RewrittenAliases(once, hostOf) == once
  }

  /**
    Exactly when: a host read in a host is that host, and in what stays behind the kept hosts, from place `k` on, the
    blank ones come last.
   */
  lemma SettlesIff(list: seq<string>, hostOf: string -> string)
    ensures var c := Parsed(list, hostOf);
            var k := |NonBlank(c)|;
            Settles(list, hostOf) <==>
            (forall i :: 0 <= i < |list| && (!Blank(c[i]) || k <= i) ==> hostOf(c[i]) == c[i]) && FrontLoaded(c[k..])
  {
    hide NonBlank, Blank;
    var c := Parsed(list, hostOf);
    var k, once := |NonBlank(c)|, RewrittenAliases(list, hostOf);
    RewriteFixedIff(once, hostOf);
    TailFrontLoaded(c);
    SameElements(c);
    assert forall i :: 0 <= i < |c| ==> once[i] == Compacted(c)[i];
    if forall i :: 0 <= i < |list| && (!Blank(c[i]) || k <= i) ==> hostOf(c[i]) == c[i] {
      forall j | 0 <= j < |once| ensures hostOf(once[j]) == once[j] {
        if j < k {
          var i := NonBlankSource(c, j);
        }
      }
    }
    if forall j :: 0 <= j < |once| ==> hostOf(once[j]) == once[j] {
      forall i | 0 <= i < |list| && (!Blank(c[i]) || k <= i) ensures hostOf(c[i]) == c[i] {
        if k <= i {
          assert once[i] == c[i];
        } else {
          var j :| 0 <= j < k && NonBlank(c)[j] == c[i];
          assert once[j] == c[i];
        }
      }
    }
  }

  lemma {:induction false} SameElements(list: seq<string>)
    ensures forall i :: 0 <= i < |list| && !Blank(list[i]) ==> exists j :: 0 <= j < |NonBlank(list)| && NonBlank(list)[j] == list[i]
  {
    hide Blank;
    if list != [] {
      var k := |list| - 1;
      SameElements(list[..k]);
      forall i | 0 <= i < |list| && !Blank(list[i])
        ensures exists j :: 0 <= j < |NonBlank(list)| && NonBlank(list)[j] == list[i]
      {
        if i < k {
          assert list[..k][i] == list[i];
          var j :| 0 <= j < |NonBlank(list[..k])| && NonBlank(list[..k])[j] == list[i];
          assert NonBlank(list)[j] == list[i];
        } else {
          assert NonBlank(list)[|NonBlank(list)| - 1] == list[i];
        }
      }
    }
  }

  lemma TailFrontLoaded(list: seq<string>)
    ensures FrontLoaded(Compacted(list)) <==> FrontLoaded(list[|NonBlank(list)|..])
  {
    hide NonBlank, Blank;
    var k, r := |NonBlank(list)|, Compacted(list);
    KeptNotBlank(list);
    assert forall i :: 0 <= i < k ==> r[i] == NonBlank(list)[i];
    assert forall i :: k <= i < |r| ==> r[i] == list[k..][i - k];
    assert forall i :: 0 <= i < |list| - k ==> r[k + i] == list[k..][i];
  }

  /** Two blank aliases before a host: the first rewrite and the second differ. */
  lemma BlanksBeforeAHost(hostOf: string -> string)
    requires hostOf("") == "" && hostOf("b") == "b"
    ensures RewrittenAliases(["", "", "b"], hostOf) == ["b", "", "b"]
    ensures RewrittenAliases(["b", "", "b"], hostOf) == ["b", "b", "b"]
  {
    assert Blank("") && !Blank("b");
    var x, y := ["", "", "b"], ["b", "", "b"];
    assert Parsed(x, hostOf) == x && Parsed(y, hostOf) == y;
    assert x[..2] == ["", ""] && x[..2][..1] == [""] && [""][..0] == [];
    assert NonBlank(x[..2]) == [] && NonBlank(x) == ["b"];
    assert y[..2] == ["b", ""] && y[..2][..1] == ["b"] && ["b"][..0] == [];
    assert NonBlank(["b"]) == ["b"] && NonBlank(y[..2]) == ["b"] && NonBlank(y) == ["b", "b"];
  }

  /** What is kept and passed on is not what was sent: the path of an alias is gone. */
  lemma PathNotKept(hostOf: string -> string)
    requires hostOf("b.example.fr/admin") == "b.example.fr"
    ensures RewrittenAliases(["b.example.fr/admin"], hostOf) == ["b.example.fr"]
  {
    var c := Parsed(["b.example.fr/admin"], hostOf);
    assert c == ["b.example.fr"] && c[..0] == [];
    assert !Blank("b.example.fr");
    AllKept(c);
  }
}
