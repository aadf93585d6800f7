/**
  Who owns a backend of a discovery pool: the rules of internal/edge/agentstate.go (`poolSourceOf`, `isDockerBackendID`,
  `portainerEndpointOf`) and the comparison of container identifiers of internal/edge/agenthandlers.go.
 */
module PoolSources {
  import opened Optional

  predicate HasPrefix(s: string, p: string) {
    p <= s
  }

  predicate HasSuffix(s: string, p: string) {
    |p| <= |s| && s[|s| - |p|..] == p
  }

  // ----- sources

  datatype PoolSource = Docker | K8s | Directory(name: string)

  predicate DirectoryChar(c: char) {
    'a' <= c <= 'z' || '0' <= c <= '9'
  }

  /** `^[a-z0-9][a-z0-9_-]{0,31}$` */
  predicate DirectoryName(s: string) {
    && 1 <= |s| <= 32 && DirectoryChar(s[0])
    && forall i :: 0 <= i < |s| ==> DirectoryChar(s[i]) || s[i] in "_-"
  }

  /** The rule of a source that keeps its backends in pools, if it does. */
  function PoolSourceOf(source: string): Option<PoolSource> {
    if source == "docker" then Some(Docker)
    else if source == "k8s" then Some(K8s)
    else if source in ["portainer", "podman", ""] || !DirectoryName(source) then None
    else Some(Directory(source))
  }

  /** The container identifier of a backend comes from this source. */
  predicate Owns(ps: PoolSource, id: string) {
    match ps
    case Docker => id != "" && '@' !in id && !HasPrefix(id, "k8s:")
    case K8s => HasPrefix(id, "k8s:")
    case Directory(name) => HasSuffix(id, "@" + name)
  }

  /** The text after the last `@` identifies the directory. */
  lemma DirectoryNameMeans(s: string)
    ensures DirectoryName(s) <==>
            && 1 <= |s| <= 32
            && forall i :: 0 <= i < |s| ==>
                 || 'a' <= s[i] <= 'z' || '0' <= s[i] <= '9' || (i > 0 && (s[i] == '_' || s[i] == '-'))
  {
    assert forall c :: c in "_-" <==> c == '_' || c == '-';
  }

  /** The sources with a pool: the two reserved names, and any directory name that is neither reserved nor Portainer's. */
  lemma PoolSourceIff(source: string)
    ensures PoolSourceOf(source).Some? <==>
            || source == "docker" || source == "k8s"
            || (source != "portainer" && source != "podman" && DirectoryName(source))
  {
    hide DirectoryName;
    EmptyIsNoName();
  }

  lemma EmptyIsNoName()
    ensures !DirectoryName("")
  {
  }

  /** The identifiers each source owns. */
  lemma OwnsMeans(source: string, id: string)
    requires PoolSourceOf(source).Some?
    ensures Owns(PoolSourceOf(source).value, id) <==>
            if source == "docker" then id != "" && '@' !in id && !("k8s:" <= id)
            else if source == "k8s" then "k8s:" <= id
            else |source| < |id| && id[|id| - |source| - 1..] == "@" + source
  {
    hide DirectoryName;
  }

  lemma DirectorySuffixUnique(id: string, a: string, b: string)
    requires '@' !in a && '@' !in b && HasSuffix(id, "@" + a) && HasSuffix(id, "@" + b)
    ensures a == b
  {
    if |a| < |b| {
      SuffixAt(id, a, b);
    } else if |b| < |a| {
      SuffixAt(id, b, a);
    } else {
      assert a == ("@" + a)[1..] && b == ("@" + b)[1..];
    }
  }

  lemma SuffixAt(id: string, a: string, b: string)
    requires |a| < |b| && HasSuffix(id, "@" + a) && HasSuffix(id, "@" + b)
    ensures '@' in b
  {
    var i := |id| - |a| - 1;
    assert id[i] == ("@" + a)[0] == '@';
    var k := i - (|id| - |b| - 1);
    assert ("@" + b)[k] == '@';
    assert b[k - 1] == '@';
  }

  lemma DirectoryNameHasNoAt(s: string)
    requires DirectoryName(s)
    ensures '@' !in s
  {
  }

  lemma SuffixHasAt(id: string, name: string)
    requires HasSuffix(id, "@" + name)
    ensures '@' in id
  {
    assert id[|id| - |name| - 1] == ("@" + name)[0];
  }

  /**
    Two different pool sources own the same identifier in one case only: a Kubernetes identifier that ends with the mark
    of a directory. Identifiers of Kubernetes without `@` therefore have one owner.
   */
  lemma OwnersOverlapIff(s: string, t: string, id: string)
    requires s != t && PoolSourceOf(s).Some? && PoolSourceOf(t).Some?
    ensures Owns(PoolSourceOf(s).value, id) && Owns(PoolSourceOf(t).value, id) <==>
            HasPrefix(id, "k8s:") && ((s == "k8s" && t != "docker" && HasSuffix(id, "@" + t)) ||
                                      (t == "k8s" && s != "docker" && HasSuffix(id, "@" + s)))
  {
    var p, q := PoolSourceOf(s).value, PoolSourceOf(t).value;
    if p.Directory? {
      DirectoryNameHasNoAt(s);
    }
    if q.Directory? {
      DirectoryNameHasNoAt(t);
    }
    if p.Directory? && q.Directory? && Owns(p, id) && Owns(q, id) {
      DirectorySuffixUnique(id, s, t);
      assert false;
    }
    if HasSuffix(id, "@" + s) {
      SuffixHasAt(id, s);
    }
    if HasSuffix(id, "@" + t) {
      SuffixHasAt(id, t);
    }
  }

  // ----- comparing identifiers

  /** Kubernetes and directory identifiers share prefixes and are compared whole. */
  predicate WholeCompare(id: string) {
    HasPrefix(id, "k8s:") || '@' in id
  }

  function Short(id: string): string {
    if |id| > 12 then id[..12] else id
  }

  /** `containerIDMatch`: Docker identifiers are compared on twelve characters, and one may be cut shorter. */
  predicate IdMatch(stored: string, incoming: string) {
    && stored != "" && incoming != ""
    && (stored == incoming ||
        (!WholeCompare(stored) && !WholeCompare(incoming) &&
         (HasPrefix(stored, Short(incoming)) || HasPrefix(incoming, stored))))
  }

  /** `sameID` for the sources that compare whole identifiers, `containerIDMatch` for Docker. */
  predicate Same(ps: PoolSource, stored: string, declared: string) {
    if ps.Docker? then IdMatch(stored, declared) else stored != "" && stored == declared
  }

  /** A Kubernetes identifier, or one with the name of a directory. */
  predicate Whole(id: string) {
    (|id| >= 4 && id[0] == 'k' && id[1] == '8' && id[2] == 's' && id[3] == ':') || exists i :: 0 <= i < |id| && id[i] == '@'
  }

  function First12(id: string): string {
    if |id| <= 12 then id else id[..12]
  }

  /** How each source compares identifiers. */
  lemma SameMeans(source: string, stored: string, declared: string)
    requires PoolSourceOf(source).Some?
    ensures Same(PoolSourceOf(source).value, stored, declared) <==>
            if source == "docker" then IdMatch(stored, declared) else stored != "" && stored == declared
  {
    hide DirectoryName, IdMatch;
  }

  /** The comparison seen without a direction: equal, or cut to twelve characters one is the beginning of the other. */
  lemma MatchMeans(a: string, b: string)
    ensures IdMatch(a, b) <==>
            && a != "" && b != ""
            && (a == b || (!Whole(a) && !Whole(b) && (First12(a) <= First12(b) || First12(b) <= First12(a))))
  {
    assert WholeCompare(a) == Whole(a) && WholeCompare(b) == Whole(b) && Short(a) == First12(a) && Short(b) == First12(b);
    if |a| <= 12 && |b| > 12 {
      assert HasPrefix(a, Short(b)) ==> a == b[..12];
      assert HasPrefix(b, a) <==> a <= b[..12];
    } else if |a| > 12 && |b| <= 12 {
      assert HasPrefix(a, b) <==> b <= a[..12];
    } else if |a| > 12 && |b| > 12 {
      assert HasPrefix(a, b[..12]) <==> a[..12] == b[..12];
      assert HasPrefix(b, a) ==> a[..12] == b[..12];
    }
  }

  lemma MatchSymmetric(a: string, b: string)
    ensures IdMatch(a, b) == IdMatch(b, a)
  {
    MatchMeans(a, b);
    MatchMeans(b, a);
  }

  /** Whatever matches `b` matches whatever else matches `b`. */
  ghost predicate Pivot(b: string) {
    forall a, c :: IdMatch(a, b) && IdMatch(b, c) ==> IdMatch(a, c)
  }

  lemma MatchThrough(a: string, b: string, c: string)
    requires IdMatch(a, b) && IdMatch(b, c) && (WholeCompare(b) || |b| >= 12)
    ensures IdMatch(a, c)
  {
    MatchMeans(a, b);
    MatchMeans(b, c);
    MatchMeans(a, c);
    if a != b && b != c {
      assert Short(a) <= Short(b) && Short(c) <= Short(b);
    }
  }

  /** The match is transitive through an identifier exactly when it is compared whole or has twelve characters. */
  lemma PivotIff(b: string)
    requires b != ""
    ensures Pivot(b) <==> WholeCompare(b) || |b| >= 12
  {
    if WholeCompare(b) || |b| >= 12 {
      forall a, c | IdMatch(a, b) && IdMatch(b, c) ensures IdMatch(a, c) {
        MatchThrough(a, b, c);
      }
    } else {
      var a, c := b + "0", b + "1";
      assert b <= a && b <= c && a[|b|] == '0' && c[|b|] == '1';
      ExtendedNotWhole(b, '0');
      ExtendedNotWhole(b, '1');
      MatchMeans(a, b);
      MatchMeans(b, c);
      MatchMeans(a, c);
      assert IdMatch(a, b) && IdMatch(b, c) && !IdMatch(a, c);
    }
  }

  lemma ExtendedNotWhole(b: string, d: char)
    requires !WholeCompare(b) && d != '@' && d != ':'
    ensures !WholeCompare(b + [d])
  {
    var a := b + [d];
    assert a[|b|] == d;
  }

  // ----- Portainer endpoints

  /** `strings.Index(s, ":")`, the length if there is none. */
  function IndexColon(s: string): (i: nat)
    ensures i <= |s| && ':' !in s[..i] && (i < |s| ==> s[i] == ':')
  {
    if s == "" || s[0] == ':' then 0
    else
      var i := 1 + IndexColon(s[1..]);
      assert s[..i] == [s[0]] + s[1..][..i - 1];
      i
  }

  /** The second of three or more parts of a route identifier cut at `:`. */
  function PortainerEndpointOf(id: string): string {
    var i := IndexColon(id);
    if i == |id| then ""
    else
      var rest := id[i + 1..];
      var j := IndexColon(rest);
      if j == |rest| then "" else rest[..j]
  }

  /** An identifier accepted for a scope belongs to it exactly when the scope has no `:` of its own. */
  lemma EndpointOfScope(scope: string, tail: string)
    ensures PortainerEndpointOf("portainer:" + scope + ":" + tail) == scope <==> ':' !in scope
  {
    var id := "portainer:" + scope + ":" + tail;
    ColonAt(id, 9);
    var rest := id[10..];
    assert rest == scope + ":" + tail;
    if ':' !in scope {
      assert rest[..|scope|] == scope;
      ColonAt(rest, |scope|);
    } else {
      var j := IndexColon(rest);
      assert ':' !in rest[..j];
    }
  }

  /** What is read between the first two colons, and nothing when there are not two. */
  lemma EndpointMeans(a: string, b: string, tail: string)
    requires ':' !in a && ':' !in b
    ensures PortainerEndpointOf(a + ":" + b + ":" + tail) == b
    ensures PortainerEndpointOf(a + ":" + b) == "" && PortainerEndpointOf(a) == ""
  {
    var id, short := a + ":" + b + ":" + tail, a + ":" + b;
    ColonAt(id, |a|);
    ColonAt(short, |a|);
    assert id[|a| + 1..] == b + ":" + tail && short[|a| + 1..] == b;
    ColonAt(id[|a| + 1..], |b|);
    NoColon(a);
    NoColon(b);
  }

  lemma NoColon(s: string)
    requires ':' !in s
    ensures IndexColon(s) == |s|
  {
    if IndexColon(s) < |s| {
      assert s[IndexColon(s)] == ':';
    }
  }

  lemma {:induction false} ColonAt(s: string, i: nat)
    requires i < |s| && s[i] == ':' && ':' !in s[..i]
    ensures IndexColon(s) == i
  {
    if i > 0 {
      assert s[0] == s[..i][0];
      assert s[1..][..i - 1] == s[..i][1..];
      ColonAt(s[1..], i - 1);
    }
  }
}
