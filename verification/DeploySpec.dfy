/**
  The description of a host (internal/deploy/spec.go) and its validation before anything touches the Docker daemon.

  The judgement of host paths (`allowBind`) and of normalised paths (`path.Clean(p) == p`) are parameters.
 */
module DeploySpec {
  import opened Optional
  import Bytes

  const SPEC_VERSION: int := 1
  const MAX_FILES_SIZE: int := 1_048_576

  datatype Network = Network(name: string, isInternal: bool)
  datatype Port = Port(hostPort: int, containerPort: int, proto: string)
  datatype Mount = Mount(kind: string, source: string, target: string)
  datatype Attach = Attach(name: string, aliases: seq<string>)
  datatype Healthcheck = Healthcheck(test: seq<string>)
  datatype File = File(path: string, mode: int, content: seq<Bytes.Byte>)

  datatype Container = Container(
    name: string, image: string, env: map<string, string>, restart: string, ports: seq<Port>, mounts: seq<Mount>,
    networks: seq<Attach>, health: Option<Healthcheck>, waitHealthy: bool, files: seq<File>, caps: seq<string>)

  datatype HostSpec = HostSpec(version: int, networks: seq<Network>, volumes: seq<string>, containers: seq<Container>)

  /** How host paths are judged. */
  datatype Paths = Paths(allowBind: string -> bool, clean: string -> bool)

  // ----- the regular expressions

  predicate Letter(c: char) { 'a' <= c <= 'z' || 'A' <= c <= 'Z' }

  predicate Digit(c: char) { '0' <= c <= '9' }

  predicate NameOk(s: string) {
    && s != [] && (Letter(s[0]) || Digit(s[0]))
    && forall i :: 0 <= i < |s| ==> Letter(s[i]) || Digit(s[i]) || s[i] in "_.-"
  }

  predicate ImageOk(s: string) {
    && s != [] && (Letter(s[0]) || Digit(s[0]))
    && forall i :: 0 <= i < |s| ==> Letter(s[i]) || Digit(s[i]) || s[i] in "._/:@-"
  }

  predicate EnvKeyOk(s: string) {
    && s != [] && (Letter(s[0]) || s[0] == '_')
    && forall i :: 0 <= i < |s| ==> Letter(s[i]) || Digit(s[i]) || s[i] == '_'
  }

  predicate CapOk(s: string) {
    s != [] && forall i :: 0 <= i < |s| ==> 'A' <= s[i] <= 'Z' || s[i] == '_'
  }

  predicate IsAbs(p: string) {
    p != [] && p[0] == '/'
  }

  // ----- what a valid description is

  predicate PortOk(p: Port) {
    1 <= p.containerPort <= 65535 && 0 <= p.hostPort <= 65535 && p.proto in ["", "tcp", "udp", "sctp"]
  }

  predicate MountOk(m: Mount, volumes: set<string>, paths: Paths) {
    IsAbs(m.target) && ((m.kind == "volume" && m.source in volumes) || (m.kind == "bind" && paths.allowBind(m.source)))
  }

  predicate AttachOk(a: Attach, networks: set<string>) {
    a.name in networks && forall i :: 0 <= i < |a.aliases| ==> NameOk(a.aliases[i])
  }

  predicate FileOk(f: File, paths: Paths) {
    IsAbs(f.path) && paths.clean(f.path) && f.path != "/" && 0 <= f.mode <= 511
  }

  function FilesSize(files: seq<File>): nat {
    if files == [] then 0 else FilesSize(files[..|files| - 1]) + |files[|files| - 1].content|
  }

  predicate ContainerOk(c: Container, networks: set<string>, volumes: set<string>, paths: Paths) {
    && ImageOk(c.image)
    && (forall k :: k in c.env.Keys ==> EnvKeyOk(k))
    && c.restart in ["", "no", "always", "unless-stopped", "on-failure"]
    && (forall i :: 0 <= i < |c.ports| ==> PortOk(c.ports[i]))
    && (forall i :: 0 <= i < |c.mounts| ==> MountOk(c.mounts[i], volumes, paths))
    && (forall i :: 0 <= i < |c.networks| ==> AttachOk(c.networks[i], networks))
    && (c.health.Some? ==> c.health.value.test != [])
    && (c.waitHealthy ==> c.health.Some?)
    && (forall i :: 0 <= i < |c.files| ==> FileOk(c.files[i], paths))
    && FilesSize(c.files) <= MAX_FILES_SIZE
    && (forall i :: 0 <= i < |c.caps| ==> CapOk(c.caps[i]))
  }

  /** No value twice. */
  ghost predicate Distinct(s: seq<string>) {
    forall i, j :: 0 <= i < j < |s| ==> s[i] != s[j]
  }

  function NetworkNames(ns: seq<Network>): (r: seq<string>)
    ensures |r| == |ns| && forall i :: 0 <= i < |ns| ==> r[i] == ns[i].name
  {
    seq(|ns|, i requires 0 <= i < |ns| => ns[i].name)
  }

  function ContainerNames(cs: seq<Container>): (r: seq<string>)
    ensures |r| == |cs| && forall i :: 0 <= i < |cs| ==> r[i] == cs[i].name
  {
    seq(|cs|, i requires 0 <= i < |cs| => cs[i].name)
  }

  function AsSet(s: seq<string>): set<string> {
    set x | x in s
  }

  ghost predicate NamesOk(s: seq<string>) {
    Distinct(s) && forall i :: 0 <= i < |s| ==> NameOk(s[i])
  }

  ghost predicate SpecOk(spec: HostSpec, paths: Paths) {
    && spec.version == SPEC_VERSION && spec.containers != []
    && NamesOk(NetworkNames(spec.networks)) && NamesOk(spec.volumes) && NamesOk(ContainerNames(spec.containers))
    && forall i :: 0 <= i < |spec.containers| ==>
         ContainerOk(spec.containers[i], AsSet(NetworkNames(spec.networks)), AsSet(spec.volumes), paths)
  }

  // ----- the loops of Validate

  /** A loop over names with a `seen` map: it accepts exactly the lists of distinct valid names. */
  method CheckNames(names: seq<string>) returns (ok: bool, seen: set<string>)
    ensures ok <==> NamesOk(names)
    ensures ok ==> seen == AsSet(names)
  {
    hide NameOk;
    seen := {};
    for i := 0 to |names|
      invariant NamesOk(names[..i]) && seen == AsSet(names[..i])
    {
      if !NameOk(names[i]) || names[i] in seen {
        BadName(names, i);
        return false, seen;
      }
      assert names[..i + 1] == names[..i] + [names[i]];
      seen := seen + {names[i]};
    }
    assert names[..|names|] == names;
    ok := true;
  }

  lemma BadName(names: seq<string>, i: nat)
    requires i < |names| && (!NameOk(names[i]) || names[i] in AsSet(names[..i]))
    ensures !NamesOk(names)
  {
    hide NameOk;
    if names[i] in AsSet(names[..i]) {
      var j :| 0 <= j < i && names[..i][j] == names[i];
      assert names[j] == names[i];
    }
  }

  method CheckFiles(files: seq<File>, paths: Paths) returns (ok: bool)
    ensures ok <==> (forall i :: 0 <= i < |files| ==> FileOk(files[i], paths)) && FilesSize(files) <= MAX_FILES_SIZE
  {
    var total := 0;
    for i := 0 to |files|
      invariant forall k :: 0 <= k < i ==> FileOk(files[k], paths)
      invariant total == FilesSize(files[..i])
    {
      if !FileOk(files[i], paths) {
        return false;
      }
      assert files[..i + 1][..i] == files[..i];
      total := total + |files[i].content|;
    }
    assert files[..|files|] == files;
    ok := total <= MAX_FILES_SIZE;
  }

  /** `HostSpec.Validate` accepts exactly the valid descriptions. */
  method Validate(spec: HostSpec, paths: Paths) returns (ok: bool)
    ensures ok <==> SpecOk(spec, paths)
  {
    hide NamesOk, ContainerOk;
    if spec.version != SPEC_VERSION || spec.containers == [] {
      return false;
    }
    var okN, networks := CheckNames(NetworkNames(spec.networks));
    if !okN {
      return false;
    }
    var okV, volumes := CheckNames(spec.volumes);
    if !okV {
      return false;
    }
    var okC, _ := CheckNames(ContainerNames(spec.containers));
    if !okC {
      return false;
    }
    for i := 0 to |spec.containers|
      invariant forall k :: 0 <= k < i ==> ContainerOk(spec.containers[k], networks, volumes, paths)
    {
      var okI := CheckContainer(spec.containers[i], networks, volumes, paths);
      if !okI {
        return false;
      }
    }
    ok := true;
  }

  /** The loop over the environment, in any order of its variables. */
  method CheckEnv(env: map<string, string>) returns (ok: bool)
    ensures ok <==> forall k :: k in env ==> EnvKeyOk(k)
  {
    hide EnvKeyOk;
    var todo := env.Keys;
    while todo != {}
      invariant todo <= env.Keys && forall k :: k in env && k !in todo ==> EnvKeyOk(k)
      decreases todo
    {
      var k :| k in todo;
      if !EnvKeyOk(k) {
        return false;
      }
      todo := todo - {k};
    }
    ok := true;
  }

  method CheckPorts(ports: seq<Port>) returns (ok: bool)
    ensures ok <==> forall i :: 0 <= i < |ports| ==> PortOk(ports[i])
  {
    for i := 0 to |ports|
      invariant forall k :: 0 <= k < i ==> PortOk(ports[k])
    {
      var p := ports[i];
      if p.containerPort < 1 || p.containerPort > 65535 || p.hostPort < 0 || p.hostPort > 65535 {
        assert !PortOk(ports[i]);
        return false;
      }
      if p.proto != "" && p.proto != "tcp" && p.proto != "udp" && p.proto != "sctp" {
        assert !PortOk(ports[i]);
        return false;
      }
    }
    ok := true;
  }

  method CheckMounts(mounts: seq<Mount>, volumes: set<string>, paths: Paths) returns (ok: bool)
    ensures ok <==> forall i :: 0 <= i < |mounts| ==> MountOk(mounts[i], volumes, paths)
  {
    hide IsAbs;
    for i := 0 to |mounts|
      invariant forall k :: 0 <= k < i ==> MountOk(mounts[k], volumes, paths)
    {
      var m := mounts[i];
      var bad := !IsAbs(m.target);
      if m.kind == "volume" {
        bad := bad || m.source !in volumes;
      } else if m.kind == "bind" {
        bad := bad || !paths.allowBind(m.source);
      } else {
        bad := true;
      }
      if bad {
        assert !MountOk(mounts[i], volumes, paths);
        return false;
      }
    }
    ok := true;
  }

  method CheckAliases(aliases: seq<string>) returns (ok: bool)
    ensures ok <==> forall i :: 0 <= i < |aliases| ==> NameOk(aliases[i])
  {
    hide NameOk;
    for i := 0 to |aliases|
      invariant forall k :: 0 <= k < i ==> NameOk(aliases[k])
    {
      if !NameOk(aliases[i]) {
        return false;
      }
    }
    ok := true;
  }

  method CheckAttaches(attaches: seq<Attach>, networks: set<string>) returns (ok: bool)
    ensures ok <==> forall i :: 0 <= i < |attaches| ==> AttachOk(attaches[i], networks)
  {
    hide NameOk;
    for i := 0 to |attaches|
      invariant forall k :: 0 <= k < i ==> AttachOk(attaches[k], networks)
    {
      var aliasesOk := CheckAliases(attaches[i].aliases);
      if attaches[i].name !in networks || !aliasesOk {
        assert !AttachOk(attaches[i], networks);
        return false;
      }
    }
    ok := true;
  }

  method CheckCaps(caps: seq<string>) returns (ok: bool)
    ensures ok <==> forall i :: 0 <= i < |caps| ==> CapOk(caps[i])
  {
    hide CapOk;
    for i := 0 to |caps|
      invariant forall k :: 0 <= k < i ==> CapOk(caps[k])
    {
      if !CapOk(caps[i]) {
        return false;
      }
    }
    ok := true;
  }

  /** `Container.validate`: the checks in order, each with its own loop, stopping at the first that fails. */
  method CheckContainer(c: Container, networks: set<string>, volumes: set<string>, paths: Paths) returns (ok: bool)
    ensures ok <==> ContainerOk(c, networks, volumes, paths)
  {
    hide EnvKeyOk, PortOk, MountOk, AttachOk, FileOk, CapOk, ImageOk, FilesSize;
    if !ImageOk(c.image) {
      return false;
    }
    ok := CheckEnv(c.env);
    if !ok {
      return false;
    }
    if c.restart !in ["", "no", "always", "unless-stopped", "on-failure"] {
      return false;
    }
    ok := CheckPorts(c.ports);
    if !ok {
      return false;
    }
    ok := CheckMounts(c.mounts, volumes, paths);
    if !ok {
      return false;
    }
    ok := CheckAttaches(c.networks, networks);
    if !ok {
      return false;
    }
    if (c.health.Some? && c.health.value.test == []) || (c.waitHealthy && c.health.None?) {
      return false;
    }
    ok := CheckFiles(c.files, paths);
    if !ok {
      return false;
    }
    ok := CheckCaps(c.caps);
  }
}
