/**
  What `Validate` refuses (internal/deploy/spec.go), one fault for each of its messages: a description is accepted exactly
  when it has none of them.
 */
module DeployFaults {
  import opened Optional
  import opened DeploySpec

  // ----- names

  predicate Alnum(c: char) {
    'a' <= c <= 'z' || 'A' <= c <= 'Z' || '0' <= c <= '9'
  }

  /** Not a letter or a digit followed by letters, digits, underscores, dots and dashes. */
  predicate NotAName(s: string) {
    s == "" || !Alnum(s[0]) || exists i :: 0 < i < |s| && !Alnum(s[i]) && s[i] != '_' && s[i] != '.' && s[i] != '-'
  }

  predicate NotAnImage(s: string) {
    || s == "" || !Alnum(s[0])
    || exists i :: 0 < i < |s| && !Alnum(s[i]) && s[i] !in {'.', '_', '/', ':', '@', '-'}
  }

  predicate NotAVariable(s: string) {
    || s == "" || '0' <= s[0] <= '9'
    || exists i :: 0 <= i < |s| && !Alnum(s[i]) && s[i] != '_'
  }

  predicate NotACapability(s: string) {
    s == "" || exists i :: 0 <= i < |s| && s[i] != '_' && (s[i] < 'A' || 'Z' < s[i])
  }

  lemma NameIff(s: string)
    ensures NameOk(s) <==> !NotAName(s)
  {
    assert forall c :: c in "_.-" <==> c == '_' || c == '.' || c == '-';
  }

  lemma ImageIff(s: string)
    ensures ImageOk(s) <==> !NotAnImage(s)
  {
    assert forall c :: c in "._/:@-" <==> c in {'.', '_', '/', ':', '@', '-'};
  }

  lemma VariableIff(s: string)
    ensures EnvKeyOk(s) <==> !NotAVariable(s)
  {
  }

  lemma CapabilityIff(s: string)
    ensures CapOk(s) <==> !NotACapability(s)
  {
  }

  // ----- one container

  datatype ContainerFault =
    | InvalidImage
    | InvalidVariable(k: string)
    | UnknownRestart
    | InvalidPort(i: nat)
    | UnknownProtocol(i: nat)
    | RelativeTarget(i: nat)
    | UndeclaredVolume(i: nat)
    | ForbiddenPath(i: nat)
    | UnknownMount(i: nat)
    | UndeclaredNetwork(i: nat)
    | InvalidAlias(i: nat, j: nat)
    | EmptyHealthcheck
    | NoHealthcheck
    | InvalidPath(i: nat)
    | InvalidMode(i: nat)
    | FilesTooLarge
    | InvalidCapability(i: nat)

  predicate Faulty(c: Container, networks: set<string>, volumes: set<string>, paths: Paths, f: ContainerFault) {
    match f
    case InvalidImage => NotAnImage(c.image)
    case InvalidVariable(k) => k in c.env && NotAVariable(k)
    case UnknownRestart =>
      && c.restart != "" && c.restart != "no" && c.restart != "always" && c.restart != "unless-stopped"
      && c.restart != "on-failure"
    case InvalidPort(i) =>
      i < |c.ports| &&
      (c.ports[i].containerPort < 1 || c.ports[i].containerPort > 65535 || c.ports[i].hostPort < 0 || c.ports[i].hostPort > 65535)
    case UnknownProtocol(i) =>
      && i < |c.ports| && c.ports[i].proto != "" && c.ports[i].proto != "tcp" && c.ports[i].proto != "udp"
      && c.ports[i].proto != "sctp"
    case RelativeTarget(i) => i < |c.mounts| && !("/" <= c.mounts[i].target)
    case UndeclaredVolume(i) => i < |c.mounts| && c.mounts[i].kind == "volume" && c.mounts[i].source !in volumes
    case ForbiddenPath(i) => i < |c.mounts| && c.mounts[i].kind == "bind" && !paths.allowBind(c.mounts[i].source)
    case UnknownMount(i) => i < |c.mounts| && c.mounts[i].kind != "volume" && c.mounts[i].kind != "bind"
    case UndeclaredNetwork(i) => i < |c.networks| && c.networks[i].name !in networks
    case InvalidAlias(i, j) => i < |c.networks| && j < |c.networks[i].aliases| && NotAName(c.networks[i].aliases[j])
    case EmptyHealthcheck => c.health.Some? && |c.health.value.test| == 0
    case NoHealthcheck => c.waitHealthy && c.health.None?
    case InvalidPath(i) => i < |c.files| && (!("/" <= c.files[i].path) || c.files[i].path == "/" || !paths.clean(c.files[i].path))
    case InvalidMode(i) => i < |c.files| && (c.files[i].mode < 0 || c.files[i].mode > 511)
    case FilesTooLarge => SizeFrom(c.files, 0) > 1024 * 1024
    case InvalidCapability(i) => i < |c.caps| && NotACapability(c.caps[i])
  }

  /** The bytes of the files from number `i` on. */
  function SizeFrom(files: seq<File>, i: nat): nat
    decreases |files| - i
  {
    if i >= |files| then 0 else |files[i].content| + SizeFrom(files, i + 1)
  }

  lemma {:induction false} SizeFromIs(files: seq<File>, i: nat)
    requires i <= |files|
    ensures FilesSize(files) == FilesSize(files[..i]) + SizeFrom(files, i)
    decreases |files| - i
  {
    if i == |files| {
      assert files[..i] == files;
    } else {
      SizeFromIs(files, i + 1);
      assert files[..i + 1][..i] == files[..i];
    }
  }

  lemma PortIff(p: Port)
    ensures PortOk(p) <==>
            && !(p.containerPort < 1 || p.containerPort > 65535 || p.hostPort < 0 || p.hostPort > 65535)
            && !(p.proto != "" && p.proto != "tcp" && p.proto != "udp" && p.proto != "sctp")
  {
  }

  lemma AbsoluteIff(p: string)
    ensures IsAbs(p) <==> "/" <= p
  {
  }

  ghost predicate NoFault(c: Container, networks: set<string>, volumes: set<string>, paths: Paths) {
    forall f :: !Faulty(c, networks, volumes, paths, f)
  }

  lemma FaultRefused(c: Container, networks: set<string>, volumes: set<string>, paths: Paths, f: ContainerFault)
    requires Faulty(c, networks, volumes, paths, f)
    ensures !ContainerOk(c, networks, volumes, paths)
  {
    hide ImageOk, EnvKeyOk, NameOk, CapOk, NotAnImage, NotAVariable, NotAName, NotACapability, IsAbs, SizeFrom, FilesSize;
    match f {
      case InvalidImage => ImageIff(c.image);
      case InvalidVariable(k) => VariableIff(k);
      case RelativeTarget(i) => AbsoluteIff(c.mounts[i].target);
      case InvalidAlias(i, j) => NameIff(c.networks[i].aliases[j]);
      case InvalidPath(i) => AbsoluteIff(c.files[i].path);
      case FilesTooLarge => AllBytes(c.files);
      case InvalidCapability(i) => CapabilityIff(c.caps[i]);
      case _ =>
    }
  }

  lemma AllBytes(files: seq<File>)
    ensures FilesSize(files) == SizeFrom(files, 0)
  {
    SizeFromIs(files, 0);
    assert files[..0] == [];
  }

  lemma FaultlessLists(c: Container, networks: set<string>, volumes: set<string>, paths: Paths)
    requires NoFault(c, networks, volumes, paths)
    ensures forall i :: 0 <= i < |c.ports| ==> PortOk(c.ports[i])
    ensures forall i :: 0 <= i < |c.mounts| ==> MountOk(c.mounts[i], volumes, paths)
    ensures forall i :: 0 <= i < |c.networks| ==> AttachOk(c.networks[i], networks)
    ensures forall i :: 0 <= i < |c.files| ==> FileOk(c.files[i], paths)
  {
    hide NameOk, NotAName, IsAbs, PortOk, SizeFrom;
    forall i | 0 <= i < |c.ports| ensures PortOk(c.ports[i]) {
      assert !Faulty(c, networks, volumes, paths, InvalidPort(i)) && !Faulty(c, networks, volumes, paths, UnknownProtocol(i));
      PortIff(c.ports[i]);
    }
    forall i | 0 <= i < |c.mounts| ensures MountOk(c.mounts[i], volumes, paths) {
      assert !Faulty(c, networks, volumes, paths, RelativeTarget(i)) && !Faulty(c, networks, volumes, paths, UndeclaredVolume(i));
      assert !Faulty(c, networks, volumes, paths, ForbiddenPath(i)) && !Faulty(c, networks, volumes, paths, UnknownMount(i));
      AbsoluteIff(c.mounts[i].target);
    }
    forall i | 0 <= i < |c.networks| ensures AttachOk(c.networks[i], networks) {
      assert !Faulty(c, networks, volumes, paths, UndeclaredNetwork(i));
      forall j | 0 <= j < |c.networks[i].aliases| ensures NameOk(c.networks[i].aliases[j]) {
        assert !Faulty(c, networks, volumes, paths, InvalidAlias(i, j));
        NameIff(c.networks[i].aliases[j]);
      }
    }
    forall i | 0 <= i < |c.files| ensures FileOk(c.files[i], paths) {
      assert !Faulty(c, networks, volumes, paths, InvalidPath(i)) && !Faulty(c, networks, volumes, paths, InvalidMode(i));
      AbsoluteIff(c.files[i].path);
    }
  }

  /** A container is accepted exactly when it has no fault. */
  lemma ContainerIff(c: Container, networks: set<string>, volumes: set<string>, paths: Paths)
    ensures ContainerOk(c, networks, volumes, paths) <==> NoFault(c, networks, volumes, paths)
  {
    hide ImageOk, EnvKeyOk, CapOk, NotAnImage, NotAVariable, NotACapability, PortOk, MountOk, AttachOk, FileOk, FilesSize, SizeFrom;
    if NoFault(c, networks, volumes, paths) {
      FaultlessLists(c, networks, volumes, paths);
      FaultlessRest(c, networks, volumes, paths);
    } else {
      var f :| Faulty(c, networks, volumes, paths, f);
      FaultRefused(c, networks, volumes, paths, f);
    }
  }

  lemma FaultlessRest(c: Container, networks: set<string>, volumes: set<string>, paths: Paths)
    requires NoFault(c, networks, volumes, paths)
    ensures ImageOk(c.image) && (forall k :: k in c.env ==> EnvKeyOk(k)) && FilesSize(c.files) <= MAX_FILES_SIZE
    ensures c.restart in ["", "no", "always", "unless-stopped", "on-failure"]
    ensures (c.health.Some? ==> c.health.value.test != []) && (c.waitHealthy ==> c.health.Some?)
    ensures forall i :: 0 <= i < |c.caps| ==> CapOk(c.caps[i])
  {
    hide ImageOk, EnvKeyOk, CapOk, NotAnImage, NotAVariable, NotACapability, FilesSize, SizeFrom;
    assert !Faulty(c, networks, volumes, paths, InvalidImage) && !Faulty(c, networks, volumes, paths, UnknownRestart);
    assert !Faulty(c, networks, volumes, paths, EmptyHealthcheck) && !Faulty(c, networks, volumes, paths, NoHealthcheck);
    assert !Faulty(c, networks, volumes, paths, FilesTooLarge);
    ImageIff(c.image);
    AllBytes(c.files);
    forall k | k in c.env ensures EnvKeyOk(k) {
      assert !Faulty(c, networks, volumes, paths, InvalidVariable(k));
      VariableIff(k);
    }
    forall i | 0 <= i < |c.caps| ensures CapOk(c.caps[i]) {
      assert !Faulty(c, networks, volumes, paths, InvalidCapability(i));
      CapabilityIff(c.caps[i]);
    }
  }

  // ----- the description

  datatype SpecFault =
    | WrongVersion
    | NoContainer
    | InvalidNetwork(i: nat)
    | NetworkTwice(i: nat, j: nat)
    | InvalidVolume(i: nat)
    | VolumeTwice(i: nat, j: nat)
    | InvalidContainer(i: nat)
    | ContainerTwice(i: nat, j: nat)
    | InContainer(i: nat, f: ContainerFault)

  predicate SpecFaulty(spec: HostSpec, paths: Paths, f: SpecFault) {
    match f
    case WrongVersion => spec.version != 1
    case NoContainer => |spec.containers| == 0
    case InvalidNetwork(i) => i < |spec.networks| && NotAName(spec.networks[i].name)
    case NetworkTwice(i, j) => i < j < |spec.networks| && spec.networks[i].name == spec.networks[j].name
    case InvalidVolume(i) => i < |spec.volumes| && NotAName(spec.volumes[i])
    case VolumeTwice(i, j) => i < j < |spec.volumes| && spec.volumes[i] == spec.volumes[j]
    case InvalidContainer(i) => i < |spec.containers| && NotAName(spec.containers[i].name)
    case ContainerTwice(i, j) => i < j < |spec.containers| && spec.containers[i].name == spec.containers[j].name
    case InContainer(i, g) =>
      i < |spec.containers| && Faulty(spec.containers[i], Declared(spec), DeclaredVolumes(spec), paths, g)
  }

  /** The networks and the volumes that the description declares. */
  function Declared(spec: HostSpec): set<string> {
    set i | 0 <= i < |spec.networks| :: spec.networks[i].name
  }

  function DeclaredVolumes(spec: HostSpec): set<string> {
    set i | 0 <= i < |spec.volumes| :: spec.volumes[i]
  }

  lemma DeclaredAre(spec: HostSpec)
    ensures Declared(spec) == AsSet(NetworkNames(spec.networks)) && DeclaredVolumes(spec) == AsSet(spec.volumes)
  {
    var names := NetworkNames(spec.networks);
    forall x ensures x in Declared(spec) <==> x in AsSet(names) {
      if x in AsSet(names) {
        var i :| 0 <= i < |names| && names[i] == x;
        assert spec.networks[i].name == x;
      }
    }
  }

  /** The names of a list: valid and distinct, or one of the two faults. */
  lemma NamesIff(names: seq<string>)
    ensures NamesOk(names) <==>
            && (forall i :: 0 <= i < |names| ==> !NotAName(names[i]))
            && (forall i, j :: 0 <= i < j < |names| ==> names[i] != names[j])
  {
    hide NameOk, NotAName;
    forall i | 0 <= i < |names| ensures NameOk(names[i]) <==> !NotAName(names[i]) {
      NameIff(names[i]);
    }
  }

  lemma NamesFaultless(spec: HostSpec, paths: Paths)
    requires forall f :: !SpecFaulty(spec, paths, f)
    ensures NamesOk(NetworkNames(spec.networks)) && NamesOk(spec.volumes) && NamesOk(ContainerNames(spec.containers))
  {
    hide NotAName, Faulty, NamesOk;
    NamesIff(NetworkNames(spec.networks));
    NamesIff(spec.volumes);
    NamesIff(ContainerNames(spec.containers));
    forall i | 0 <= i < |spec.networks| ensures !NotAName(spec.networks[i].name) {
      assert !SpecFaulty(spec, paths, InvalidNetwork(i));
    }
    forall i | 0 <= i < |spec.volumes| ensures !NotAName(spec.volumes[i]) {
      assert !SpecFaulty(spec, paths, InvalidVolume(i));
    }
    forall i | 0 <= i < |spec.containers| ensures !NotAName(spec.containers[i].name) {
      assert !SpecFaulty(spec, paths, InvalidContainer(i));
    }
    forall i, j | 0 <= i < j < |spec.networks| ensures spec.networks[i].name != spec.networks[j].name {
      assert !SpecFaulty(spec, paths, NetworkTwice(i, j));
    }
    forall i, j | 0 <= i < j < |spec.volumes| ensures spec.volumes[i] != spec.volumes[j] {
      assert !SpecFaulty(spec, paths, VolumeTwice(i, j));
    }
    forall i, j | 0 <= i < j < |spec.containers| ensures spec.containers[i].name != spec.containers[j].name {
      assert !SpecFaulty(spec, paths, ContainerTwice(i, j));
    }
  }

  lemma SpecFaultRefused(spec: HostSpec, paths: Paths, f: SpecFault)
    requires SpecFaulty(spec, paths, f)
    ensures !SpecOk(spec, paths)
  {
    hide NotAName, Faulty, NamesOk, ContainerOk;
    NamesIff(NetworkNames(spec.networks));
    NamesIff(spec.volumes);
    NamesIff(ContainerNames(spec.containers));
    if f.InContainer? {
      DeclaredAre(spec);
      FaultRefused(spec.containers[f.i], Declared(spec), DeclaredVolumes(spec), paths, f.f);
    } else if f.NetworkTwice? {
      assert NetworkNames(spec.networks)[f.i] == NetworkNames(spec.networks)[f.j];
    } else if f.ContainerTwice? {
      assert ContainerNames(spec.containers)[f.i] == ContainerNames(spec.containers)[f.j];
    }
  }

  /** A description is accepted exactly when it has none of the faults. */
  lemma SpecIff(spec: HostSpec, paths: Paths)
    ensures SpecOk(spec, paths) <==> forall f :: !SpecFaulty(spec, paths, f)
  {
    hide NotAName, Faulty, NamesOk, ContainerOk;
    if forall f :: !SpecFaulty(spec, paths, f) {
      NamesFaultless(spec, paths);
      DeclaredAre(spec);
      assert !SpecFaulty(spec, paths, WrongVersion) && !SpecFaulty(spec, paths, NoContainer);
      forall i | 0 <= i < |spec.containers| ensures ContainerOk(spec.containers[i], Declared(spec), DeclaredVolumes(spec), paths) {
        forall g ensures !Faulty(spec.containers[i], Declared(spec), DeclaredVolumes(spec), paths, g) {
          assert !SpecFaulty(spec, paths, InContainer(i, g));
        }
        ContainerIff(spec.containers[i], Declared(spec), DeclaredVolumes(spec), paths);
      }
    } else {
      var f :| SpecFaulty(spec, paths, f);
      SpecFaultRefused(spec, paths, f);
    }
  }
}
