/**
  The Docker daemon as the deployment engine sees it (the `API` of internal/deploy/engine.go): containers, volumes,
  networks and images, requests that may fail without effect, and deletions refused while something is in use.

  Nobody else changes the daemon during a deployment. When `reliable` holds, a request fails only if it names something
  that is missing or already taken.
 */
module DeployDaemon {
  import opened Optional
  import opened DeploySpec

  datatype Ctr = Ctr(name: string, networks: set<string>, volumes: set<string>, files: seq<File>, running: bool)

  /** What the daemon holds. Networks have a name and an identifier; containers are known by identifier. */
  datatype World = World(containers: map<nat, Ctr>, volumes: set<string>, networks: map<string, nat>, images: set<string>)

  /** How a network is named in a request: by identifier, or by name when the daemon returned no identifier. */
  datatype Ref = ById(id: nat) | ByName(name: string)

  datatype Status = Starting | Healthy | Exited

  datatype Event = Created(name: string, id: nat) | SawHealthy(id: nat)

  /** Containers refer to networks and volumes that exist, and no two networks share an identifier. */
  ghost predicate WellFormed(w: World) {
    && (forall id :: id in w.containers ==>
          w.containers[id].networks <= w.networks.Keys && w.containers[id].volumes <= w.volumes)
    && (forall m, n :: m in w.networks && n in w.networks && m != n ==> w.networks[m] != w.networks[n])
  }

  predicate NameTaken(w: World, name: string) {
    exists id :: id in w.containers && w.containers[id].name == name
  }

  predicate VolumeInUse(w: World, v: string) {
    exists id :: id in w.containers && v in w.containers[id].volumes
  }

  predicate NetworkInUse(w: World, n: string) {
    exists id :: id in w.containers && n in w.containers[id].networks
  }

  /** A volume or a network is in use when some container, started or not, has it. */
  lemma InUseMeans(w: World, x: string)
    ensures VolumeInUse(w, x) <==> exists id :: id in w.containers && x in w.containers[id].volumes
    ensures NetworkInUse(w, x) <==> exists id :: id in w.containers && x in w.containers[id].networks
    ensures NameTaken(w, x) <==> exists id :: id in w.containers && w.containers[id].name == x
  {
  }

  /** The named volumes a container mounts. */
  function MountedVolumes(c: Container): set<string> {
    set i | 0 <= i < |c.mounts| && c.mounts[i].kind == "volume" :: c.mounts[i].source
  }

  /** The network a container is created on. */
  function PrimaryNetwork(c: Container): set<string> {
    if c.networks == [] then {} else {c.networks[0].name}
  }

  /** A container just created. */
  function CreatedFrom(c: Container): Ctr {
    Ctr(c.name, PrimaryNetwork(c), MountedVolumes(c), [], false)
  }

  class Daemon {
    var w: World
    var now: int
    var started: map<nat, int>
    /** Requests that named something missing or taken. */
    var badRefs: nat
    /** Deletions refused because the thing was in use. */
    var inUse: nat
    var log: seq<Event>
    const reliable: bool
    /** Under `reliable`, a started container answers healthy after this delay at the latest, and does not stop. */
    const healthyAfter: nat

    constructor (w0: World, reliable0: bool, healthyAfter0: nat)
      ensures w == w0 && reliable == reliable0 && healthyAfter == healthyAfter0
      ensures badRefs == 0 && inUse == 0 && log == [] && started == map[]
    {
      w, now, started, badRefs, inUse, log := w0, 0, map[], 0, 0, [];
      reliable, healthyAfter := reliable0, healthyAfter0;
    }

    /** Whether a request meets a fault of the daemon or of the network, or a cancelled context. */
    method Faulty() returns (f: bool)
      ensures reliable ==> !f
    {
      f := false;
      if !reliable {
        f := *;
      }
    }

    /** An existence question (GET): fails only by fault. */
    method Ask() returns (ok: bool)
      ensures reliable ==> ok
    {
      var f := Faulty();
      ok := !f;
    }

    method CreateNetwork(name: string) returns (ok: bool, reply: Option<nat>)
      modifies this`w, this`badRefs
      ensures reliable && name !in old(w).networks ==> ok
      ensures !ok ==> w == old(w)
      ensures ok ==> name !in old(w).networks && name in w.networks
      ensures ok ==> w == old(w).(networks := old(w).networks[name := w.networks[name]])
      ensures ok ==> w.networks[name] !in old(w).networks.Values
      ensures reply.Some? && ok ==> reply.value == w.networks[name]
      ensures badRefs == old(badRefs) + (if name in old(w).networks then 1 else 0)
    {
      reply := None;
      if name in w.networks {
        badRefs := badRefs + 1;
        return false, None;
      }
      var f := Faulty();
      if f {
        return false, None;
      }
      var id := Unused(w.networks.Values);
      w := w.(networks := w.networks[name := id]);
      ok := true;
      if * {
        reply := Some(id);
      }
    }

    method Unused(ids: set<nat>) returns (id: nat)
      ensures id !in ids
    {
      id := 0;
      var rest := ids;
      while id in ids
        invariant rest == ids - Upto(id)
        decreases rest
      {
        rest := rest - {id};
        id := id + 1;
      }
    }

    static ghost function Upto(n: nat): (s: set<nat>)
      ensures forall k: nat :: k in s <==> k < n
    {
      if n == 0 then {} else Upto(n - 1) + {n - 1}
    }

    method CreateVolume(name: string) returns (ok: bool)
      modifies this`w
      ensures reliable ==> ok
      ensures w == if ok then old(w).(volumes := old(w).volumes + {name}) else old(w)
    {
      var f := Faulty();
      ok := !f;
      if ok {
        w := w.(volumes := w.volumes + {name});
      }
    }

    method PullImage(image: string) returns (ok: bool)
      modifies this`w
      ensures reliable ==> ok
      ensures w == if ok then old(w).(images := old(w).images + {image}) else old(w)
    {
      var f := Faulty();
      ok := !f;
      if ok {
        w := w.(images := w.images + {image});
      }
    }

    /** Everything the request names exists, and its name is free. */
    predicate CanCreate(c: Container)
      reads this`w
    {
      && !NameTaken(w, c.name) && c.image in w.images
      && PrimaryNetwork(c) <= w.networks.Keys && MountedVolumes(c) <= w.volumes
    }

    method CreateContainer(c: Container) returns (ok: bool, id: nat)
      modifies this`w, this`badRefs, this`log
      ensures reliable && old(CanCreate(c)) ==> ok
      ensures badRefs == old(badRefs) + (if old(CanCreate(c)) then 0 else 1)
      ensures !ok ==> w == old(w) && log == old(log)
      ensures ok ==> id !in old(w).containers && old(CanCreate(c)) && log == old(log) + [Created(c.name, id)]
      ensures ok ==> w == old(w).(containers := old(w).containers[id := CreatedFrom(c)])
    {
      id := 0;
      if !CanCreate(c) {
        badRefs := badRefs + 1;
        return false, 0;
      }
      var f := Faulty();
      if f {
        return false, 0;
      }
      id := Unused(w.containers.Keys);
      w := w.(containers := w.containers[id := CreatedFrom(c)]);
      log := log + [Created(c.name, id)];
      ok := true;
    }

    method Connect(network: string, id: nat) returns (ok: bool)
      modifies this`w, this`badRefs
      ensures reliable && network in old(w).networks && id in old(w).containers ==> ok
      ensures badRefs == old(badRefs) + (if network in old(w).networks && id in old(w).containers then 0 else 1)
      ensures !ok ==> w == old(w)
      ensures ok ==> id in old(w).containers && network in old(w).networks
      ensures ok ==> var c := old(w).containers[id];
                     w == old(w).(containers := old(w).containers[id := c.(networks := c.networks + {network})])
    {
      if network !in w.networks || id !in w.containers {
        badRefs := badRefs + 1;
        return false;
      }
      var f := Faulty();
      ok := !f;
      if ok {
        var c := w.containers[id];
        w := w.(containers := w.containers[id := c.(networks := c.networks + {network})]);
      }
    }

    method PutArchive(id: nat, files: seq<File>) returns (ok: bool)
      modifies this`w, this`badRefs
      ensures reliable && id in old(w).containers ==> ok
      ensures badRefs == old(badRefs) + (if id in old(w).containers then 0 else 1)
      ensures !ok ==> w == old(w)
      ensures ok ==> id in old(w).containers
      ensures ok ==> w == old(w).(containers := old(w).containers[id := old(w).containers[id].(files := files)])
    {
      if id !in w.containers {
        badRefs := badRefs + 1;
        return false;
      }
      var f := Faulty();
      ok := !f;
      if ok {
        w := w.(containers := w.containers[id := w.containers[id].(files := files)]);
      }
    }

    method Start(id: nat) returns (ok: bool)
      modifies this`w, this`started, this`badRefs
      ensures reliable && id in old(w).containers ==> ok
      ensures badRefs == old(badRefs) + (if id in old(w).containers then 0 else 1)
      ensures !ok ==> w == old(w)
      ensures ok ==> id in old(w).containers && id in started && started[id] == now
      ensures ok ==> w == old(w).(containers := old(w).containers[id := old(w).containers[id].(running := true)])
    {
      if id !in w.containers {
        badRefs := badRefs + 1;
        return false;
      }
      var f := Faulty();
      ok := !f;
      if ok {
        w := w.(containers := w.containers[id := w.containers[id].(running := true)]);
        started := started[id := now];
      }
    }

    /** One state request of `waitHealthy`; answers may be slow when the daemon is not reliable. */
    method Inspect(id: nat) returns (ok: bool, st: Status)
      modifies this`now, this`log
      ensures reliable ==> ok && now == old(now)
      ensures now >= old(now)
      ensures log == old(log) + (if ok && st == Healthy then [SawHealthy(id)] else [])
      ensures reliable && id in started ==> st != Exited
      ensures reliable && id in started && now >= started[id] + healthyAfter ==> st == Healthy
    {
      var f := Faulty();
      ok := !f;
      st := Starting;
      if reliable {
        st := if id in started && now >= started[id] + healthyAfter then Healthy else Starting;
      } else {
        var delay: nat :| true;
        now := now + delay;
        if * { st := Healthy; } else if * { st := Exited; }
      }
      if ok && st == Healthy {
        log := log + [SawHealthy(id)];
      }
    }

    method Sleep(d: nat)
      modifies this`now
      ensures now == old(now) + d
    {
      now := now + d;
    }

    // ----- deletions: refused only while in use; a missing target is not an error

    method DeleteContainer(id: nat)
      modifies this`w
      ensures w == old(w).(containers := old(w).containers - {id})
    {
      w := w.(containers := w.containers - {id});
    }

    method DeleteVolume(name: string) returns (ok: bool)
      modifies this`w, this`inUse
      ensures ok <==> !VolumeInUse(old(w), name)
      ensures w == if ok then old(w).(volumes := old(w).volumes - {name}) else old(w)
      ensures inUse == old(inUse) + (if ok then 0 else 1)
    {
      ok := !VolumeInUse(w, name);
      if ok {
        w := w.(volumes := w.volumes - {name});
      } else {
        inUse := inUse + 1;
      }
    }

    method DeleteNetwork(r: Ref) returns (ok: bool)
      modifies this`w, this`inUse
      ensures ok <==> !exists n :: n in old(w).networks && Denotes(old(w), r, n) && NetworkInUse(old(w), n)
      ensures !ok ==> w == old(w)
      ensures ok ==> w == old(w).(networks := map n | n in old(w).networks && !Denotes(old(w), r, n) :: old(w).networks[n])
      ensures inUse == old(inUse) + (if ok then 0 else 1)
    {
      ok := !exists n :: n in w.networks && Denotes(w, r, n) && NetworkInUse(w, n);
      if ok {
        w := w.(networks := map n | n in w.networks && !Denotes(w, r, n) :: w.networks[n]);
      } else {
        inUse := inUse + 1;
      }
    }
  }

  /** The network of name `n` is the one `r` speaks of. */
  predicate Denotes(w: World, r: Ref, n: string)
    requires n in w.networks
  {
    match r
    case ById(id) => w.networks[n] == id
    case ByName(name) => n == name
  }
}
