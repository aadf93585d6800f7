/**
  The deployment engine (internal/deploy/engine.go): plan, run with a journal, and roll back what was created when a step
  fails.
 */
module DeployEngine {
  import opened Optional
  import opened DeploySpec
  import opened DeployDaemon

  datatype Options = Options(pullAlways: bool, healthTimeout: nat, pollInterval: nat)

  /** What `New` makes of the options: a timeout and an interval are always positive. */
  predicate Normalised(opt: Options) {
    opt.healthTimeout > 0 && opt.pollInterval > 0
  }

  datatype Plan = Plan(pull: seq<string>, networks: seq<string>, volumes: seq<string>)

  datatype Journal = Journal(containers: seq<nat>, volumes: seq<string>, networks: seq<Ref>)

  datatype Deployed = Deployed(name: string, id: nat)

  // ----- Plan

  /** The names that are not there yet, in order. */
  function Missing(names: seq<string>, have: set<string>): seq<string> {
    if names == [] then []
    else Missing(names[..|names| - 1], have) + (if names[|names| - 1] in have then [] else [names[|names| - 1]])
  }

  /** The images to pull, each once. */
  function Pulls(cs: seq<Container>, images: set<string>, always: bool): seq<string> {
    if cs == [] then []
    else
      var before, img := cs[..|cs| - 1], cs[|cs| - 1].image;
      Pulls(before, images, always) +
      (if img in Images(before) || (!always && img in images) then [] else [img])
  }

  function Images(cs: seq<Container>): set<string> {
    set i | 0 <= i < |cs| :: cs[i].image
  }

  ghost predicate NoConflict(w: World, cs: seq<Container>) {
    forall i :: 0 <= i < |cs| ==> !NameTaken(w, cs[i].name)
  }

  /** No container of the host has a described name. */
  lemma NoConflictMeans(w: World, cs: seq<Container>)
    ensures NoConflict(w, cs) <==> forall i, id :: 0 <= i < |cs| && id in w.containers ==> w.containers[id].name != cs[i].name
  {
  }

  ghost function PlanOf(spec: HostSpec, w: World, opt: Options): Plan {
    Plan(Pulls(spec.containers, w.images, opt.pullAlways),
         Missing(NetworkNames(spec.networks), w.networks.Keys), Missing(spec.volumes, w.volumes))
  }

  lemma ImagesSnoc(cs: seq<Container>, i: nat)
    requires i < |cs|
    ensures Images(cs[..i + 1]) == Images(cs[..i]) + {cs[i].image}
  {
    forall x ensures x in Images(cs[..i + 1]) <==> x in Images(cs[..i]) + {cs[i].image} {
      if x in Images(cs[..i + 1]) {
        var k :| 0 <= k < i + 1 && cs[..i + 1][k].image == x;
        assert k < i ==> cs[..i][k].image == x;
      }
      if x in Images(cs[..i]) {
        var k :| 0 <= k < i && cs[..i][k].image == x;
        assert cs[..i + 1][k].image == x;
      }
      assert cs[..i + 1][i].image == cs[i].image;
    }
  }

  method PlanMissing(d: Daemon, names: seq<string>, have: set<string>) returns (ok: bool, missing: seq<string>)
    ensures d.reliable ==> ok
    ensures ok ==> missing == Missing(names, have)
  {
    missing := [];
    for i := 0 to |names|
      invariant missing == Missing(names[..i], have)
    {
      ok := d.Ask();
      if !ok {
        return false, missing;
      }
      assert names[..i + 1][..i] == names[..i];
      if names[i] !in have {
        missing := missing + [names[i]];
      }
    }
    assert names[..|names|] == names;
    ok := true;
  }

  method PlanPulls(d: Daemon, cs: seq<Container>, opt: Options) returns (ok: bool, pull: seq<string>)
    ensures d.reliable ==> ok
    ensures ok ==> pull == Pulls(cs, d.w.images, opt.pullAlways)
  {
    hide Images;
    pull := [];
    var pulled: set<string> := {};
    NoImages(cs);
    for i := 0 to |cs|
      invariant pull == Pulls(cs[..i], d.w.images, opt.pullAlways)
      invariant pulled == Images(cs[..i])
    {
      var img := cs[i].image;
      assert cs[..i + 1][..i] == cs[..i];
      ImagesSnoc(cs, i);
      if img !in pulled {
        pulled := pulled + {img};
        var found := false;
        if !opt.pullAlways {
          ok := d.Ask();
          if !ok {
            return false, pull;
          }
          found := img in d.w.images;
        }
        if !found {
          pull := pull + [img];
        }
      }
    }
    assert cs[..|cs|] == cs;
    ok := true;
  }

  lemma NoImages(cs: seq<Container>)
    ensures Images(cs[..0]) == {}
  {
  }

  method PlanConflicts(d: Daemon, cs: seq<Container>) returns (ok: bool)
    ensures ok ==> NoConflict(d.w, cs)
    ensures d.reliable && NoConflict(d.w, cs) ==> ok
  {
    var free := true;
    for i := 0 to |cs|
      invariant free <==> forall k :: 0 <= k < i ==> !NameTaken(d.w, cs[k].name)
    {
      ok := d.Ask();
      if !ok {
        return false;
      }
      if NameTaken(d.w, cs[i].name) {
        free := false;
      }
    }
    ok := free;
  }

  /** `Plan`: nothing is changed; a plan is returned only for a valid description that conflicts with no container. */
  method MakePlan(d: Daemon, spec: HostSpec, paths: Paths, opt: Options) returns (plan: Option<Plan>)
    ensures plan.Some? ==> SpecOk(spec, paths) && NoConflict(d.w, spec.containers)
    ensures plan.Some? ==> plan.value == PlanOf(spec, d.w, opt)
    ensures d.reliable && SpecOk(spec, paths) && NoConflict(d.w, spec.containers) ==> plan.Some?
  {
    hide SpecOk, NoConflict, Pulls, Missing;
    var valid := Validate(spec, paths);
    if !valid {
      return None;
    }
    var free := PlanConflicts(d, spec.containers);
    if !free {
      return None;
    }
    var ok1, networks := PlanMissing(d, NetworkNames(spec.networks), d.w.networks.Keys);
    if !ok1 {
      return None;
    }
    var ok2, volumes := PlanMissing(d, spec.volumes, d.w.volumes);
    if !ok2 {
      return None;
    }
    var ok3, pull := PlanPulls(d, spec.containers, opt);
    if !ok3 {
      return None;
    }
    return Some(Plan(pull, networks, volumes));
  }

  // ----- the journal

  ghost function Ids(s: seq<nat>): set<nat> {
    set x | x in s
  }

  /** The containers are those of `base`, untouched, and those journaled. */
  ghost predicate TracksContainers(w: World, base: World, ids: seq<nat>) {
    && w.containers.Keys == base.containers.Keys + Ids(ids)
    && (forall x :: x in ids ==> x !in base.containers)
    && (forall x :: x in base.containers ==> x in w.containers && w.containers[x] == base.containers[x])
  }

  ghost predicate TracksVolumes(w: World, base: World, volumes: seq<string>) {
    w.volumes == base.volumes + AsSet(volumes) && forall v :: v in volumes ==> v !in base.volumes
  }

  /** The networks are those of `base`, untouched, and the created `names`, each recorded by a reference to it. */
  ghost predicate TracksNetworks(w: World, base: World, refs: seq<Ref>, names: seq<string>) {
    && |refs| == |names|
    && w.networks.Keys == base.networks.Keys + AsSet(names)
    && (forall n :: n in names ==> n !in base.networks)
    && (forall n :: n in base.networks ==> n in w.networks && w.networks[n] == base.networks[n])
    && (forall i :: 0 <= i < |refs| ==> names[i] in w.networks && (refs[i] == ById(w.networks[names[i]]) || refs[i] == ByName(names[i])))
  }

  ghost predicate Tracks(w: World, base: World, j: Journal, names: seq<string>) {
    && WellFormed(base) && WellFormed(w)
    && TracksContainers(w, base, j.containers) && TracksVolumes(w, base, j.volumes)
    && TracksNetworks(w, base, j.networks, names)
  }

  lemma TracksStart(w: World)
    requires WellFormed(w)
    ensures Tracks(w, w, Journal([], [], []), [])
  {
  }

  lemma TracksNetwork(w: World, v: World, base: World, j: Journal, names: seq<string>, name: string, reply: Option<nat>)
    requires Tracks(w, base, j, names) && name !in w.networks
    requires name in v.networks && v == w.(networks := w.networks[name := v.networks[name]])
    requires v.networks[name] !in w.networks.Values
    requires reply.Some? ==> reply.value == v.networks[name]
    ensures Tracks(v, base, j.(networks := j.networks + [NameOr(reply, name)]), names + [name])
  {
    assert WellFormed(v) by {
      forall m, n | m in v.networks && n in v.networks && m != n ensures v.networks[m] != v.networks[n] {
        assert m != name ==> v.networks[m] in w.networks.Values;
        assert n != name ==> v.networks[n] in w.networks.Values;
      }
    }
    assert AsSet(names + [name]) == AsSet(names) + {name};
  }

  /** `nameOr`: what the journal keeps of a created network. */
  function NameOr(reply: Option<nat>, name: string): Ref {
    if reply.Some? then ById(reply.value) else ByName(name)
  }

  lemma TracksVolume(w: World, base: World, j: Journal, names: seq<string>, name: string)
    requires Tracks(w, base, j, names) && name !in base.volumes
    ensures Tracks(w.(volumes := w.volumes + {name}), base, j.(volumes := j.volumes + [name]), names)
  {
    assert AsSet(j.volumes + [name]) == AsSet(j.volumes) + {name};
  }

  lemma TracksContainer(w: World, base: World, j: Journal, names: seq<string>, id: nat, c: Ctr)
    requires Tracks(w, base, j, names) && id !in w.containers
    requires c.networks <= w.networks.Keys && c.volumes <= w.volumes
    ensures Tracks(w.(containers := w.containers[id := c]), base, j.(containers := j.containers + [id]), names)
  {
    assert Ids(j.containers + [id]) == Ids(j.containers) + {id};
  }

  /** Changing a journaled container, within what exists, keeps the journal exact. */
  lemma TracksChanged(w: World, base: World, j: Journal, names: seq<string>, id: nat, c: Ctr)
    requires Tracks(w, base, j, names) && id in j.containers && id in w.containers
    requires c.networks <= w.networks.Keys && c.volumes <= w.volumes
    ensures Tracks(w.(containers := w.containers[id := c]), base, j, names)
  {
  }

  // ----- rollback

  /** What is not in `base` is used by no container once only those of `base` are left. */
  lemma OnlyBaseUses(w: World, base: World)
    requires WellFormed(base) && w.containers == base.containers
    ensures forall v :: v !in base.volumes ==> !VolumeInUse(w, v)
    ensures forall n :: n !in base.networks ==> !NetworkInUse(w, n)
  {
  }

  method RollbackContainers(d: Daemon, ids: seq<nat>, ghost base: World)
    requires TracksContainers(d.w, base, ids)
    modifies d`w
    ensures d.w == old(d.w).(containers := base.containers)
  {
    var i := |ids|;
    while i > 0
      invariant 0 <= i <= |ids|
      invariant d.w == old(d.w).(containers := d.w.containers)
      invariant base.containers.Keys <= d.w.containers.Keys <= base.containers.Keys + Ids(ids[..i])
      invariant forall x :: x in base.containers ==> x in d.w.containers && d.w.containers[x] == base.containers[x]
    {
      i := i - 1;
      assert ids[i] in ids;
      assert Ids(ids[..i + 1]) == Ids(ids[..i]) + {ids[i]} by {
        assert ids[..i + 1] == ids[..i] + [ids[i]];
      }
      d.DeleteContainer(ids[i]);
    }
    assert Ids(ids[..0]) == {};
    assert d.w.containers == base.containers;
  }

  method RollbackVolumes(d: Daemon, volumes: seq<string>, ghost base: World) returns (failed: seq<string>)
    requires WellFormed(base) && d.w.containers == base.containers && TracksVolumes(d.w, base, volumes)
    modifies d`w, d`inUse
    ensures d.w == old(d.w).(volumes := base.volumes)
    ensures failed == [] && d.inUse == old(d.inUse)
  {
    failed := [];
    var i := |volumes|;
    while i > 0
      invariant 0 <= i <= |volumes| && failed == [] && d.inUse == old(d.inUse)
      invariant d.w == old(d.w).(volumes := d.w.volumes)
      invariant base.volumes <= d.w.volumes <= base.volumes + AsSet(volumes[..i])
    {
      i := i - 1;
      assert volumes[i] in volumes;
      assert volumes[..i + 1] == volumes[..i] + [volumes[i]];
      OnlyBaseUses(d.w, base);
      var name := volumes[i];
      var ok := d.DeleteVolume(name);
      if !ok {
        failed := failed + [name];
      }
    }
  }

  /** A journaled reference denotes the network it was made for and no other. */
  lemma RefDenotes(w: World, start: World, base: World, refs: seq<Ref>, names: seq<string>, i: nat, n: string)
    requires WellFormed(start) && TracksNetworks(start, base, refs, names) && i < |refs|
    requires n in w.networks && n in start.networks && w.networks[n] == start.networks[n]
    ensures Denotes(w, refs[i], n) <==> n == names[i]
  {
  }

  method RollbackNetworks(d: Daemon, refs: seq<Ref>, ghost names: seq<string>, ghost base: World) returns (failed: seq<Ref>)
    requires WellFormed(base) && WellFormed(d.w) && d.w.containers == base.containers
    requires TracksNetworks(d.w, base, refs, names)
    modifies d`w, d`inUse
    ensures d.w == old(d.w).(networks := base.networks)
    ensures failed == [] && d.inUse == old(d.inUse)
  {
    hide NetworksLeft, TracksNetworks, WellFormed, Denotes;
    failed := [];
    ghost var start := d.w;
    var i := |refs|;
    AllNetworksLeft(start, base, refs, names);
    while i > 0
      invariant 0 <= i <= |refs| && failed == [] && d.inUse == old(d.inUse)
      invariant NetworksLeft(d.w, start, base, names, i)
    {
      i := i - 1;
      NetworkStep(d.w, start, base, refs, names, i);
      var r := refs[i];
      var ok := d.DeleteNetwork(r);
      if !ok {
        failed := failed + [r];
      }
    }
    NoNetworkLeft(d.w, start, base, names);
  }

  /** The networks from before and the first `i` created ones are there, and nothing else differs. */
  ghost predicate NetworksLeft(w: World, start: World, base: World, names: seq<string>, i: nat) {
    && i <= |names| && w == start.(networks := w.networks) && start.containers == base.containers
    && base.networks.Keys <= w.networks.Keys <= base.networks.Keys + AsSet(names[..i])
    && (forall n :: n in w.networks ==> n in start.networks && w.networks[n] == start.networks[n])
    && (forall n :: n in base.networks ==> n in start.networks && start.networks[n] == base.networks[n])
  }

  lemma AllNetworksLeft(start: World, base: World, refs: seq<Ref>, names: seq<string>)
    requires TracksNetworks(start, base, refs, names) && start.containers == base.containers
    ensures |refs| == |names| && NetworksLeft(start, start, base, names, |refs|)
  {
    assert names[..|names|] == names;
  }

  /** Deleting what the last reference denotes is not refused, and leaves one network less. */
  lemma NetworkStep(w: World, start: World, base: World, refs: seq<Ref>, names: seq<string>, i: nat)
    requires WellFormed(base) && WellFormed(start) && TracksNetworks(start, base, refs, names) && i < |refs|
    requires NetworksLeft(w, start, base, names, i + 1)
    ensures !exists n :: n in w.networks && Denotes(w, refs[i], n) && NetworkInUse(w, n)
    ensures NetworksLeft(w.(networks := map n | n in w.networks && !Denotes(w, refs[i], n) :: w.networks[n]), start, base, names, i)
  {
    hide Denotes, NetworkInUse, NetworksLeft, WellFormed, TracksNetworks;
    NetworkNamed(w, start, base, refs, names, i);
    OnlyBaseUses(w, base);
    NetworkLess(w, w.(networks := map n | n in w.networks && !Denotes(w, refs[i], n) :: w.networks[n]), start, base, names, i);
  }

  lemma NetworkNamed(w: World, start: World, base: World, refs: seq<Ref>, names: seq<string>, i: nat)
    requires WellFormed(base) && WellFormed(start) && TracksNetworks(start, base, refs, names) && i < |refs|
    requires NetworksLeft(w, start, base, names, i + 1)
    ensures i < |names| && names[i] !in base.networks && w.containers == base.containers
    ensures forall n :: n in w.networks ==> (Denotes(w, refs[i], n) <==> n == names[i])
  {
    hide Denotes;
    assert names[i] in names;
    forall n | n in w.networks ensures Denotes(w, refs[i], n) <==> n == names[i] {
      RefDenotes(w, start, base, refs, names, i, n);
    }
  }

  lemma NetworkLess(w: World, v: World, start: World, base: World, names: seq<string>, i: nat)
    requires i < |names| && NetworksLeft(w, start, base, names, i + 1) && names[i] !in base.networks
    requires v == w.(networks := v.networks) && v.networks.Keys == w.networks.Keys - {names[i]}
    requires forall n :: n in v.networks ==> v.networks[n] == w.networks[n]
    ensures NetworksLeft(v, start, base, names, i)
  {
    assert names[..i + 1] == names[..i] + [names[i]];
  }

  lemma NoNetworkLeft(w: World, start: World, base: World, names: seq<string>)
    requires NetworksLeft(w, start, base, names, 0)
    ensures w == start.(networks := base.networks)
  {
    assert w.networks.Keys == base.networks.Keys;
    assert w.networks == base.networks;
  }

  /** `rollback`: containers, then volumes, then networks, each from the last; nothing is refused and `base` is restored. */
  method Rollback(d: Daemon, j: Journal, ghost names: seq<string>, ghost base: World) returns (complete: bool)
    requires Tracks(d.w, base, j, names)
    modifies d`w, d`inUse
    ensures complete && d.inUse == old(d.inUse)
    ensures d.w == base.(images := old(d.w).images)
  {
    RollbackContainers(d, j.containers, base);
    var failedVolumes := RollbackVolumes(d, j.volumes, base);
    var failedNetworks := RollbackNetworks(d, j.networks, names, base);
    complete := failedVolumes == [] && failedNetworks == [];
  }

  // ----- run: networks and volumes

  lemma {:induction false} MissingFacts(names: seq<string>, have: set<string>)
    requires Distinct(names)
    ensures Distinct(Missing(names, have))
    ensures forall x :: x in Missing(names, have) <==> x in names && x !in have
  {
    if names != [] {
      var k := |names| - 1;
      MissingFacts(names[..k], have);
      assert names == names[..k] + [names[k]];
    }
  }

  method CreateNetworks(d: Daemon, todo: seq<string>, ghost base: World)
    returns (ok: bool, j: Journal, ghost names: seq<string>)
    requires WellFormed(d.w) && base == d.w
    requires Distinct(todo) && forall x :: x in todo ==> x !in d.w.networks
    modifies d`w, d`badRefs
    ensures Tracks(d.w, base, j, names) && j.containers == [] && j.volumes == []
    ensures d.w == old(d.w).(networks := d.w.networks)
    ensures d.badRefs == old(d.badRefs)
    ensures d.reliable ==> ok
    ensures ok ==> d.w.networks.Keys == base.networks.Keys + AsSet(todo)
  {
    hide WellFormed, TracksNetworks, TracksContainers, TracksVolumes;
    j, names := Journal([], [], []), [];
    TracksStart(d.w);
    for i := 0 to |todo|
      invariant Tracks(d.w, base, j, names) && j.containers == [] && j.volumes == []
      invariant d.w == old(d.w).(networks := d.w.networks)
      invariant d.w.networks.Keys == base.networks.Keys + AsSet(todo[..i])
      invariant d.badRefs == old(d.badRefs)
    {
      var name := todo[i];
      FreshName(todo, i, base.networks.Keys);
      ghost var before := d.w;
      var ok1, reply := d.CreateNetwork(name);
      if !ok1 {
        return false, j, names;
      }
      TracksNetwork(before, d.w, base, j, names, name, reply);
      j, names := j.(networks := j.networks + [NameOr(reply, name)]), names + [name];
      assert todo[..i + 1] == todo[..i] + [name];
    }
    assert todo[..|todo|] == todo;
    ok := true;
  }

  lemma FreshName(todo: seq<string>, i: nat, have: set<string>)
    requires Distinct(todo) && i < |todo| && todo[i] !in have
    ensures todo[i] !in have + AsSet(todo[..i])
  {
  }

  method CreateVolumes(d: Daemon, todo: seq<string>, j0: Journal, ghost names: seq<string>, ghost base: World)
    returns (ok: bool, j: Journal)
    requires Tracks(d.w, base, j0, names) && forall x :: x in todo ==> x !in base.volumes
    modifies d`w
    ensures Tracks(d.w, base, j, names) && j.containers == j0.containers
    ensures d.w == old(d.w).(volumes := d.w.volumes)
    ensures d.reliable ==> ok
    ensures ok ==> d.w.volumes == old(d.w).volumes + AsSet(todo)
  {
    hide WellFormed, TracksNetworks, TracksContainers, TracksVolumes;
    j := j0;
    assert AsSet(todo[..0]) == {};
    for i := 0 to |todo|
      invariant Tracks(d.w, base, j, names) && j.containers == j0.containers
      invariant d.w == old(d.w).(volumes := old(d.w).volumes + AsSet(todo[..i]))
    {
      var name := todo[i];
      ghost var before := d.w;
      assert name in todo;
      var ok1 := d.CreateVolume(name);
      if !ok1 {
        return false, j;
      }
      TracksVolume(before, base, j, names, name);
      j := j.(volumes := j.volumes + [name]);
      assert todo[..i + 1] == todo[..i] + [name];
    }
    assert todo[..|todo|] == todo;
    ok := true;
  }

  // ----- run: containers

  /** The events of a deployment that went through: each container that must be healthy is seen so before the next. */
  function Trace(cs: seq<Container>, ids: seq<nat>): seq<Event>
    requires |cs| == |ids|
  {
    if cs == [] then []
    else
      var k := |cs| - 1;
      Trace(cs[..k], ids[..k]) + [Created(cs[k].name, ids[k])] + (if cs[k].waitHealthy then [SawHealthy(ids[k])] else [])
  }

  /** The log of a deployment stopped anywhere: whole containers, then at most the creation of one more. */
  ghost predicate StoppedTrace(log: seq<Event>, cs: seq<Container>, ids: seq<nat>) {
    || (|ids| <= |cs| && log == Trace(cs[..|ids|], ids))
    || (0 < |ids| <= |cs| && log == Trace(cs[..|ids| - 1], ids[..|ids| - 1]) + [Created(cs[|ids| - 1].name, ids[|ids| - 1])])
  }

  lemma {:induction false} TracePrefix(cs: seq<Container>, ids: seq<nat>, n: nat)
    requires |cs| == |ids| && n <= |cs|
    ensures Trace(cs[..n], ids[..n]) <= Trace(cs, ids)
    decreases |cs| - n
  {
    if n == |cs| {
      assert cs[..n] == cs && ids[..n] == ids;
    } else {
      var k := |cs| - 1;
      TracePrefix(cs[..k], ids[..k], n);
      assert cs[..k][..n] == cs[..n] && ids[..k][..n] == ids[..n];
    }
  }

  /** In a deployment that went through, a container that must be healthy is seen so before the next one is created. */
  lemma SeenHealthyBeforeNext(cs: seq<Container>, ids: seq<nat>, i: nat)
    requires |cs| == |ids| && i + 1 < |cs| && cs[i].waitHealthy
    ensures var t := Trace(cs, ids);
            exists p, q :: 0 <= p < q < |t| && t[p] == SawHealthy(ids[i]) && t[q] == Created(cs[i + 1].name, ids[i + 1])
  {
    var a, b := Trace(cs[..i], ids[..i]), Trace(cs[..i + 1], ids[..i + 1]);
    assert cs[..i + 1][..i] == cs[..i] && ids[..i + 1][..i] == ids[..i];
    assert cs[..i + 2][..i + 1] == cs[..i + 1] && ids[..i + 2][..i + 1] == ids[..i + 1];
    TracePrefix(cs, ids, i + 2);
    var t, u := Trace(cs, ids), Trace(cs[..i + 2], ids[..i + 2]);
    assert b == a + [Created(cs[i].name, ids[i])] + [SawHealthy(ids[i])];
    assert u[|b| - 1] == SawHealthy(ids[i]) && u[|b|] == Created(cs[i + 1].name, ids[i + 1]);
    assert t[|b| - 1] == u[|b| - 1] && t[|b|] == u[|b|];
  }

  /** The same in a deployment that was stopped: what was created before it stopped waited for the sighting. */
  lemma SeenHealthyBeforeStopped(log: seq<Event>, cs: seq<Container>, ids: seq<nat>, i: nat)
    requires StoppedTrace(log, cs, ids) && i + 1 < |ids| && cs[i].waitHealthy
    ensures exists p, q :: 0 <= p < q < |log| && log[p] == SawHealthy(ids[i]) && log[q] == Created(cs[i + 1].name, ids[i + 1])
  {
    hide Trace;
    var n := |ids|;
    if log == Trace(cs[..n], ids) {
      SeenHealthyBeforeNext(cs[..n], ids, i);
    } else if i + 1 < n - 1 {
      SeenHealthyBeforeNext(cs[..n - 1], ids[..n - 1], i);
      var t := Trace(cs[..n - 1], ids[..n - 1]);
      var p, q :| 0 <= p < q < |t| && t[p] == SawHealthy(ids[i]) && t[q] == Created(cs[i + 1].name, ids[i + 1]);
      assert log[p] == t[p] && log[q] == t[q];
    } else {
      LastSighting(cs[..n - 1], ids[..n - 1]);
      var t := Trace(cs[..n - 1], ids[..n - 1]);
      assert log[|t| - 1] == t[|t| - 1] && log[|t|] == Created(cs[i + 1].name, ids[i + 1]);
    }
  }

  lemma LastSighting(cs: seq<Container>, ids: seq<nat>)
    requires |cs| == |ids| > 0 && cs[|cs| - 1].waitHealthy
    ensures var t := Trace(cs, ids); t != [] && t[|t| - 1] == SawHealthy(ids[|ids| - 1])
  {
  }

  /** What a deployment stopped anywhere adds to the log. */
  ghost predicate StoppedAfter(before: seq<Event>, log: seq<Event>, cs: seq<Container>) {
    exists more, ids :: log == before + more && StoppedTrace(more, cs, ids)
  }

  lemma NothingStopped(log: seq<Event>, cs: seq<Container>)
    ensures StoppedAfter(log, log, cs)
  {
    hide StoppedTrace, Trace;
    NothingRun(cs);
    assert log == log + [];
  }

  /** `waitHealthy`: polls until healthy, stopped, too late or cancelled. */
  method WaitHealthy(d: Daemon, id: nat, opt: Options) returns (ok: bool)
    requires Normalised(opt)
    modifies d`now, d`log
    ensures d.log == old(d.log) + (if ok then [SawHealthy(id)] else [])
    ensures d.now >= old(d.now)
    ensures d.reliable && id in d.started && d.started[id] <= old(d.now) && d.healthyAfter <= opt.healthTimeout ==> ok
  {
    var deadline := d.now + opt.healthTimeout;
    while true
      invariant d.log == old(d.log) && d.now >= old(d.now)
      decreases deadline - d.now
    {
      var got, st := d.Inspect(id);
      if !got {
        return false;
      }
      if st == Healthy {
        return true;
      }
      if st == Exited {
        return false;
      }
      if d.now > deadline {
        return false;
      }
      var cancelled := d.Faulty();
      if cancelled {
        return false;
      }
      d.Sleep(opt.pollInterval);
    }
  }

  /** Everything container `c` names exists. */
  ghost predicate RefsExist(c: Container, w: World) {
    && c.image in w.images && MountedVolumes(c) <= w.volumes
    && forall i :: 0 <= i < |c.networks| ==> c.networks[i].name in w.networks
  }

  /** The networks of the first `n` attachments. */
  function AttachedTo(c: Container, n: nat): set<string>
    requires n <= |c.networks|
  {
    set i | 0 <= i < n :: c.networks[i].name
  }

  /** A container fully deployed: on all its networks, with its volumes and files, and started. */
  function Wanted(c: Container): Ctr {
    Ctr(c.name, AttachedTo(c, |c.networks|), MountedVolumes(c), c.files, true)
  }

  /** What that is of a container: every network and every named volume of its description, its files, and running. */
  lemma WantedMeans(c: Container, x: string)
    ensures var d := Wanted(c);
            && d.name == c.name && d.files == c.files && d.running
            && (x in d.networks <==> exists i :: 0 <= i < |c.networks| && c.networks[i].name == x)
            && (x in d.volumes <==> exists i :: 0 <= i < |c.mounts| && c.mounts[i].kind == "volume" && c.mounts[i].source == x)
  {
  }

  /** From `w` to `v` only container `id` changed. */
  ghost predicate OnlyChanged(w: World, v: World, id: nat) {
    && v == w.(containers := v.containers)
    && v.containers.Keys == w.containers.Keys + {id}
    && forall x :: x in w.containers && x != id ==> v.containers[x] == w.containers[x]
  }

  lemma AttachedSnoc(c: Container, i: nat)
    requires i < |c.networks|
    ensures AttachedTo(c, i + 1) == AttachedTo(c, i) + {c.networks[i].name}
  {
  }

  method ConnectOthers(d: Daemon, c: Container, id: nat, j: Journal, ghost names: seq<string>, ghost base: World)
    returns (ok: bool)
    requires Tracks(d.w, base, j, names) && id in j.containers && RefsExist(c, d.w)
    requires id in d.w.containers && d.w.containers[id] == CreatedFrom(c)
    modifies d`w, d`badRefs
    ensures Tracks(d.w, base, j, names)
    ensures OnlyChanged(old(d.w), d.w, id)
    ensures ok ==> d.w.containers[id] == CreatedFrom(c).(networks := AttachedTo(c, |c.networks|))
    ensures d.badRefs == old(d.badRefs)
    ensures d.reliable ==> ok
  {
    hide WellFormed, TracksNetworks, TracksVolumes, AttachedTo;
    var from := if |c.networks| < 1 then |c.networks| else 1;
    FirstAttached(c);
    for i := from to |c.networks|
      invariant Tracks(d.w, base, j, names)
      invariant OnlyChanged(old(d.w), d.w, id)
      invariant d.w.containers[id] == CreatedFrom(c).(networks := AttachedTo(c, i))
      invariant d.badRefs == old(d.badRefs)
    {
      ghost var before := d.w;
      var network := c.networks[i].name;
      ok := d.Connect(network, id);
      if !ok {
        return false;
      }
      AttachedSnoc(c, i);
      NetworksKnown(before, id);
      TracksChanged(before, base, j, names, id, d.w.containers[id]);
    }
    ok := true;
  }

  lemma FirstAttached(c: Container)
    ensures PrimaryNetwork(c) == AttachedTo(c, if |c.networks| < 1 then |c.networks| else 1)
  {
  }

  lemma NetworksKnown(w: World, id: nat)
    requires WellFormed(w) && id in w.containers
    ensures w.containers[id].networks <= w.networks.Keys && w.containers[id].volumes <= w.volumes
  {
  }

  /** Files and start, once the container is created and connected. */
  method FillAndStart(d: Daemon, c: Container, id: nat, j: Journal, ghost names: seq<string>, ghost base: World)
    returns (ok: bool)
    requires Tracks(d.w, base, j, names) && id in j.containers && id in d.w.containers
    requires d.w.containers[id] == CreatedFrom(c).(networks := AttachedTo(c, |c.networks|))
    modifies d`w, d`badRefs, d`started
    ensures Tracks(d.w, base, j, names)
    ensures OnlyChanged(old(d.w), d.w, id)
    ensures ok ==> d.w.containers[id] == Wanted(c) && id in d.started && d.started[id] == d.now
    ensures d.badRefs == old(d.badRefs)
    ensures d.reliable ==> ok
  {
    hide WellFormed, TracksNetworks, TracksVolumes, TracksContainers, AttachedTo;
    ghost var w0 := d.w;
    NetworksKnown(w0, id);
    if |c.files| > 0 {
      ok := d.PutArchive(id, c.files);
      if !ok {
        return false;
      }
      TracksChanged(w0, base, j, names, id, d.w.containers[id]);
    }
    ghost var w1 := d.w;
    ok := d.Start(id);
    if ok {
      TracksChanged(w1, base, j, names, id, d.w.containers[id]);
    }
  }

  /** One turn of the container loop of `run`. */
  method DeployContainer(d: Daemon, c: Container, opt: Options, j0: Journal, ghost names: seq<string>, ghost base: World)
    returns (ok: bool, j: Journal, id: nat)
    requires Normalised(opt) && Tracks(d.w, base, j0, names) && RefsExist(c, d.w) && !NameTaken(d.w, c.name)
    modifies d`w, d`badRefs, d`log, d`now, d`started
    ensures Tracks(d.w, base, j, names) && j.volumes == j0.volumes && j.networks == j0.networks
    ensures d.badRefs == old(d.badRefs)
    ensures j.containers == j0.containers ==> d.w == old(d.w)
    ensures j.containers != j0.containers ==> id !in old(d.w).containers && OnlyChanged(old(d.w), d.w, id)
    ensures ok ==> j.containers == j0.containers + [id] && d.w.containers[id] == Wanted(c)
    ensures ok ==> d.log == old(d.log) + [Created(c.name, id)] + (if c.waitHealthy then [SawHealthy(id)] else [])
    ensures !ok ==> (j.containers == j0.containers && d.log == old(d.log)) ||
                    (j.containers == j0.containers + [id] && d.log == old(d.log) + [Created(c.name, id)])
    ensures d.reliable && d.healthyAfter <= opt.healthTimeout ==> ok
  {
    hide WellFormed, TracksNetworks, TracksVolumes, NameTaken, AttachedTo, TracksContainers;
    j := j0;
    ghost var before := d.w;
    PrimaryExists(c, d.w);
    ok, id := d.CreateContainer(c);
    if !ok {
      return false, j, id;
    }
    TracksContainer(before, base, j0, names, id, CreatedFrom(c));
    j := j0.(containers := j0.containers + [id]);
    ok := ConnectOthers(d, c, id, j, names, base);
    if !ok {
      return false, j, id;
    }
    ok := FillAndStart(d, c, id, j, names, base);
    if !ok {
      return false, j, id;
    }
    if c.waitHealthy {
      ok := WaitHealthy(d, id, opt);
    }
  }

  lemma PrimaryExists(c: Container, w: World)
    requires RefsExist(c, w)
    ensures PrimaryNetwork(c) <= w.networks.Keys
  {
  }

  lemma NameAdded(w: World, v: World, id: nat, n: string)
    requires id !in w.containers && OnlyChanged(w, v, id) && NameTaken(v, n)
    ensures NameTaken(w, n) || n == v.containers[id].name
  {
    var x :| x in v.containers && v.containers[x].name == n;
    if x != id {
      assert w.containers[x].name == n;
    }
  }

  /** Every container of the list is there as described. */
  ghost predicate AllWanted(w: World, cs: seq<Container>, ids: seq<nat>) {
    |ids| <= |cs| && forall k :: 0 <= k < |ids| ==> ids[k] in w.containers && w.containers[ids[k]] == Wanted(cs[k])
  }

  lemma WantedGrows(w: World, v: World, cs: seq<Container>, ids: seq<nat>, id: nat)
    requires AllWanted(w, cs, ids) && id !in w.containers && OnlyChanged(w, v, id)
    requires |ids| < |cs| && v.containers[id] == Wanted(cs[|ids|])
    ensures AllWanted(v, cs, ids + [id])
  {
    hide Wanted;
  }

  /** The container loop of `run`. */
  method DeployContainers(d: Daemon, cs: seq<Container>, opt: Options, j0: Journal, ghost names: seq<string>, ghost base: World)
    returns (ok: bool, j: Journal, res: seq<Deployed>)
    requires Normalised(opt) && Tracks(d.w, base, j0, names) && j0.containers == []
    requires Distinct(ContainerNames(cs)) && NoConflict(d.w, cs)
    requires forall i :: 0 <= i < |cs| ==> RefsExist(cs[i], d.w)
    modifies d`w, d`badRefs, d`log, d`now, d`started
    ensures Tracks(d.w, base, j, names)
    ensures d.w == old(d.w).(containers := d.w.containers) && d.badRefs == old(d.badRefs)
    ensures d.reliable && d.healthyAfter <= opt.healthTimeout ==> ok
    ensures exists more :: d.log == old(d.log) + more && StoppedTrace(more, cs, j.containers)
    ensures ok ==> |j.containers| == |cs| && AllWanted(d.w, cs, j.containers)
    ensures ok ==> d.log == old(d.log) + Trace(cs, j.containers)
    ensures ok ==> |res| == |cs| && forall i :: 0 <= i < |cs| ==> res[i] == Deployed(cs[i].name, j.containers[i])
  {
    hide Tracks, NameTaken, Trace, RefsExist, AllWanted, Wanted;
    j, res := j0, [];
    ghost var start := d.w;
    ghost var done: seq<Event> := NoTrace(cs);
    NoneWanted(d.w, cs);
    for i := 0 to |cs|
      invariant Tracks(d.w, base, j, names) && |j.containers| == i == |res|
      invariant d.w == start.(containers := d.w.containers) && d.badRefs == old(d.badRefs)
      invariant d.log == old(d.log) + done && done == Trace(cs[..i], j.containers)
      invariant forall k :: i <= k < |cs| ==> !NameTaken(d.w, cs[k].name)
      invariant AllWanted(d.w, cs, j.containers)
      invariant forall k :: 0 <= k < i ==> res[k] == Deployed(cs[k].name, j.containers[k])
    {
      ghost var before, had := d.w, j.containers;
      RefsStay(cs[i], start, d.w);
      var ok1, j1, id := DeployContainer(d, cs[i], opt, j, names, base);
      j := j1;
      TraceSnoc(cs, i, had, id);
      if !ok1 {
        StoppedHere(d.log, old(d.log), done, cs, had, j.containers, id);
        return false, j, res;
      }
      done := done + [Created(cs[i].name, id)] + (if cs[i].waitHealthy then [SawHealthy(id)] else []);
      WantedGrows(before, d.w, cs, had, id);
      NamesStayFree(before, d.w, cs, i, id);
      res := res + [Deployed(cs[i].name, id)];
    }
    assert cs[..|cs|] == cs;
    assert StoppedTrace(done, cs, j.containers);
    ok := true;
  }

  lemma NoneWanted(w: World, cs: seq<Container>)
    ensures AllWanted(w, cs, [])
  {
  }

  lemma StoppedHere(log: seq<Event>, log0: seq<Event>, done: seq<Event>, cs: seq<Container>, had: seq<nat>, ids: seq<nat>, id: nat)
    requires |had| < |cs| && done == Trace(cs[..|had|], had)
    requires (ids == had && log == log0 + done) ||
             (ids == had + [id] && log == log0 + done + [Created(cs[|had|].name, id)])
    ensures exists more :: log == log0 + more && StoppedTrace(more, cs, ids)
  {
    hide Trace;
    if ids == had {
      assert StoppedTrace(done, cs, ids);
    } else {
      var more := done + [Created(cs[|had|].name, id)];
      assert ids[..|ids| - 1] == had;
      assert StoppedTrace(more, cs, ids) && log == log0 + more;
    }
  }

  ghost function NoTrace(cs: seq<Container>): (t: seq<Event>)
    ensures t == [] && t == Trace(cs[..0], [])
  {
    []
  }

  lemma TraceSnoc(cs: seq<Container>, i: nat, ids: seq<nat>, id: nat)
    requires i < |cs| && |ids| == i
    ensures Trace(cs[..i + 1], ids + [id]) ==
            Trace(cs[..i], ids) + [Created(cs[i].name, id)] + (if cs[i].waitHealthy then [SawHealthy(id)] else [])
  {
    assert cs[..i + 1][..i] == cs[..i] && (ids + [id])[..i] == ids;
  }

  lemma RefsStay(c: Container, w: World, v: World)
    requires RefsExist(c, w) && v == w.(containers := v.containers)
    ensures RefsExist(c, v)
  {
  }

  lemma NamesStayFree(w: World, v: World, cs: seq<Container>, i: nat, id: nat)
    requires i < |cs| && Distinct(ContainerNames(cs))
    requires id !in w.containers && OnlyChanged(w, v, id) && v.containers[id] == Wanted(cs[i])
    requires forall k :: i <= k < |cs| ==> !NameTaken(w, cs[k].name)
    ensures forall k :: i < k < |cs| ==> !NameTaken(v, cs[k].name)
  {
    hide NameTaken;
    forall k | i < k < |cs| ensures !NameTaken(v, cs[k].name) {
      assert ContainerNames(cs)[i] != ContainerNames(cs)[k];
      if NameTaken(v, cs[k].name) {
        NameAdded(w, v, id, cs[k].name);
      }
    }
  }

  // ----- Apply

  /** After planning and pulling, the networks and volumes to create complete what the containers refer to. */
  lemma AllRefsExist(spec: HostSpec, paths: Paths, w: World, v: World, i: nat)
    requires SpecOk(spec, paths) && i < |spec.containers|
    requires v.networks.Keys == w.networks.Keys + AsSet(Missing(NetworkNames(spec.networks), w.networks.Keys))
    requires v.volumes == w.volumes + AsSet(Missing(spec.volumes, w.volumes))
    requires Images(spec.containers) <= v.images
    ensures RefsExist(spec.containers[i], v)
  {
    var c := spec.containers[i];
    var nets := NetworkNames(spec.networks);
    MissingFacts(nets, w.networks.Keys);
    MissingFacts(spec.volumes, w.volumes);
    assert ContainerOk(c, AsSet(nets), AsSet(spec.volumes), paths);
    ContainerRefs(c, AsSet(nets), AsSet(spec.volumes), paths);
    assert c.image in Images(spec.containers);
    forall x | x in AsSet(nets) ensures x in v.networks {
    }
    forall x | x in AsSet(spec.volumes) ensures x in v.volumes {
    }
  }

  lemma ContainerRefs(c: Container, nets: set<string>, vols: set<string>, paths: Paths)
    requires ContainerOk(c, nets, vols, paths)
    ensures MountedVolumes(c) <= vols
    ensures forall i :: 0 <= i < |c.networks| ==> c.networks[i].name in nets
  {
    hide ImageOk, EnvKeyOk, PortOk, FileOk, CapOk, FilesSize;
    forall i | 0 <= i < |c.networks| ensures c.networks[i].name in nets {
      assert AttachOk(c.networks[i], nets);
    }
    forall v | v in MountedVolumes(c) ensures v in vols {
      var i :| 0 <= i < |c.mounts| && c.mounts[i].kind == "volume" && c.mounts[i].source == v;
      assert MountOk(c.mounts[i], vols, paths);
    }
  }

  /** `run`: networks, volumes, containers; the journal tracks what was created, whatever happens. */
  method RunPlan(d: Daemon, spec: HostSpec, plan: Plan, paths: Paths, opt: Options, ghost base: World)
    returns (ok: bool, j: Journal, ghost names: seq<string>, res: seq<Deployed>)
    requires Normalised(opt) && WellFormed(d.w) && base == d.w
    requires SpecOk(spec, paths) && NoConflict(d.w, spec.containers) && Images(spec.containers) <= d.w.images
    requires plan.networks == Missing(NetworkNames(spec.networks), d.w.networks.Keys)
    requires plan.volumes == Missing(spec.volumes, d.w.volumes)
    modifies d`w, d`badRefs, d`log, d`now, d`started
    ensures Tracks(d.w, base, j, names)
    ensures d.w.images == old(d.w.images) && d.badRefs == old(d.badRefs)
    ensures d.reliable && d.healthyAfter <= opt.healthTimeout ==> ok
    ensures exists more :: d.log == old(d.log) + more && StoppedTrace(more, spec.containers, j.containers)
    ensures ok ==> |j.containers| == |spec.containers| && d.log == old(d.log) + Trace(spec.containers, j.containers)
    ensures ok ==> AllWanted(d.w, spec.containers, j.containers)
    ensures ok ==> d.w.networks.Keys == base.networks.Keys + AsSet(NetworkNames(spec.networks))
    ensures ok ==> d.w.volumes == base.volumes + AsSet(spec.volumes)
    ensures ok ==> |res| == |spec.containers| &&
                   forall i :: 0 <= i < |res| ==> res[i] == Deployed(spec.containers[i].name, j.containers[i])
  {
    hide Tracks, Missing, ContainerOk, RefsExist, Trace, AllWanted;
    res := [];
    ghost var cs := spec.containers;
    assert d.log == old(d.log) + [];
    NothingRun(cs);
    MissingFacts(NetworkNames(spec.networks), d.w.networks.Keys);
    MissingFacts(spec.volumes, d.w.volumes);
    ok, j, names := CreateNetworks(d, plan.networks, base);
    if !ok {
      return false, j, names, res;
    }
    ok, j := CreateVolumes(d, plan.volumes, j, names, base);
    if !ok {
      return false, j, names, res;
    }
    forall i | 0 <= i < |cs| ensures RefsExist(cs[i], d.w) {
      AllRefsExist(spec, paths, base, d.w, i);
    }
    assert NoConflict(d.w, cs) by {
      forall i | 0 <= i < |cs| ensures !NameTaken(d.w, cs[i].name) {
        assert !NameTaken(base, cs[i].name);
      }
    }
    ok, j, res := DeployContainers(d, spec.containers, opt, j, names, base);
    MissingCompletes(NetworkNames(spec.networks), base.networks.Keys);
    MissingCompletes(spec.volumes, base.volumes);
  }

  lemma MissingCompletes(names: seq<string>, have: set<string>)
    requires Distinct(names)
    ensures have + AsSet(Missing(names, have)) == have + AsSet(names)
  {
    MissingFacts(names, have);
  }

  lemma NothingRun(cs: seq<Container>)
    ensures StoppedTrace([], cs, [])
  {
  }

  method PullAll(d: Daemon, images: seq<string>) returns (ok: bool)
    modifies d`w
    ensures d.w == old(d.w).(images := d.w.images) && old(d.w).images <= d.w.images
    ensures ok ==> d.w.images == old(d.w).images + AsSet(images)
    ensures d.reliable ==> ok
  {
    for i := 0 to |images|
      invariant d.w == old(d.w).(images := old(d.w).images + AsSet(images[..i]))
    {
      ok := d.PullImage(images[i]);
      if !ok {
        return false;
      }
      assert images[..i + 1] == images[..i] + [images[i]];
    }
    assert images[..|images|] == images;
    ok := true;
  }

  /** The images pulled: those of the containers that are not there yet, or all when told so, each once. */
  lemma {:induction false} PullsExactly(cs: seq<Container>, images: set<string>, always: bool)
    ensures Distinct(Pulls(cs, images, always))
    ensures forall x :: x in Pulls(cs, images, always) <==> x in Images(cs) && (always || x !in images)
  {
    if cs != [] {
      var k := |cs| - 1;
      PullsExactly(cs[..k], images, always);
      ImagesSnoc(cs, k);
      assert cs[..k + 1] == cs;
    }
  }

  lemma {:induction false} PullsCover(cs: seq<Container>, images: set<string>, always: bool)
    ensures Images(cs) <= images + AsSet(Pulls(cs, images, always))
  {
    if cs != [] {
      var k := |cs| - 1;
      PullsCover(cs[..k], images, always);
      ImagesSnoc(cs, k);
      assert cs[..k + 1] == cs;
      var before, all := Pulls(cs[..k], images, always), Pulls(cs, images, always);
      assert before <= all;
      assert forall x :: x in before ==> x in all;
      assert cs[k].image in Images(cs[..k]) || cs[k].image in images || cs[k].image in all;
    }
  }

  /**
    `Apply`. A failure at any step leaves the containers, volumes and networks exactly as before, with no deletion refused;
    no request ever names something missing; and when the daemon rejects only bad references and containers become healthy
    in time, a valid description without conflict is deployed, every container that must be healthy being seen so before
    the next is created.
   */
  method Apply(d: Daemon, spec: HostSpec, paths: Paths, opt: Options) returns (ok: bool, complete: bool, res: seq<Deployed>)
    requires Normalised(opt) && WellFormed(d.w)
    modifies d
    ensures !ok ==> complete && d.w == old(d.w).(images := d.w.images) && old(d.w).images <= d.w.images
    ensures d.inUse == old(d.inUse) && d.badRefs == old(d.badRefs)
    ensures ok ==> SpecOk(spec, paths) && old(NoConflict(d.w, spec.containers)) && WellFormed(d.w)
    ensures ok ==> DeployedAs(old(d.w), d.w, spec, res)
    ensures ok ==> |res| == |spec.containers| && d.log == old(d.log) + Trace(spec.containers, ResultIds(res))
    ensures !ok ==> StoppedAfter(old(d.log), d.log, spec.containers)
    ensures (d.reliable && d.healthyAfter <= opt.healthTimeout && SpecOk(spec, paths) &&
             old(NoConflict(d.w, spec.containers))) ==> ok
  {
    hide SpecOk, Missing, Pulls, Trace, StoppedTrace, WellFormed, TracksNetworks, TracksVolumes, AllWanted;
    complete, res := true, [];
    NothingStopped(d.log, spec.containers);
    var plan := MakePlan(d, spec, paths, opt);
    if plan.None? {
      return false, true, [];
    }
    ok := PullAll(d, plan.value.pull);
    if !ok {
      return false, true, [];
    }
    PullsCover(spec.containers, old(d.w).images, opt.pullAlways);
    SameButImages(old(d.w), d.w, spec.containers);
    ghost var base := d.w;
    var j;
    ghost var names;
    ok, j, names, res := RunPlan(d, spec, plan.value, paths, opt, base);
    if !ok {
      assert StoppedAfter(old(d.log), d.log, spec.containers);
      complete := Rollback(d, j, names, base);
      return false, complete, [];
    }
    assert ResultIds(res) == j.containers;
    DeployedFromTracks(base, d.w, spec, j, names, res);
  }

  function ResultIds(res: seq<Deployed>): (ids: seq<nat>)
    ensures |ids| == |res| && forall i :: 0 <= i < |res| ==> ids[i] == res[i].id
  {
    seq(|res|, i requires 0 <= i < |res| => res[i].id)
  }

  /**
    The outcome of a deployment: each described container is there, on all its networks, with its volumes and files, and
    started; the described networks and volumes exist; and everything that was there before is unchanged.
   */
  ghost predicate DeployedAs(w: World, v: World, spec: HostSpec, res: seq<Deployed>) {
    && |res| == |spec.containers|
    && (forall i :: 0 <= i < |res| ==> res[i].name == spec.containers[i].name)
    && AllWanted(v, spec.containers, ResultIds(res))
    && v.containers.Keys == w.containers.Keys + Ids(ResultIds(res))
    && (forall x :: x in w.containers ==> v.containers[x] == w.containers[x])
    && v.volumes == w.volumes + AsSet(spec.volumes)
    && v.networks.Keys == w.networks.Keys + AsSet(NetworkNames(spec.networks))
    && (forall n :: n in w.networks ==> v.networks[n] == w.networks[n])
  }

  lemma DeployedFromTracks(base: World, v: World, spec: HostSpec, j: Journal, names: seq<string>, res: seq<Deployed>)
    requires Tracks(v, base, j, names) && |res| == |spec.containers| && ResultIds(res) == j.containers
    requires forall i :: 0 <= i < |res| ==> res[i] == Deployed(spec.containers[i].name, j.containers[i])
    requires AllWanted(v, spec.containers, j.containers)
    requires v.volumes == base.volumes + AsSet(spec.volumes)
    requires v.networks.Keys == base.networks.Keys + AsSet(NetworkNames(spec.networks))
    ensures DeployedAs(base, v, spec, res)
  {
    hide AllWanted, TracksVolumes, WellFormed;
  }

  lemma SameButImages(w: World, v: World, cs: seq<Container>)
    requires v == w.(images := v.images)
    ensures WellFormed(w) ==> WellFormed(v)
    ensures NoConflict(w, cs) ==> NoConflict(v, cs)
  {
    forall i | 0 <= i < |cs| && NoConflict(w, cs) ensures !NameTaken(v, cs[i].name) {
      assert !NameTaken(w, cs[i].name);
    }
  }
}
