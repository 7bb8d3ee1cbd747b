/** The engine-runtime sidecars of a role: containers and volumes of a profile, and the role's overrides of them. */
module Sidecars {
  import opened Wrappers
  import opened PodTemplate
  import opened Sorting

  /** `initNames` are the names of the profile's init containers. */
  datatype Profile = Profile(initNames: seq<string>, containers: seq<Container>, volumes: seq<Volume>)

  /** Variables and arguments a role adds to a container of the profile. */
  datatype Override = Override(name: string, env: seq<EnvVar>, args: seq<string>)

  /** `profile` is None if the cluster has no profile of that name. */
  datatype EngineRuntime = EngineRuntime(profile: Option<Profile>, overrides: seq<Override>)

  // ---------- What the injection comes to ----------

  /** Append, one by one, those whose name is not there yet. */
  function AddMissing<T>(s: seq<T>, extra: seq<T>, name: T -> string): seq<T> {
    if extra == [] then s
    else
      var front := AddMissing(s, extra[..|extra| - 1], name);
      if name(extra[|extra| - 1]) in Names(front, name) then front else front + [extra[|extra| - 1]]
  }

  function FirstContainer(cs: seq<Container>, name: string): (k: nat)
    ensures k <= |cs| && (k < |cs| ==> cs[k].name == name)
    ensures forall j :: 0 <= j < k ==> cs[j].name != name
  {
    if cs == [] || cs[0].name == name then 0 else 1 + FirstContainer(cs[1..], name)
  }

  function Overridden(cs: seq<Container>, known: seq<string>, o: Override): seq<Container> {
    var k := FirstContainer(cs, o.name);
    if o.name !in known || k == |cs| then cs
    else cs[k := cs[k].(env := cs[k].env + o.env, args := cs[k].args + o.args)]
  }

  function OverriddenAll(cs: seq<Container>, known: seq<string>, overrides: seq<Override>): seq<Container> {
    if overrides == [] then cs
    else Overridden(OverriddenAll(cs, known, overrides[..|overrides| - 1]), known, overrides[|overrides| - 1])
  }

  function KnownNames(p: Profile): seq<string> { p.initNames + Names(p.containers, ContainerName) }

  /** All of the role's runtimes, in order; None if a profile is missing. */
  function WithSidecars(cs: seq<Container>, volumes: seq<Volume>, runtimes: seq<EngineRuntime>)
    : Option<(seq<Container>, seq<Volume>)>
  {
    if runtimes == [] then Some((cs, volumes))
    else
      var front, last := WithSidecars(cs, volumes, runtimes[..|runtimes| - 1]), runtimes[|runtimes| - 1];
      if front.None? || last.profile.None? then None
      else
        var p := last.profile.value;
        Some((OverriddenAll(AddMissing(front.value.0, p.containers, ContainerName), KnownNames(p), last.overrides),
              AddMissing(front.value.1, p.volumes, VolumeName)))
  }

  // ---------- In place ----------

  method AddMissingLoop<T>(s: seq<T>, extra: seq<T>, name: T -> string) returns (r: seq<T>)
    ensures r == AddMissing(s, extra, name)
  {
    r := s;
    for i := 0 to |extra|
      invariant r == AddMissing(s, extra[..i], name)
    {
      assert extra[..i + 1][..i] == extra[..i];
      var found := false;
      for j := 0 to |r|
        invariant found <==> name(extra[i]) in Names(r[..j], name)
      {
        assert Names(r[..j + 1], name) == Names(r[..j], name) + [name(r[j])];
        if name(r[j]) == name(extra[i]) {
          found := true;
        }
      }
      assert r[..|r|] == r;
      if !found {
        r := r + [extra[i]];
      }
    }
    assert extra[..|extra|] == extra;
  }

  /** The part of the sidecar injection that touches containers and volumes; false if a profile is missing. */
  method InjectSidecar(template: Template, runtimes: seq<EngineRuntime>) returns (ok: bool)
    modifies template
    ensures ok <==> WithSidecars(old(template.containers), old(template.volumes), runtimes).Some?
    ensures ok ==> Some((template.containers, template.volumes))
                   == WithSidecars(old(template.containers), old(template.volumes), runtimes)
  {
    ghost var cs, volumes := template.containers, template.volumes;
    for i := 0 to |runtimes|
      invariant WithSidecars(cs, volumes, runtimes[..i]) == Some((template.containers, template.volumes))
    {
      assert runtimes[..i + 1][..i] == runtimes[..i];
      if runtimes[i].profile.None? {
        MissingProfile(cs, volumes, runtimes, i);
        return false;
      }
      var p := runtimes[i].profile.value;
      template.containers := AddMissingLoop(template.containers, p.containers, ContainerName);
      template.volumes := AddMissingLoop(template.volumes, p.volumes, VolumeName);
      template.containers := OverrideLoop(template.containers, KnownNames(p), runtimes[i].overrides);
    }
    assert runtimes[..|runtimes|] == runtimes;
    return true;
  }

  lemma {:induction false} MissingProfile(cs: seq<Container>, volumes: seq<Volume>, runtimes: seq<EngineRuntime>,
                                          i: nat)
    requires i < |runtimes| && runtimes[i].profile.None?
    ensures WithSidecars(cs, volumes, runtimes).None?
  {
    if i < |runtimes| - 1 {
      MissingProfile(cs, volumes, runtimes[..|runtimes| - 1], i);
    }
  }

  method OverrideLoop(cs: seq<Container>, known: seq<string>, overrides: seq<Override>) returns (r: seq<Container>)
    ensures r == OverriddenAll(cs, known, overrides)
  {
    r := cs;
    for i := 0 to |overrides|
      invariant r == OverriddenAll(cs, known, overrides[..i])
    {
      assert overrides[..i + 1][..i] == overrides[..i];
      var o := overrides[i];
      if o.name !in known {
        continue;
      }
      ghost var before := r;
      for j := 0 to |r|
        invariant r == before && forall l :: 0 <= l < j ==> r[l].name != o.name
      {
        if r[j].name == o.name {
          r := r[j := r[j].(env := r[j].env + o.env, args := r[j].args + o.args)];
          assert FirstContainer(before, o.name) == j;
          break;
        }
      }
      assert r == Overridden(before, known, o);
    }
    assert overrides[..|overrides|] == overrides;
  }

  // ---------- What it keeps ----------

  lemma {:induction false} AddMissingNames<T>(s: seq<T>, extra: seq<T>, name: T -> string)
    ensures s <= AddMissing(s, extra, name)
    ensures DistinctNames(s, name) ==> DistinctNames(AddMissing(s, extra, name), name)
    ensures forall n :: n in Names(AddMissing(s, extra, name), name) <==> n in Names(s, name) || n in Names(extra, name)
  {
    if extra != [] {
      var front, last := extra[..|extra| - 1], extra[|extra| - 1];
      AddMissingNames(s, front, name);
      var r := AddMissing(s, front, name);
      assert extra == front + [last];
      assert Names(extra, name) == Names(front, name) + [name(last)];
      assert Names(r + [last], name) == Names(r, name) + [name(last)];
      if name(last) !in Names(r, name) {
        forall i | 0 <= i < |r| ensures name(r[i]) != name(last) {
          assert Names(r, name)[i] == name(r[i]);
        }
      }
    }
  }

  /** The container with more variables and arguments at the end. */
  predicate Extended(c: Container, c': Container) {
    c' == c.(env := c'.env, args := c'.args) && c.env <= c'.env && c.args <= c'.args
  }

  lemma {:induction false} OverridesExtend(cs: seq<Container>, known: seq<string>, overrides: seq<Override>)
    ensures var r := OverriddenAll(cs, known, overrides);
            |r| == |cs| && forall i :: 0 <= i < |cs| ==>
              Extended(cs[i], r[i]) && (cs[i].name !in known ==> r[i] == cs[i])
  {
    if overrides != [] {
      OverridesExtend(cs, known, overrides[..|overrides| - 1]);
    }
  }

  /** Some profile of the role's runtimes has a container or init container of that name. */
  predicate Profiled(runtimes: seq<EngineRuntime>, name: string) {
    exists rt <- runtimes :: rt.profile.Some? && name in KnownNames(rt.profile.value)
  }

  lemma ProfiledFront(runtimes: seq<EngineRuntime>, name: string)
    requires runtimes != []
    ensures Profiled(runtimes[..|runtimes| - 1], name) ==> Profiled(runtimes, name)
    ensures var last := runtimes[|runtimes| - 1];
            last.profile.Some? && name in KnownNames(last.profile.value) ==> Profiled(runtimes, name)
  {
    assert runtimes == runtimes[..|runtimes| - 1] + [runtimes[|runtimes| - 1]];
  }

  /**
   The template's own containers and volumes stay where they were, containers with variables and
   arguments added at most, and those only if a profile has their name; names stay unique.
   */
  lemma {:induction false} SidecarsExtend(cs: seq<Container>, volumes: seq<Volume>, runtimes: seq<EngineRuntime>)
    requires WithSidecars(cs, volumes, runtimes).Some?
    ensures var (cs', volumes') := WithSidecars(cs, volumes, runtimes).value;
            && volumes <= volumes' && |cs| <= |cs'|
            && (forall i :: 0 <= i < |cs| ==>
                  Extended(cs[i], cs'[i]) && (!Profiled(runtimes, cs[i].name) ==> cs'[i] == cs[i]))
            && (DistinctNames(cs, ContainerName) ==> DistinctNames(cs', ContainerName))
  {
    if runtimes != [] {
      var front, last := runtimes[..|runtimes| - 1], runtimes[|runtimes| - 1];
      SidecarsExtend(cs, volumes, front);
      var (cs1, volumes1) := WithSidecars(cs, volumes, front).value;
      var p := last.profile.value;
      var cs2 := AddMissing(cs1, p.containers, ContainerName);
      AddMissingNames(cs1, p.containers, ContainerName);
      AddMissingNames(volumes1, p.volumes, VolumeName);
      OverridesExtend(cs2, KnownNames(p), last.overrides);
      var cs3 := OverriddenAll(cs2, KnownNames(p), last.overrides);
      hide OverriddenAll, AddMissing, WithSidecars, KnownNames;
      forall i | 0 <= i < |cs|
        ensures Extended(cs[i], cs3[i]) && (!Profiled(runtimes, cs[i].name) ==> cs3[i] == cs[i])
      {
        assert cs2[i] == cs1[i];
        ProfiledFront(runtimes, cs[i].name);
      }
    }
  }

  // ---------- What it adds ----------

  /** What the overrides of one name add, in their order. */
  function AddedEnv(overrides: seq<Override>, name: string): seq<EnvVar> {
    if overrides == [] then []
    else
      var front, last := AddedEnv(overrides[..|overrides| - 1], name), overrides[|overrides| - 1];
      if last.name == name then front + last.env else front
  }

  function AddedArgs(overrides: seq<Override>, name: string): seq<string> {
    if overrides == [] then []
    else
      var front, last := AddedArgs(overrides[..|overrides| - 1], name), overrides[|overrides| - 1];
      if last.name == name then front + last.args else front
  }

  function WithAdded(c: Container, overrides: seq<Override>): Container {
    c.(env := c.env + AddedEnv(overrides, c.name), args := c.args + AddedArgs(overrides, c.name))
  }

  /** With unique names every container a profile has gets all that the overrides of its name add, and nothing else. */
  lemma {:induction false} OverridesCollected(cs: seq<Container>, known: seq<string>, overrides: seq<Override>, i: nat)
    requires DistinctNames(cs, ContainerName) && i < |cs| && cs[i].name in known
    ensures |OverriddenAll(cs, known, overrides)| == |cs|
    ensures OverriddenAll(cs, known, overrides)[i]
            == WithAdded(cs[i], overrides)
  {
    if overrides == [] {
      assert cs[i].env + [] == cs[i].env && cs[i].args + [] == cs[i].args;
    } else {
      var front, last := overrides[..|overrides| - 1], overrides[|overrides| - 1];
      OverridesCollected(cs, known, front, i);
      OverridesExtend(cs, known, front);
      var before := OverriddenAll(cs, known, front);
      var k := FirstContainer(before, last.name);
      assert forall j :: 0 <= j < |cs| ==> before[j].name == cs[j].name;
      if last.name == cs[i].name {
        assert ContainerName(cs[k]) == ContainerName(cs[i]);
        assert k == i;
        assert before[i].env + last.env == cs[i].env + (AddedEnv(front, last.name) + last.env);
        assert before[i].args + last.args == cs[i].args + (AddedArgs(front, last.name) + last.args);
      } else {
        assert k != i;
      }
    }
  }

  /** What is added without a name being there yet comes from the extra entries. */
  lemma {:induction false} MissingAdded<T>(s: seq<T>, extra: seq<T>, name: T -> string)
    ensures var r := AddMissing(s, extra, name);
            |s| <= |r| && forall i :: |s| <= i < |r| ==> r[i] in extra && name(r[i]) !in Names(s, name)
  {
    if extra != [] {
      var front, last := extra[..|extra| - 1], extra[|extra| - 1];
      MissingAdded(s, front, name);
      AddMissingNames(s, front, name);
      assert extra == front + [last];
      assert forall x :: x in front ==> x in extra;
    }
  }

  /** A container of the profile, not named in the template, with what the overrides add. */
  predicate AddedByProfile(cs: seq<Container>, p: Profile, overrides: seq<Override>, c': Container) {
    exists c :: c in p.containers && c.name !in Names(cs, ContainerName) && c' == WithAdded(c, overrides)
  }

  /** The profile's containers that the template lacks come behind the template's own, overridden like those. */
  lemma RuntimeContainers(cs: seq<Container>, p: Profile, overrides: seq<Override>)
    requires DistinctNames(cs, ContainerName)
    ensures var cs' := OverriddenAll(AddMissing(cs, p.containers, ContainerName), KnownNames(p), overrides);
            && |cs| <= |cs'|
            && (forall i :: 0 <= i < |cs| ==>
                  cs'[i] == if cs[i].name in p.initNames || cs[i].name in Names(p.containers, ContainerName)
                           then WithAdded(cs[i], overrides) else cs[i])
            && (forall i :: |cs| <= i < |cs'| ==> AddedByProfile(cs, p, overrides, cs'[i]))
  {
    var mid := AddMissing(cs, p.containers, ContainerName);
    AddMissingNames(cs, p.containers, ContainerName);
    MissingAdded(cs, p.containers, ContainerName);
    OverridesExtend(mid, KnownNames(p), overrides);
    var cs' := OverriddenAll(mid, KnownNames(p), overrides);
    hide OverriddenAll, AddMissing, WithAdded;
    forall i | 0 <= i < |mid| && mid[i].name in KnownNames(p) ensures cs'[i] == WithAdded(mid[i], overrides) {
      OverridesCollected(mid, KnownNames(p), overrides, i);
    }
    assert |cs'| == |mid|;
    forall i | |cs| <= i < |cs'|
      ensures AddedByProfile(cs, p, overrides, cs'[i])
    {
      NameIn(p.containers, ContainerName, mid[i]);
      var c := mid[i];
      assert c in p.containers && c.name !in Names(cs, ContainerName) && cs'[i] == WithAdded(c, overrides);
    }
  }

  lemma AllThere<T>(s: seq<T>, extra: seq<T>, name: T -> string)
    ensures var r := AddMissing(s, extra, name);
            forall x <- extra :: exists i :: 0 <= i < |r| && name(r[i]) == name(x)
  {
    AddMissingNames(s, extra, name);
    var r := AddMissing(s, extra, name);
    forall x | x in extra ensures exists i :: 0 <= i < |r| && name(r[i]) == name(x) {
      NameIn(extra, name, x);
      var i :| 0 <= i < |Names(r, name)| && Names(r, name)[i] == name(x);
      assert name(r[i]) == name(x);
    }
  }

  /**
   One runtime, written out: the profile's containers that the template lacks come behind the
   template's own; each container the profile names has the overrides' variables and arguments
   appended in order and any other is as it was; the volumes that are missing come behind the own.
   */
  lemma OneRuntime(cs: seq<Container>, volumes: seq<Volume>, p: Profile, overrides: seq<Override>)
    requires DistinctNames(cs, ContainerName)
    ensures var injected := WithSidecars(cs, volumes, [EngineRuntime(Some(p), overrides)]);
            && injected.Some?
            && var (cs', volumes') := injected.value;
               && |cs| <= |cs'| && volumes <= volumes'
               && (forall i :: 0 <= i < |cs| ==>
                     cs'[i] == if cs[i].name in p.initNames || cs[i].name in Names(p.containers, ContainerName)
                           then WithAdded(cs[i], overrides) else cs[i])
               && (forall i :: |cs| <= i < |cs'| ==> AddedByProfile(cs, p, overrides, cs'[i]))
               && (forall c <- p.containers :: exists i :: 0 <= i < |cs'| && cs'[i].name == c.name)
               && (forall v <- p.volumes :: exists i :: 0 <= i < |volumes'| && volumes'[i].name == v.name)
               && (forall i :: |volumes| <= i < |volumes'| ==> volumes'[i] in p.volumes)
  {
    var rt := EngineRuntime(Some(p), overrides);
    assert [rt][..0] == [];
    var mid, volumes' := AddMissing(cs, p.containers, ContainerName), AddMissing(volumes, p.volumes, VolumeName);
    var cs' := OverriddenAll(mid, KnownNames(p), overrides);
    assert WithSidecars(cs, volumes, []) == Some((cs, volumes));
    assert WithSidecars(cs, volumes, [rt]) == Some((cs', volumes'));
    RuntimeContainers(cs, p, overrides);
    OverridesExtend(mid, KnownNames(p), overrides);
    AllThere(cs, p.containers, ContainerName);
    AllThere(volumes, p.volumes, VolumeName);
    AddMissingNames(volumes, p.volumes, VolumeName);
    MissingAdded(volumes, p.volumes, VolumeName);
    hide WithSidecars, OverriddenAll, AddMissing, WithAdded, KnownNames;
    forall c | c in p.containers ensures exists i :: 0 <= i < |cs'| && cs'[i].name == c.name {
      var i :| 0 <= i < |mid| && ContainerName(mid[i]) == ContainerName(c);
      assert cs'[i].name == c.name;
    }
    forall v | v in p.volumes ensures exists i :: 0 <= i < |volumes'| && volumes'[i].name == v.name {
      var i :| 0 <= i < |volumes'| && VolumeName(volumes'[i]) == VolumeName(v);
      assert volumes'[i].name == v.name;
    }
  }

  lemma NameIn<T>(s: seq<T>, name: T -> string, x: T)
    requires x in s
    ensures name(x) in Names(s, name)
  {
    var i :| 0 <= i < |s| && s[i] == x;
    assert Names(s, name)[i] == name(x);
  }
}
