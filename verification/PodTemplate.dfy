/** Pod templates, and what the discovery injector puts into them. */
module PodTemplate {
  import Sorting
  import Group

  /** `valueFrom` is the field path of a downward-API source, empty if there is none. */
  datatype EnvVar = EnvVar(name: string, value: string, valueFrom: string)
  datatype VolumeMount = VolumeMount(name: string, mountPath: string)
  datatype Volume = Volume(name: string, source: string)

  datatype Container = Container(
    name: string, image: string, command: seq<string>, args: seq<string>, ports: seq<string>, resources: string,
    imagePullPolicy: string, env: seq<EnvVar>, volumeMounts: seq<VolumeMount>)

  function EnvName(e: EnvVar): string { e.name }
  function VolumeName(v: Volume): string { v.name }
  function MountName(m: VolumeMount): string { m.name }
  function ContainerName(c: Container): string { c.name }

  // ---------- Environment variables as a map ----------

  type EnvMap = map<string, EnvVar>

  /** Of variables with the same name the last one counts. */
  function ToMap(env: seq<EnvVar>): EnvMap {
    if env == [] then map[] else ToMap(env[..|env| - 1])[env[|env| - 1].name := env[|env| - 1]]
  }

  lemma {:induction false} ToMapKeyed(env: seq<EnvVar>)
    ensures forall k <- ToMap(env) :: ToMap(env)[k].name == k && ToMap(env)[k] in env
    ensures forall e <- env :: e.name in ToMap(env)
  {
    if env != [] {
      ToMapKeyed(env[..|env| - 1]);
      assert env == env[..|env| - 1] + [env[|env| - 1]];
    }
  }

  /** What the container had, overridden by what is injected. */
  function Merged(existing: seq<EnvVar>, injected: seq<EnvVar>): EnvMap { ToMap(existing) + ToMap(injected) }

  /** Name-sorted, without repetitions, and holding exactly the map's variables. */
  predicate IsCanonical(env: seq<EnvVar>, m: EnvMap) {
    && Sorting.Sorted(env, EnvName) && Sorting.DistinctNames(env, EnvName)
    && (forall e <- env :: e.name in m && m[e.name] == e)
    && (forall k <- m :: m[k] in env)
  }

  predicate Keyed(m: EnvMap) { forall k <- m :: m[k].name == k }

  lemma {:induction false} CanonicalToMap(env: seq<EnvVar>, m: EnvMap)
    requires IsCanonical(env, m) && Keyed(m)
    ensures ToMap(env) == m
  {
    ToMapKeyed(env);
    forall k | k in m ensures k in ToMap(env) && ToMap(env)[k] == m[k] {
      assert m[k] in env;
      Sorting.SameNameSameElement(env, EnvName, ToMap(env)[k], m[k]);
    }
    forall k | k in ToMap(env) ensures k in m {
      assert ToMap(env)[k] in env;
    }
  }

  /** The merged map has one canonical list, whatever order the map is iterated in. */
  lemma CanonicalUnique(a: seq<EnvVar>, b: seq<EnvVar>, m: EnvMap)
    requires IsCanonical(a, m) && IsCanonical(b, m) && Keyed(m)
    ensures a == b
  {
    forall x ensures x in Sorting.NameSet(a, EnvName) <==> x in Sorting.NameSet(b, EnvName) {
      if x in Sorting.NameSet(a, EnvName) {
        var e :| e in a && e.name == x;
        assert m[x] in b && m[x].name == x;
      }
      if x in Sorting.NameSet(b, EnvName) {
        var e :| e in b && e.name == x;
        assert m[x] in a && m[x].name == x;
      }
    }
    Sorting.DistinctNamesAsSet(a, EnvName);
    Sorting.DistinctNamesAsSet(b, EnvName);
    Sorting.SortedNamesAgree(a, b, EnvName);
    assert |Sorting.Names(a, EnvName)| == |Sorting.Names(b, EnvName)|;
    forall i | 0 <= i < |a| ensures a[i] == b[i] {
      assert Sorting.Names(a, EnvName)[i] == Sorting.Names(b, EnvName)[i];
      assert a[i] in a && b[i] in b;
    }
  }

  lemma MergedKeyed(existing: seq<EnvVar>, injected: seq<EnvVar>)
    ensures Keyed(Merged(existing, injected))
  {
    hide ToMap;
    ToMapKeyed(existing);
    ToMapKeyed(injected);
  }

  /** Injecting the same variables again changes nothing. */
  lemma InjectionIdempotent(existing: seq<EnvVar>, injected: seq<EnvVar>, once: seq<EnvVar>, twice: seq<EnvVar>)
    requires IsCanonical(once, Merged(existing, injected)) && IsCanonical(twice, Merged(once, injected))
    ensures once == twice
  {
    hide IsCanonical, ToMap;
    MergedKeyed(existing, injected);
    CanonicalToMap(once, Merged(existing, injected));
    assert Merged(once, injected) == Merged(existing, injected);
    CanonicalUnique(once, twice, Merged(existing, injected));
  }

  /** Every injected name ends up with its injected variable; every other name keeps its last one. */
  lemma InjectionOverrides(existing: seq<EnvVar>, injected: seq<EnvVar>, result: seq<EnvVar>, e: EnvVar)
    requires IsCanonical(result, Merged(existing, injected))
    ensures e in result <==> if e.name in ToMap(injected) then ToMap(injected)[e.name] == e
                             else e.name in ToMap(existing) && ToMap(existing)[e.name] == e
  {
    ToMapKeyed(existing);
    ToMapKeyed(injected);
    var m := Merged(existing, injected);
    if e.name in m && m[e.name] == e {
      assert m[e.name] in result;
    }
  }

  /** No later variable of the list has its name. */
  predicate LastNamed(env: seq<EnvVar>, e: EnvVar) {
    exists i :: 0 <= i < |env| && env[i] == e && forall j :: i < j < |env| ==> env[j].name != e.name
  }

  lemma {:induction false} ToMapLast(env: seq<EnvVar>, e: EnvVar)
    ensures (e.name in ToMap(env) && ToMap(env)[e.name] == e) <==> LastNamed(env, e)
    ensures e.name in ToMap(env) <==> exists i :: 0 <= i < |env| && env[i].name == e.name
  {
    if env != [] {
      var front, last := env[..|env| - 1], env[|env| - 1];
      ToMapLast(front, e);
      assert forall i :: 0 <= i < |front| ==> front[i] == env[i];
      if last.name == e.name {
        assert env[|env| - 1].name == e.name;
      } else if LastNamed(env, e) {
        var i :| 0 <= i < |env| && env[i] == e && forall j :: i < j < |env| ==> env[j].name != e.name;
        assert front[i] == e;
      }
    }
  }

  /** Written out: the last injected variable of a name, or if none is injected the last one there was. */
  lemma InjectedExactly(existing: seq<EnvVar>, injected: seq<EnvVar>, result: seq<EnvVar>, e: EnvVar)
    requires IsCanonical(result, Merged(existing, injected))
    ensures e in result <==>
              if exists i :: 0 <= i < |injected| && injected[i].name == e.name then LastNamed(injected, e)
              else LastNamed(existing, e)
  {
    InjectionOverrides(existing, injected, result, e);
    ToMapLast(injected, e);
    ToMapLast(existing, e);
    hide ToMap;
  }

  // ---------- The variables of a role ----------

  function LocalRoleVars(group: Group.Group, role: Group.RoleSpec): seq<EnvVar> {
    [EnvVar("GROUP_NAME", group.name, ""), EnvVar("ROLE_NAME", role.name, "")]
    + if role.workload.kind == "StatefulSet" || role.workload.kind == "LeaderWorkerSet" then
        [EnvVar("ROLE_INDEX", "", "metadata.labels['apps.kubernetes.io/pod-index']")]
      else []
  }

  /** No variable depends on a role's size, so scaling does not make pods be created anew. */
  lemma RoleVarsIgnoreSize(group: Group.Group, role: Group.RoleSpec, replicas: nat)
    ensures LocalRoleVars(group, role.(replicas := replicas)) == LocalRoleVars(group, role)
  {
  }

  /** The map's values in the order some iteration yields them, then sorted by name. */
  method SortedValues(m: EnvMap) returns (env: seq<EnvVar>)
    requires Keyed(m)
    ensures IsCanonical(env, m)
  {
    var list, left := [], m.Keys;
    while left != {}
      invariant left <= m.Keys && Sorting.DistinctNames(list, EnvName)
      invariant forall e <- list :: e.name in m && e.name !in left && m[e.name] == e
      invariant forall k <- m :: k in left || m[k] in list
      decreases left
    {
      var k :| k in left;
      list, left := list + [m[k]], left - {k};
    }
    var merged := new EnvVar[|list|](i requires 0 <= i < |list| => list[i]);
    assert merged[..] == list;
    Sorting.SortSlice(merged, EnvName);
    env := merged[..];
    Sorting.DistinctPermutes(list, env, EnvName);
    forall e ensures e in env <==> e in list {
      assert e in multiset(env) <==> e in multiset(list);
    }
  }

  method BuildEnv(group: Group.Group, role: Group.RoleSpec) returns (env: seq<EnvVar>)
    ensures IsCanonical(env, ToMap(LocalRoleVars(group, role)))
  {
    var vars := LocalRoleVars(group, role);
    var envMap := MapOf(map[], vars);
    ToMapKeyed(vars);
    env := SortedValues(envMap);
  }

  lemma {:induction false} ToMapConcat(m: EnvMap, env: seq<EnvVar>, k: nat)
    requires k < |env|
    ensures m + ToMap(env[..k + 1]) == (m + ToMap(env[..k]))[env[k].name := env[k]]
  {
    assert env[..k + 1][..k] == env[..k];
  }

  /** Enter the variables into the map one by one. */
  method MapOf(m: EnvMap, env: seq<EnvVar>) returns (r: EnvMap)
    ensures r == m + ToMap(env)
  {
    r := m;
    for i := 0 to |env|
      invariant r == m + ToMap(env[..i])
    {
      ToMapConcat(m, env, i);
      r := r[env[i].name := env[i]];
    }
    assert env[..|env|] == env;
  }

  /** One container's merge: existing variables into a map, the injected ones over them, then sorted. */
  method MergeEnv(existing: seq<EnvVar>, injected: seq<EnvVar>) returns (env: seq<EnvVar>)
    ensures IsCanonical(env, Merged(existing, injected))
  {
    var m := MapOf(map[], existing);
    m := MapOf(m, injected);
    MergedKeyed(existing, injected);
    assert m == Merged(existing, injected);
    env := SortedValues(m);
  }

  // ---------- The template in place ----------

  const CONFIG_VOLUME := "rbg-cluster-config"
  const CONFIG_PATH := "/etc/rbg"

  function WithConfigVolume(volumes: seq<Volume>, source: string): seq<Volume> {
    if CONFIG_VOLUME in Sorting.NameSet(volumes, VolumeName) then volumes else volumes + [Volume(CONFIG_VOLUME, source)]
  }

  function WithConfigMount(mounts: seq<VolumeMount>): seq<VolumeMount> {
    if VolumeMount(CONFIG_VOLUME, CONFIG_PATH) in mounts then mounts
      else mounts + [VolumeMount(CONFIG_VOLUME, CONFIG_PATH)]
  }

  /** Mounting the configuration again changes nothing. */
  lemma ConfigIdempotent(volumes: seq<Volume>, source: string, mounts: seq<VolumeMount>)
    ensures WithConfigVolume(WithConfigVolume(volumes, source), source) == WithConfigVolume(volumes, source)
    ensures WithConfigMount(WithConfigMount(mounts)) == WithConfigMount(mounts)
  {
    if CONFIG_VOLUME !in Sorting.NameSet(volumes, VolumeName) {
      assert WithConfigVolume(volumes, source)[|volumes|].name == CONFIG_VOLUME;
      assert Volume(CONFIG_VOLUME, source) in WithConfigVolume(volumes, source);
    }
    if VolumeMount(CONFIG_VOLUME, CONFIG_PATH) !in mounts {
      assert WithConfigMount(mounts)[|mounts|] == VolumeMount(CONFIG_VOLUME, CONFIG_PATH);
    }
  }

  /** The configuration is there afterwards, exactly one entry is added, and only where it was missing. */
  lemma ConfigAdded(volumes: seq<Volume>, source: string, mounts: seq<VolumeMount>)
    ensures var volumes' := WithConfigVolume(volumes, source);
            && (exists i :: 0 <= i < |volumes'| && volumes'[i].name == "rbg-cluster-config")
            && (if exists i :: 0 <= i < |volumes| && volumes[i].name == "rbg-cluster-config" then volumes' == volumes
                else volumes' == volumes + [Volume("rbg-cluster-config", source)])
    ensures var mounts' := WithConfigMount(mounts);
            && VolumeMount("rbg-cluster-config", "/etc/rbg") in mounts'
            && (if VolumeMount("rbg-cluster-config", "/etc/rbg") in mounts then mounts' == mounts
                else mounts' == mounts + [VolumeMount("rbg-cluster-config", "/etc/rbg")])
  {
    var names := Sorting.Names(volumes, VolumeName);
    assert forall i :: 0 <= i < |volumes| ==> names[i] == volumes[i].name;
    var volumes' := WithConfigVolume(volumes, source);
    if forall i :: 0 <= i < |volumes| ==> volumes[i].name != "rbg-cluster-config" {
      assert volumes'[|volumes|].name == "rbg-cluster-config";
    } else {
      var i :| 0 <= i < |volumes| && volumes[i].name == "rbg-cluster-config";
      assert names[i] in names;
      assert volumes'[i].name == "rbg-cluster-config";
    }
  }

  class Template {
    var containers: seq<Container>
    var volumes: seq<Volume>

    constructor (containers: seq<Container>, volumes: seq<Volume>)
      ensures this.containers == containers && this.volumes == volumes
    {
      this.containers, this.volumes := containers, volumes;
    }

    method InjectConfig(source: string)
      modifies this
      ensures volumes == WithConfigVolume(old(volumes), source)
      ensures |containers| == |old(containers)|
      ensures forall i :: 0 <= i < |containers| ==>
                containers[i] == old(containers)[i].(volumeMounts := WithConfigMount(old(containers)[i].volumeMounts))
    {
      var volumeExists := false;
      for i := 0 to |volumes|
        invariant volumeExists <==> exists j :: 0 <= j < i && volumes[j].name == CONFIG_VOLUME
        invariant volumes == old(volumes) && containers == old(containers)
      {
        if volumes[i].name == CONFIG_VOLUME {
          volumeExists := true;
        }
      }
      if !volumeExists {
        volumes := volumes + [Volume(CONFIG_VOLUME, source)];
      }
      for i := 0 to |containers|
        invariant |containers| == |old(containers)| && volumes == WithConfigVolume(old(volumes), source)
        invariant forall j :: 0 <= j < i ==>
                    containers[j]
                      == old(containers)[j].(volumeMounts := WithConfigMount(old(containers)[j].volumeMounts))
        invariant forall j :: i <= j < |containers| ==> containers[j] == old(containers)[j]
      {
        var mounts := containers[i].volumeMounts;
        if VolumeMount(CONFIG_VOLUME, CONFIG_PATH) !in mounts {
          mounts := mounts + [VolumeMount(CONFIG_VOLUME, CONFIG_PATH)];
        }
        containers := containers[i := containers[i].(volumeMounts := mounts)];
      }
    }

    method InjectEnv(envVars: seq<EnvVar>)
      modifies this`containers
      ensures |containers| == |old(containers)|
      ensures forall i :: 0 <= i < |containers| ==>
                && containers[i] == old(containers)[i].(env := containers[i].env)
                && IsCanonical(containers[i].env, Merged(old(containers)[i].env, envVars))
    {
      hide IsCanonical, Merged;
      for i := 0 to |containers|
        invariant |containers| == |old(containers)|
        invariant forall j :: 0 <= j < i ==>
                    && containers[j] == old(containers)[j].(env := containers[j].env)
                    && IsCanonical(containers[j].env, Merged(old(containers)[j].env, envVars))
        invariant forall j :: i <= j < |containers| ==> containers[j] == old(containers)[j]
      {
        var mergedEnv := MergeEnv(containers[i].env, envVars);
        containers := containers[i := containers[i].(env := mergedEnv)];
      }
    }
  }
}
