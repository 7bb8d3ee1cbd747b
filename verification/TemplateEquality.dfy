/**
 The semantic comparison of pod templates that decides whether a workload has to be patched:
 sort copies of both sides by name, then compare pairwise. The methods follow the code; each is
 tied to a relation that mentions no order at all.
 */
module TemplateEquality {
  import opened Sorting
  import opened PodTemplate

  type StringMap = map<string, string>

  // ---------- System entries that are not compared ----------

  predicate HasPrefix(s: string, prefix: string) { prefix <= s }

  predicate SystemLabel(k: string) {
    HasPrefix(k, "app.kubernetes.io/") || HasPrefix(k, "rolebasedgroup.workloads.x-k8s.io/")
  }

  predicate SystemAnnotation(k: string) {
    HasPrefix(k, "deployment.kubernetes.io/revision") || SystemLabel(k)
  }

  predicate SystemEnv(e: EnvVar) { HasPrefix(e.name, "ROLES_") || e.name == "RBG_GROUP_SIZE" }

  function UserLabels(m: StringMap): StringMap { map k | k in m && !SystemLabel(k) :: m[k] }
  function UserAnnotations(m: StringMap): StringMap { map k | k in m && !SystemAnnotation(k) :: m[k] }

  function UserEnvs(env: seq<EnvVar>): seq<EnvVar> {
    if env == [] then []
    else UserEnvs(env[..|env| - 1]) + if SystemEnv(env[|env| - 1]) then [] else [env[|env| - 1]]
  }

  method FilterSystemEnvs(env: seq<EnvVar>) returns (filtered: seq<EnvVar>)
    ensures filtered == UserEnvs(env)
  {
    filtered := [];
    for i := 0 to |env|
      invariant filtered == UserEnvs(env[..i])
    {
      assert env[..i + 1][..i] == env[..i];
      if !HasPrefix(env[i].name, "ROLES_") && env[i].name != "RBG_GROUP_SIZE" {
        filtered := filtered + [env[i]];
      }
    }
    assert env[..|env|] == env;
  }

  lemma {:induction false} UserEnvsMeaning(env: seq<EnvVar>)
    ensures forall e :: e in UserEnvs(env) <==> e in env && !SystemEnv(e)
    ensures DistinctNames(env, EnvName) ==> DistinctNames(UserEnvs(env), EnvName)
  {
    if env != [] {
      var front, last := env[..|env| - 1], env[|env| - 1];
      UserEnvsMeaning(front);
      assert env == front + [last];
      if DistinctNames(env, EnvName) {
        forall i | 0 <= i < |UserEnvs(front)| ensures UserEnvs(front)[i].name != last.name {
          assert UserEnvs(front)[i] in front;
          var j :| 0 <= j < |front| && front[j] == UserEnvs(front)[i];
          assert env[j].name != env[|env| - 1].name;
        }
      }
    }
  }

  // ---------- The relations ----------

  /** Name and value of each variable; where a value comes from is not compared. */
  function EnvPairs(env: seq<EnvVar>): set<(string, string)> { set e | e in env :: (e.name, e.value) }

  predicate SameEnv(env1: seq<EnvVar>, env2: seq<EnvVar>) { EnvPairs(UserEnvs(env1)) == EnvPairs(UserEnvs(env2)) }

  predicate SameNames<T>(a: seq<T>, b: seq<T>, name: T -> string) {
    multiset(Names(a, name)) == multiset(Names(b, name))
  }

  /** An unset pull policy agrees with any. */
  predicate PoliciesAgree(p1: string, p2: string) { p1 == "" || p2 == "" || p1 == p2 }

  predicate SameContainer(c1: Container, c2: Container) {
    && c1.name == c2.name && c1.image == c2.image && c1.command == c2.command && c1.args == c2.args
    && c1.ports == c2.ports && c1.resources == c2.resources
    && PoliciesAgree(c1.imagePullPolicy, c2.imagePullPolicy)
    && SameEnv(c1.env, c2.env)
    && SameNames(c1.volumeMounts, c2.volumeMounts, MountName)
  }

  /** The containers match one to one by name. */
  predicate SameContainers(cs1: seq<Container>, cs2: seq<Container>) {
    && NameSet(cs1, ContainerName) == NameSet(cs2, ContainerName)
    && forall c1, c2 :: c1 in cs1 && c2 in cs2 && c1.name == c2.name ==> SameContainer(c1, c2)
  }

  datatype PodTemplateSpec = PodTemplateSpec(
    labels: StringMap, annotations: StringMap, containers: seq<Container>, volumes: seq<Volume>)

  predicate SameTemplate(t1: PodTemplateSpec, t2: PodTemplateSpec) {
    && UserLabels(t1.labels) == UserLabels(t2.labels)
    && UserAnnotations(t1.annotations) == UserAnnotations(t2.annotations)
    && SameContainers(t1.containers, t2.containers)
    && SameNames(t1.volumes, t2.volumes, VolumeName)
  }

  /** Container names and each container's variable names are unique, as after injection. */
  predicate WellFormed(containers: seq<Container>) {
    DistinctNames(containers, ContainerName) && forall c <- containers :: DistinctNames(c.env, EnvName)
  }

  // ---------- Maps ----------

  lemma SubmapOfSameSize(m1: StringMap, m2: StringMap)
    requires |m1| == |m2| && forall k <- m1 :: k in m2 && m1[k] == m2[k]
    ensures m1 == m2
  {
    SubsetOfSameSize(m1.Keys, m2.Keys);
  }

  lemma SubsetOfSameSize(a: set<string>, b: set<string>)
    requires a <= b && |a| == |b|
    ensures a == b
  {
    assert |b - a| == 0;
  }

  method MapsEqual(map1: StringMap, map2: StringMap) returns (equal: bool)
    ensures equal <==> map1 == map2
  {
    if |map1| == 0 && |map2| == 0 {
      return true;
    }
    if |map1| != |map2| {
      return false;
    }
    var left := map1.Keys;
    while left != {}
      invariant left <= map1.Keys
      invariant forall k <- map1 :: k in left || (k in map2 && map1[k] == map2[k])
      decreases left
    {
      var k :| k in left;
      if k !in map2 || map2[k] != map1[k] {
        return false;
      }
      left := left - {k};
    }
    SubmapOfSameSize(map1, map2);
    return true;
  }

  method ObjectMetaEqual(labels1: StringMap, annotations1: StringMap, labels2: StringMap, annotations2: StringMap)
    returns (equal: bool)
    ensures equal <==>
              && UserLabels(labels1) == UserLabels(labels2)
              && UserAnnotations(annotations1) == UserAnnotations(annotations2)
  {
    equal := MapsEqual(UserLabels(labels1), UserLabels(labels2));
    if equal {
      equal := MapsEqual(UserAnnotations(annotations1), UserAnnotations(annotations2));
    }
  }

  // ---------- Lists compared by name only ----------

  lemma SameNamesLength<T>(a: seq<T>, b: seq<T>, name: T -> string)
    requires SameNames(a, b, name)
    ensures |a| == |b|
  {
    assert |multiset(Names(a, name))| == |Names(a, name)|;
    assert |multiset(Names(b, name))| == |Names(b, name)|;
  }

  /** A sorted copy. */
  method SortedCopy<T>(s: seq<T>, name: T -> string) returns (sorted: seq<T>)
    ensures Sorted(sorted, name) && multiset(sorted) == multiset(s) && |sorted| == |s|
  {
    var a := new T[|s|](i requires 0 <= i < |s| => s[i]);
    assert a[..] == s;
    SortSlice(a, name);
    sorted := a[..];
  }

  /** volumesEqual and volumeMountsEqual: nothing but the names is compared, and every repetition counts. */
  method NamesEqual<T>(s1: seq<T>, s2: seq<T>, name: T -> string) returns (equal: bool)
    ensures equal <==> SameNames(s1, s2, name)
  {
    if |s1| != |s2| {
      if SameNames(s1, s2, name) {
        SameNamesLength(s1, s2, name);
      }
      return false;
    }
    var sorted1 := SortedCopy(s1, name);
    var sorted2 := SortedCopy(s2, name);
    SortedCopiesAgree(s1, sorted1, s2, sorted2, name);
    for i := 0 to |sorted1|
      invariant forall j :: 0 <= j < i ==> name(sorted1[j]) == name(sorted2[j])
    {
      if name(sorted1[i]) != name(sorted2[i]) {
        assert Names(sorted1, name)[i] != Names(sorted2, name)[i];
        return false;
      }
    }
    assert Names(sorted1, name) == Names(sorted2, name);
    return true;
  }

  /** Two lists have the same names exactly when their sorted copies have them in the same places. */
  lemma SortedCopiesAgree<T>(s1: seq<T>, sorted1: seq<T>, s2: seq<T>, sorted2: seq<T>, name: T -> string)
    requires Sorted(sorted1, name) && Sorted(sorted2, name)
    requires multiset(sorted1) == multiset(s1) && multiset(sorted2) == multiset(s2)
    ensures SameNames(s1, s2, name) <==> Names(sorted1, name) == Names(sorted2, name)
  {
    NamesPermute(sorted1, s1, name);
    NamesPermute(sorted2, s2, name);
    if SameNames(s1, s2, name) {
      SortedNamesAgree(sorted1, sorted2, name);
    }
  }

  // ---------- Environment variables ----------

  predicate AgreeEverywhere(a: seq<EnvVar>, b: seq<EnvVar>) {
    |a| == |b| && forall i :: 0 <= i < |a| ==> a[i].name == b[i].name && a[i].value == b[i].value
  }

  /** With unique names, agreeing on every place of the sorted copies is agreeing as sets of pairs. */
  lemma SortedEnvAgree(f1: seq<EnvVar>, sorted1: seq<EnvVar>, f2: seq<EnvVar>, sorted2: seq<EnvVar>)
    requires Sorted(sorted1, EnvName) && Sorted(sorted2, EnvName)
    requires multiset(sorted1) == multiset(f1) && multiset(sorted2) == multiset(f2)
    requires DistinctNames(f1, EnvName) && DistinctNames(f2, EnvName)
    ensures EnvPairs(f1) == EnvPairs(f2) <==> AgreeEverywhere(sorted1, sorted2)
  {
    SortedCopiesAgree(f1, sorted1, f2, sorted2, EnvName);
    PermutationKeepsPairs(f1, sorted1);
    PermutationKeepsPairs(f2, sorted2);
    if EnvPairs(f1) == EnvPairs(f2) {
      PairsFixNames(f1, f2);
      PairsFixNames(f2, f1);
      DistinctNamesAsSet(f1, EnvName);
      DistinctNamesAsSet(f2, EnvName);
      assert |Names(sorted1, EnvName)| == |Names(sorted2, EnvName)|;
      DistinctPermutes(f2, sorted2, EnvName);
      forall i | 0 <= i < |sorted1| ensures sorted1[i].name == sorted2[i].name && sorted1[i].value == sorted2[i].value {
        assert Names(sorted1, EnvName)[i] == Names(sorted2, EnvName)[i];
        assert (sorted1[i].name, sorted1[i].value) in EnvPairs(sorted2);
        var e :| e in sorted2 && (e.name, e.value) == (sorted1[i].name, sorted1[i].value);
        SameNameSameElement(sorted2, EnvName, e, sorted2[i]);
      }
    } else if AgreeEverywhere(sorted1, sorted2) {
      PlacesFixPairs(sorted1, sorted2);
      assert false;
    }
  }

  lemma PermutationKeepsPairs(f: seq<EnvVar>, sorted: seq<EnvVar>)
    requires multiset(sorted) == multiset(f)
    ensures EnvPairs(sorted) == EnvPairs(f)
  {
    forall e ensures e in sorted <==> e in f {
      assert e in multiset(sorted) <==> e in multiset(f);
    }
  }

  lemma PairsFixNames(f1: seq<EnvVar>, f2: seq<EnvVar>)
    requires EnvPairs(f1) == EnvPairs(f2)
    ensures NameSet(f1, EnvName) <= NameSet(f2, EnvName)
  {
    forall x | x in NameSet(f1, EnvName) ensures x in NameSet(f2, EnvName) {
      var i :| 0 <= i < |f1| && Names(f1, EnvName)[i] == x;
      assert f1[i] in f1 && (f1[i].name, f1[i].value) in EnvPairs(f2);
      var e :| e in f2 && e.name == x;
      var j :| 0 <= j < |f2| && f2[j] == e;
      assert Names(f2, EnvName)[j] == x;
    }
  }

  lemma PlacesFixPairs(a: seq<EnvVar>, b: seq<EnvVar>)
    requires AgreeEverywhere(a, b)
    ensures EnvPairs(a) == EnvPairs(b)
  {
    forall p ensures p in EnvPairs(a) <==> p in EnvPairs(b) {
      if p in EnvPairs(a) {
        var i :| 0 <= i < |a| && (a[i].name, a[i].value) == p;
        assert b[i] in b;
      }
      if p in EnvPairs(b) {
        var i :| 0 <= i < |b| && (b[i].name, b[i].value) == p;
        assert a[i] in a;
      }
    }
  }

  /**
   With repeated names the unstable sort leaves the outcome open; then equality still implies the
   same names, repetitions included.
   */
  method EnvVarsEqual(env1: seq<EnvVar>, env2: seq<EnvVar>) returns (equal: bool)
    ensures DistinctNames(env1, EnvName) && DistinctNames(env2, EnvName) ==> (equal <==> SameEnv(env1, env2))
    ensures equal ==> SameNames(UserEnvs(env1), UserEnvs(env2), EnvName)
  {
    hide SameEnv, SameNames, DistinctNames, Sorted;
    var filtered1 := FilterSystemEnvs(env1);
    var filtered2 := FilterSystemEnvs(env2);
    var sorted1 := SortedCopy(filtered1, EnvName);
    var sorted2 := SortedCopy(filtered2, EnvName);
    EnvDecision(env1, sorted1, env2, sorted2);
    if |filtered1| != |filtered2| {
      return false;
    }
    for i := 0 to |sorted1|
      invariant forall j :: 0 <= j < i ==> sorted1[j].name == sorted2[j].name && sorted1[j].value == sorted2[j].value
    {
      if sorted1[i].value != sorted2[i].value {
        return false;
      }
      if sorted1[i].name != sorted2[i].name {
        return false;
      }
    }
    return true;
  }

  lemma EnvDecision(env1: seq<EnvVar>, sorted1: seq<EnvVar>, env2: seq<EnvVar>, sorted2: seq<EnvVar>)
    requires Sorted(sorted1, EnvName) && Sorted(sorted2, EnvName)
    requires multiset(sorted1) == multiset(UserEnvs(env1)) && multiset(sorted2) == multiset(UserEnvs(env2))
    ensures DistinctNames(env1, EnvName) && DistinctNames(env2, EnvName) ==>
              (AgreeEverywhere(sorted1, sorted2) <==> SameEnv(env1, env2))
    ensures AgreeEverywhere(sorted1, sorted2) ==> SameNames(UserEnvs(env1), UserEnvs(env2), EnvName)
  {
    hide Sorted;
    UserEnvsMeaning(env1);
    UserEnvsMeaning(env2);
    SortedCopiesAgree(UserEnvs(env1), sorted1, UserEnvs(env2), sorted2, EnvName);
    if AgreeEverywhere(sorted1, sorted2) {
      assert Names(sorted1, EnvName) == Names(sorted2, EnvName);
    }
    if DistinctNames(env1, EnvName) && DistinctNames(env2, EnvName) {
      SortedEnvAgree(UserEnvs(env1), sorted1, UserEnvs(env2), sorted2);
    }
  }

  // ---------- Containers ----------

  predicate UniqueEnvs(c1: Container, c2: Container) {
    DistinctNames(c1.env, EnvName) && DistinctNames(c2.env, EnvName)
  }

  method ContainerEqual(c1: Container, c2: Container) returns (equal: bool)
    ensures UniqueEnvs(c1, c2) ==> (equal <==> SameContainer(c1, c2))
    ensures equal ==> c1.name == c2.name && c1.image == c2.image
  {
    if c1.name != c2.name || c1.image != c2.image || c1.command != c2.command || c1.args != c2.args
       || c1.ports != c2.ports || c1.resources != c2.resources {
      return false;
    }
    if c1.imagePullPolicy != "" && c2.imagePullPolicy != "" && c1.imagePullPolicy != c2.imagePullPolicy {
      return false;
    }
    equal := EnvVarsEqual(c1.env, c2.env);
    if equal {
      equal := NamesEqual(c1.volumeMounts, c2.volumeMounts, MountName);
    }
  }

  /** With unique names, agreeing on every place of the sorted copies is agreeing by name. */
  lemma SortedContainersAgree(cs1: seq<Container>, sorted1: seq<Container>, cs2: seq<Container>,
                              sorted2: seq<Container>)
    requires Sorted(sorted1, ContainerName) && Sorted(sorted2, ContainerName)
    requires multiset(sorted1) == multiset(cs1) && multiset(sorted2) == multiset(cs2)
    requires DistinctNames(cs1, ContainerName) && DistinctNames(cs2, ContainerName)
    ensures SameContainers(cs1, cs2) <==>
            |sorted1| == |sorted2| && forall i :: 0 <= i < |sorted1| ==> SameContainer(sorted1[i], sorted2[i])
  {
    hide SameContainer;
    SortedCopiesAgree(cs1, sorted1, cs2, sorted2, ContainerName);
    DistinctNamesAsSet(cs1, ContainerName);
    DistinctNamesAsSet(cs2, ContainerName);
    SameElements(cs1, sorted1);
    SameElements(cs2, sorted2);
    if SameContainers(cs1, cs2) {
      assert |Names(sorted1, ContainerName)| == |Names(sorted2, ContainerName)|;
      forall i | 0 <= i < |sorted1| ensures SameContainer(sorted1[i], sorted2[i]) {
        assert Names(sorted1, ContainerName)[i] == Names(sorted2, ContainerName)[i];
        assert sorted1[i] in sorted1 && sorted2[i] in sorted2;
      }
    } else if |sorted1| == |sorted2| && forall i :: 0 <= i < |sorted1| ==> SameContainer(sorted1[i], sorted2[i]) {
      PlacesFixContainers(cs1, sorted1, cs2, sorted2);
      assert false;
    }
  }

  lemma SameElements<T>(s: seq<T>, sorted: seq<T>)
    requires multiset(sorted) == multiset(s)
    ensures forall x :: x in sorted <==> x in s
  {
    forall x ensures x in sorted <==> x in s {
      assert x in multiset(sorted) <==> x in multiset(s);
    }
  }

  lemma SameContainerNames(c1: Container, c2: Container)
    requires SameContainer(c1, c2)
    ensures c1.name == c2.name
  {
  }

  lemma PlacesFixContainers(cs1: seq<Container>, sorted1: seq<Container>, cs2: seq<Container>, sorted2: seq<Container>)
    requires Sorted(sorted1, ContainerName) && Sorted(sorted2, ContainerName)
    requires multiset(sorted1) == multiset(cs1) && multiset(sorted2) == multiset(cs2)
    requires DistinctNames(cs1, ContainerName) && DistinctNames(cs2, ContainerName)
    requires |sorted1| == |sorted2| && forall i :: 0 <= i < |sorted1| ==> SameContainer(sorted1[i], sorted2[i])
    ensures SameContainers(cs1, cs2)
  {
    hide SameContainer;
    forall i | 0 <= i < |sorted1| ensures sorted1[i].name == sorted2[i].name {
      SameContainerNames(sorted1[i], sorted2[i]);
    }
    assert Names(sorted1, ContainerName) == Names(sorted2, ContainerName);
    SortedCopiesAgree(cs1, sorted1, cs2, sorted2, ContainerName);
    DistinctNamesAsSet(cs1, ContainerName);
    DistinctNamesAsSet(cs2, ContainerName);
    SameElements(cs1, sorted1);
    SameElements(cs2, sorted2);
    forall x ensures x in NameSet(cs1, ContainerName) <==> x in NameSet(cs2, ContainerName) {
      assert x in multiset(NameSet(cs1, ContainerName)) <==> x in multiset(NameSet(cs2, ContainerName));
    }
    forall c1, c2 | c1 in cs1 && c2 in cs2 && c1.name == c2.name ensures SameContainer(c1, c2) {
      var i :| 0 <= i < |sorted1| && sorted1[i] == c1;
      assert sorted2[i] in sorted2;
      SameNameSameElement(cs2, ContainerName, c2, sorted2[i]);
    }
  }

  method PodSpecEqual(containers1: seq<Container>, volumes1: seq<Volume>, containers2: seq<Container>,
                      volumes2: seq<Volume>)
    returns (equal: bool)
    ensures WellFormed(containers1) && WellFormed(containers2) ==>
              (equal <==> SameContainers(containers1, containers2) && SameNames(volumes1, volumes2, VolumeName))
  {
    hide SameContainer, SameContainers;
    ghost var wellFormed := WellFormed(containers1) && WellFormed(containers2);
    var sorted1 := SortedCopy(containers1, ContainerName);
    var sorted2 := SortedCopy(containers2, ContainerName);
    if wellFormed {
      SortedContainersAgree(containers1, sorted1, containers2, sorted2);
    }
    SameElements(containers1, sorted1);
    SameElements(containers2, sorted2);
    if |containers1| != |containers2| {
      return false;
    }
    for i := 0 to |sorted1|
      invariant wellFormed ==> forall j :: 0 <= j < i ==> SameContainer(sorted1[j], sorted2[j])
    {
      assert sorted1[i] in containers1 && sorted2[i] in containers2;
      var same := ContainerEqual(sorted1[i], sorted2[i]);
      if !same {
        return false;
      }
    }
    equal := NamesEqual(volumes1, volumes2, VolumeName);
  }

  /** The whole comparison: on well-formed templates it decides exactly the order-free relation. */
  method PodTemplateSpecEqual(t1: PodTemplateSpec, t2: PodTemplateSpec) returns (equal: bool)
    ensures WellFormed(t1.containers) && WellFormed(t2.containers) ==> (equal <==> SameTemplate(t1, t2))
  {
    equal := ObjectMetaEqual(t1.labels, t1.annotations, t2.labels, t2.annotations);
    if equal {
      equal := PodSpecEqual(t1.containers, t1.volumes, t2.containers, t2.volumes);
    }
  }
}
