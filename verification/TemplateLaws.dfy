/** Laws of the template comparison, and of comparing what was constructed from one and the same role. */
module TemplateLaws {
  import opened Sorting
  import opened PodTemplate
  import opened TemplateEquality
  import opened Sidecars
  import Group

  // ---------- Reflexive, symmetric, not transitive ----------

  lemma SameTemplateReflexive(t: PodTemplateSpec)
    requires DistinctNames(t.containers, ContainerName)
    ensures SameTemplate(t, t)
  {
    forall c1, c2 | c1 in t.containers && c2 in t.containers && c1.name == c2.name ensures SameContainer(c1, c2) {
      SameNameSameElement(t.containers, ContainerName, c1, c2);
    }
  }

  lemma SameContainerSymmetric(c1: Container, c2: Container)
    ensures SameContainer(c1, c2) <==> SameContainer(c2, c1)
  {
  }

  lemma SameTemplateSymmetric(t1: PodTemplateSpec, t2: PodTemplateSpec)
    ensures SameTemplate(t1, t2) <==> SameTemplate(t2, t1)
  {
    forall c1, c2 ensures SameContainer(c1, c2) <==> SameContainer(c2, c1) {
      SameContainerSymmetric(c1, c2);
    }
  }

  /** Two comparisons in a row carry over exactly when the outer pull policies agree. */
  lemma TransitiveExactly(c1: Container, c2: Container, c3: Container)
    requires SameContainer(c1, c2) && SameContainer(c2, c3)
    ensures SameContainer(c1, c3) <==> PoliciesAgree(c1.imagePullPolicy, c3.imagePullPolicy)
  {
  }

  lemma NotTransitive()
    ensures var c := Container("c", "i", [], [], [], "", "Always", [], []);
            var unset, never := c.(imagePullPolicy := ""), c.(imagePullPolicy := "Never");
            SameContainer(c, unset) && SameContainer(unset, never) && !SameContainer(c, never)
  {
    assert "Always" != "Never" by {
      assert "Always"[0] != "Never"[0];
    }
  }

  // ---------- What is compared, written out ----------

  /** The variables of a list by name and value, but for the ones the system itself sets. */
  function NamesAndValues(env: seq<EnvVar>): set<(string, string)> {
    set e | e in env && !("ROLES_" <= e.name) && e.name != "RBG_GROUP_SIZE" :: (e.name, e.value)
  }

  lemma SameEnvExactly(env1: seq<EnvVar>, env2: seq<EnvVar>)
    ensures SameEnv(env1, env2) <==> NamesAndValues(env1) == NamesAndValues(env2)
  {
    UserEnvsMeaning(env1);
    UserEnvsMeaning(env2);
    assert EnvPairs(UserEnvs(env1)) == NamesAndValues(env1);
    assert EnvPairs(UserEnvs(env2)) == NamesAndValues(env2);
  }

  /** The names that are compared are the entries' own, in number too. */
  lemma NamesAreOwn(mounts: seq<VolumeMount>, volumes: seq<Volume>)
    ensures |Names(mounts, MountName)| == |mounts| && |Names(volumes, VolumeName)| == |volumes|
    ensures forall i :: 0 <= i < |mounts| ==> Names(mounts, MountName)[i] == mounts[i].name
    ensures forall i :: 0 <= i < |volumes| ==> Names(volumes, VolumeName)[i] == volumes[i].name
  {
  }

  /** Two containers that compare equal: field by field, variables by name and value, mounts by name. */
  lemma SameContainerExactly(c1: Container, c2: Container)
    ensures SameContainer(c1, c2) <==>
              && c1.name == c2.name && c1.image == c2.image && c1.command == c2.command && c1.args == c2.args
              && c1.ports == c2.ports && c1.resources == c2.resources
              && (c1.imagePullPolicy == "" || c2.imagePullPolicy == "" || c1.imagePullPolicy == c2.imagePullPolicy)
              && NamesAndValues(c1.env) == NamesAndValues(c2.env)
              && multiset(Names(c1.volumeMounts, MountName)) == multiset(Names(c2.volumeMounts, MountName))
  {
    SameEnvExactly(c1.env, c2.env);
    hide SameEnv;
  }

  lemma UserLabelsExactly(m1: StringMap, m2: StringMap)
    ensures UserLabels(m1) == UserLabels(m2) <==>
              forall k :: !("app.kubernetes.io/" <= k) && !("rolebasedgroup.workloads.x-k8s.io/" <= k) ==>
                (k in m1 <==> k in m2) && (k in m1 && k in m2 ==> m1[k] == m2[k])
  {
    if UserLabels(m1) == UserLabels(m2) {
      forall k | !("app.kubernetes.io/" <= k) && !("rolebasedgroup.workloads.x-k8s.io/" <= k)
        ensures (k in m1 <==> k in m2) && (k in m1 && k in m2 ==> m1[k] == m2[k])
      {
        assert k in UserLabels(m1) <==> k in UserLabels(m2);
        if k in m1 {
          assert UserLabels(m1)[k] == UserLabels(m2)[k];
        }
      }
    }
  }

  lemma UserAnnotationsExactly(m1: StringMap, m2: StringMap)
    ensures UserAnnotations(m1) == UserAnnotations(m2) <==>
              forall k :: !("app.kubernetes.io/" <= k) && !("rolebasedgroup.workloads.x-k8s.io/" <= k)
                          && !("deployment.kubernetes.io/revision" <= k) ==>
                (k in m1 <==> k in m2) && (k in m1 && k in m2 ==> m1[k] == m2[k])
  {
    if UserAnnotations(m1) == UserAnnotations(m2) {
      forall k | !("app.kubernetes.io/" <= k) && !("rolebasedgroup.workloads.x-k8s.io/" <= k)
                 && !("deployment.kubernetes.io/revision" <= k)
        ensures (k in m1 <==> k in m2) && (k in m1 && k in m2 ==> m1[k] == m2[k])
      {
        assert k in UserAnnotations(m1) <==> k in UserAnnotations(m2);
        if k in m1 {
          assert UserAnnotations(m1)[k] == UserAnnotations(m2)[k];
        }
      }
    }
  }

  function OwnNames(cs: seq<Container>): set<string> { set c | c in cs :: c.name }

  lemma OwnNamesCompared(cs: seq<Container>)
    ensures NameSet(cs, ContainerName) == OwnNames(cs)
  {
    forall n ensures n in NameSet(cs, ContainerName) <==> n in OwnNames(cs) {
      if n in NameSet(cs, ContainerName) {
        var i :| 0 <= i < |Names(cs, ContainerName)| && Names(cs, ContainerName)[i] == n;
        assert cs[i] in cs;
      }
      if n in OwnNames(cs) {
        var c :| c in cs && c.name == n;
        var i :| 0 <= i < |cs| && cs[i] == c;
        assert Names(cs, ContainerName)[i] == n;
      }
    }
  }

  lemma SameContainersExactly(cs1: seq<Container>, cs2: seq<Container>)
    ensures SameContainers(cs1, cs2) <==>
              && OwnNames(cs1) == OwnNames(cs2)
              && (forall c1, c2 :: c1 in cs1 && c2 in cs2 && c1.name == c2.name ==>
                    && c1.image == c2.image && c1.command == c2.command && c1.args == c2.args
                    && c1.ports == c2.ports && c1.resources == c2.resources
                    && (c1.imagePullPolicy == "" || c2.imagePullPolicy == ""
                      || c1.imagePullPolicy == c2.imagePullPolicy)
                    && NamesAndValues(c1.env) == NamesAndValues(c2.env)
                    && multiset(Names(c1.volumeMounts, MountName)) == multiset(Names(c2.volumeMounts, MountName)))
  {
    OwnNamesCompared(cs1);
    OwnNamesCompared(cs2);
    hide NameSet, SameContainer, Names, OwnNames, NamesAndValues;
    forall c1, c2 | c1 in cs1 && c2 in cs2 && c1.name == c2.name
      ensures SameContainer(c1, c2) <==>
                && c1.image == c2.image && c1.command == c2.command && c1.args == c2.args
                && c1.ports == c2.ports && c1.resources == c2.resources
                && (c1.imagePullPolicy == "" || c2.imagePullPolicy == "" || c1.imagePullPolicy == c2.imagePullPolicy)
                && NamesAndValues(c1.env) == NamesAndValues(c2.env)
                && multiset(Names(c1.volumeMounts, MountName)) == multiset(Names(c2.volumeMounts, MountName))
    {
      SameContainerExactly(c1, c2);
    }
  }

  /**
   Two templates compare equal exactly if they agree on all labels and annotations but the system's
   own, on the names of their volumes and of their containers, and containers of the same name agree
   in image, command, arguments, ports, resources, the variables other than the system's by name and
   value, the names of their mounts, and in the pull policy where both have one.
   */
  lemma SameTemplateExactly(t1: PodTemplateSpec, t2: PodTemplateSpec)
    ensures SameTemplate(t1, t2) <==>
              && (forall k :: !("app.kubernetes.io/" <= k) && !("rolebasedgroup.workloads.x-k8s.io/" <= k) ==>
                    (k in t1.labels <==> k in t2.labels)
                    && (k in t1.labels && k in t2.labels ==> t1.labels[k] == t2.labels[k]))
              && (forall k :: !("app.kubernetes.io/" <= k) && !("rolebasedgroup.workloads.x-k8s.io/" <= k)
                              && !("deployment.kubernetes.io/revision" <= k) ==>
                    (k in t1.annotations <==> k in t2.annotations)
                    && (k in t1.annotations && k in t2.annotations ==> t1.annotations[k] == t2.annotations[k]))
              && multiset(Names(t1.volumes, VolumeName)) == multiset(Names(t2.volumes, VolumeName))
              && OwnNames(t1.containers) == OwnNames(t2.containers)
              && (forall c1, c2 :: c1 in t1.containers && c2 in t2.containers && c1.name == c2.name ==>
                    && c1.image == c2.image && c1.command == c2.command && c1.args == c2.args
                    && c1.ports == c2.ports && c1.resources == c2.resources
                    && (c1.imagePullPolicy == "" || c2.imagePullPolicy == ""
                      || c1.imagePullPolicy == c2.imagePullPolicy)
                    && NamesAndValues(c1.env) == NamesAndValues(c2.env)
                    && multiset(Names(c1.volumeMounts, MountName)) == multiset(Names(c2.volumeMounts, MountName)))
  {
    UserLabelsExactly(t1.labels, t2.labels);
    UserAnnotationsExactly(t1.annotations, t2.annotations);
    SameContainersExactly(t1.containers, t2.containers);
    hide UserLabels, UserAnnotations, SameContainers;
  }

  /** One container replaced by one that compares different starts a rollout. */
  lemma ContainerReplaced(t: PodTemplateSpec, i: nat, c: Container)
    requires i < |t.containers| && c.name == t.containers[i].name && !SameContainer(t.containers[i], c)
    ensures !SameTemplate(t, t.(containers := t.containers[i := c]))
  {
    var t' := t.(containers := t.containers[i := c]);
    hide SameContainer;
    assert t.containers[i] in t.containers && t'.containers[i] in t'.containers;
  }

  /** So a change of a container's image, command, arguments, ports or resources starts one. */
  lemma ContainerChangeSeen(t: PodTemplateSpec, i: nat, c: Container)
    requires i < |t.containers| && c.name == t.containers[i].name
    requires var was := t.containers[i];
             || c.image != was.image || c.command != was.command || c.args != was.args || c.ports != was.ports
             || c.resources != was.resources
    ensures !SameTemplate(t, t.(containers := t.containers[i := c]))
  {
    SameContainerExactly(t.containers[i], c);
    ContainerReplaced(t, i, c);
  }

  /** So does a variable that goes or gets another value, or that comes, unless it is a system one. */
  lemma EnvChangeSeen(t: PodTemplateSpec, i: nat, c: Container, e: EnvVar)
    requires i < |t.containers| && c.name == t.containers[i].name
    requires !("ROLES_" <= e.name) && e.name != "RBG_GROUP_SIZE"
    requires || (e in t.containers[i].env && forall f :: f in c.env ==> f.name != e.name || f.value != e.value)
             || (e in c.env && forall f :: f in t.containers[i].env ==> f.name != e.name || f.value != e.value)
    ensures !SameTemplate(t, t.(containers := t.containers[i := c]))
  {
    SameEnvExactly(t.containers[i].env, c.env);
    assert (e.name, e.value) in NamesAndValues(t.containers[i].env) <==> e in t.containers[i].env;
    assert (e.name, e.value) in NamesAndValues(c.env) <==> e in c.env;
    hide SameEnv, NamesAndValues;
    ContainerReplaced(t, i, c);
  }

  /** So does a mount of another name. */
  lemma MountChangeSeen(t: PodTemplateSpec, i: nat, c: Container)
    requires i < |t.containers| && c.name == t.containers[i].name
    requires var was := t.containers[i].volumeMounts;
             multiset(Names(c.volumeMounts, MountName))
             != multiset(Names(was, MountName))
    ensures !SameTemplate(t, t.(containers := t.containers[i := c]))
  {
    ContainerReplaced(t, i, c);
  }

  /** And a volume of another name, or a label or annotation that is not a system one. */
  lemma TemplateChangeSeen(t: PodTemplateSpec, volumes: seq<Volume>, k: string, v: string)
    ensures multiset(Names(volumes, VolumeName))
            != multiset(Names(t.volumes, VolumeName)) ==>
              !SameTemplate(t, t.(volumes := volumes))
    ensures (!("app.kubernetes.io/" <= k) && !("rolebasedgroup.workloads.x-k8s.io/" <= k)
             && (k in t.labels ==> t.labels[k] != v)) ==>
              !SameTemplate(t, t.(labels := t.labels[k := v]))
    ensures (!("app.kubernetes.io/" <= k) && !("rolebasedgroup.workloads.x-k8s.io/" <= k)
             && !("deployment.kubernetes.io/revision" <= k) && (k in t.annotations ==> t.annotations[k] != v)) ==>
              !SameTemplate(t, t.(annotations := t.annotations[k := v]))
  {
    UserLabelsExactly(t.labels, t.labels[k := v]);
    UserAnnotationsExactly(t.annotations, t.annotations[k := v]);
    hide SameContainers, UserLabels, UserAnnotations;
  }

  // ---------- Order does not matter ----------

  /** The same container with its variables and mounts listed in another order. */
  predicate Reordered(c: Container, c': Container) {
    && c' == c.(env := c'.env, volumeMounts := c'.volumeMounts)
    && multiset(c'.env) == multiset(c.env) && multiset(c'.volumeMounts) == multiset(c.volumeMounts)
  }

  lemma ReorderedCompareAlike(c: Container, c': Container, d: Container)
    requires Reordered(c, c')
    ensures SameContainer(c, d) <==> SameContainer(c', d)
  {
    NamesPermute(c.volumeMounts, c'.volumeMounts, MountName);
    UserEnvsMeaning(c.env);
    UserEnvsMeaning(c'.env);
    SameElements(c.env, c'.env);
    assert forall e :: e in UserEnvs(c.env) <==> e in UserEnvs(c'.env);
    assert EnvPairs(UserEnvs(c.env)) == EnvPairs(UserEnvs(c'.env));
  }

  /** Containers reordered inside (`mid`) and then among themselves. */
  predicate ReorderedContainers(cs: seq<Container>, mid: seq<Container>, cs': seq<Container>) {
    && |mid| == |cs| && (forall i :: 0 <= i < |cs| ==> Reordered(cs[i], mid[i]))
    && multiset(mid) == multiset(cs')
  }

  lemma ReorderedContainersCompareAlike(cs: seq<Container>, mid: seq<Container>, cs': seq<Container>,
                                        ds: seq<Container>)
    requires ReorderedContainers(cs, mid, cs')
    ensures SameContainers(cs, ds) <==> SameContainers(cs', ds)
  {
    hide SameContainer;
    assert Names(cs, ContainerName) == Names(mid, ContainerName);
    NamesPermute(mid, cs', ContainerName);
    forall x ensures x in Names(mid, ContainerName) <==> x in Names(cs', ContainerName) {
      assert x in multiset(Names(mid, ContainerName)) <==> x in multiset(Names(cs', ContainerName));
    }
    assert NameSet(cs, ContainerName) == NameSet(cs', ContainerName);
    SameElements(cs', mid);
    if SameContainers(cs, ds) {
      forall c', d | c' in cs' && d in ds && c'.name == d.name ensures SameContainer(c', d) {
        var i :| 0 <= i < |mid| && mid[i] == c';
        ReorderedCompareAlike(cs[i], mid[i], d);
      }
    }
    if SameContainers(cs', ds) {
      forall c, d | c in cs && d in ds && c.name == d.name ensures SameContainer(c, d) {
        var i :| 0 <= i < |cs| && cs[i] == c;
        ReorderedCompareAlike(cs[i], mid[i], d);
        assert mid[i] in mid;
      }
    }
  }

  /**
   Against any other template a template compares the same however its containers, variables,
   mounts and volumes are ordered.
   */
  lemma OrderIrrelevant(t: PodTemplateSpec, mid: seq<Container>, t': PodTemplateSpec, u: PodTemplateSpec)
    requires t'.labels == t.labels && t'.annotations == t.annotations
    requires ReorderedContainers(t.containers, mid, t'.containers) && multiset(t.volumes) == multiset(t'.volumes)
    ensures SameTemplate(t, u) <==> SameTemplate(t', u)
  {
    hide SameContainers;
    ReorderedContainersCompareAlike(t.containers, mid, t'.containers, u.containers);
    NamesPermute(t.volumes, t'.volumes, VolumeName);
  }

  // ---------- What is not compared ----------

  /** System labels, annotations and variables may come and go. */
  lemma SystemEntriesIgnored(m: StringMap, k: string, v: string, env: seq<EnvVar>, e: EnvVar)
    ensures SystemLabel(k) ==> UserLabels(m[k := v]) == UserLabels(m)
    ensures SystemAnnotation(k) ==> UserAnnotations(m[k := v]) == UserAnnotations(m)
    ensures SystemEnv(e) ==> SameEnv(env + [e], env)
  {
    assert (env + [e])[..|env|] == env;
  }

  const ROLE_SIZE_ANNOTATION := "rolebasedgroup.workloads.x-k8s.io/role-size"

  /** In particular the role-size annotation: a resize alone never looks like a new template. */
  lemma RoleSizeNotCompared(annotations: StringMap, size: string)
    ensures UserAnnotations(annotations[ROLE_SIZE_ANNOTATION := size]) == UserAnnotations(annotations)
  {
    var prefix := "rolebasedgroup.workloads.x-k8s.io/";
    assert ROLE_SIZE_ANNOTATION == prefix + "role-size";
    assert SystemLabel(ROLE_SIZE_ANNOTATION);
  }

  /** The container with other variable sources and mount paths. */
  predicate OnlySourcesDiffer(c: Container, c': Container) {
    && c' == c.(env := c'.env, volumeMounts := c'.volumeMounts)
    && |c'.env| == |c.env| && |c'.volumeMounts| == |c.volumeMounts|
    && (forall i :: 0 <= i < |c.env| ==> c'.env[i].name == c.env[i].name && c'.env[i].value == c.env[i].value)
    && (forall i :: 0 <= i < |c.volumeMounts| ==> c'.volumeMounts[i].name == c.volumeMounts[i].name)
  }

  lemma {:induction false} SourcesNotInPairs(env: seq<EnvVar>, env': seq<EnvVar>)
    requires |env| == |env'|
    requires forall i :: 0 <= i < |env| ==> env'[i].name == env[i].name && env'[i].value == env[i].value
    ensures AgreeEverywhere(UserEnvs(env), UserEnvs(env'))
  {
    if env != [] {
      SourcesNotInPairs(env[..|env| - 1], env'[..|env| - 1]);
      assert SystemEnv(env[|env| - 1]) <==> SystemEnv(env'[|env| - 1]);
    }
  }

  /** A change of a variable's source or a mount's path only is not seen, so it is never rolled out. */
  lemma SourceChangesUnseen(c: Container, c': Container)
    requires OnlySourcesDiffer(c, c')
    ensures SameContainer(c, c')
  {
    SourcesNotInPairs(c.env, c'.env);
    PlacesFixPairs(UserEnvs(c.env), UserEnvs(c'.env));
    assert Names(c.volumeMounts, MountName) == Names(c'.volumeMounts, MountName);
  }

  // ---------- Two constructions from one role ----------

  function Configured(containers: seq<Container>): (r: seq<Container>)
    ensures |r| == |containers|
  {
    seq(|containers|, i requires 0 <= i < |containers| =>
          containers[i].(volumeMounts := WithConfigMount(containers[i].volumeMounts)))
  }

  /** What injecting configuration, sidecars and the role's variables, in that order, makes of a template. */
  predicate Constructed(containers: seq<Container>, volumes: seq<Volume>, source: string, runtimes: seq<EngineRuntime>,
                        vars: seq<EnvVar>, containers': seq<Container>, volumes': seq<Volume>) {
    var withSidecars := WithSidecars(Configured(containers), WithConfigVolume(volumes, source), runtimes);
    && withSidecars.Some? && volumes' == withSidecars.value.1
    && |containers'| == |withSidecars.value.0|
    && forall i :: 0 <= i < |containers'| ==> InjectedContainer(withSidecars.value.0[i], vars, containers'[i])
  }

  predicate InjectedContainer(c: Container, vars: seq<EnvVar>, c': Container) {
    c' == c.(env := c'.env) && IsCanonical(c'.env, Merged(c.env, vars))
  }

  /** The injections in the order the reconciler makes them; it fails if a sidecar profile is missing. */
  method ConstructPodTemplate(containers: seq<Container>, volumes: seq<Volume>, group: Group.Group,
                              role: Group.RoleSpec,
                              runtimes: seq<EngineRuntime>)
    returns (ok: bool, containers': seq<Container>, volumes': seq<Volume>, vars: seq<EnvVar>)
    ensures ok <==> WithSidecars(Configured(containers), WithConfigVolume(volumes, Group.WorkloadName(group, role)),
              runtimes).Some?
    ensures ok ==> IsCanonical(vars, ToMap(LocalRoleVars(group, role)))
                   && Constructed(containers, volumes, Group.WorkloadName(group, role), runtimes, vars, containers',
                     volumes')
  {
    var template := new Template(containers, volumes);
    template.InjectConfig(Group.WorkloadName(group, role));
    assert template.containers == Configured(containers);
    ok := InjectSidecar(template, runtimes);
    containers', volumes', vars := [], [], [];
    if ok {
      ghost var withSidecars := template.containers;
      vars := BuildEnv(group, role);
      hide IsCanonical;
      template.InjectEnv(vars);
      containers', volumes' := template.containers, template.volumes;
      assert forall i :: 0 <= i < |containers'| ==> InjectedContainer(withSidecars[i], vars, containers'[i]);
    }
  }

  lemma InjectedContainerUnique(c: Container, vars: seq<EnvVar>, c1: Container, c2: Container)
    requires InjectedContainer(c, vars, c1) && InjectedContainer(c, vars, c2)
    ensures c1 == c2 && DistinctNames(c1.env, EnvName)
  {
    MergedKeyed(c.env, vars);
    CanonicalUnique(c1.env, c2.env, Merged(c.env, vars));
  }

  lemma ConstructedUnique(containers: seq<Container>, volumes: seq<Volume>, source: string,
                          runtimes: seq<EngineRuntime>,
                          vars: seq<EnvVar>, cs1: seq<Container>, vs1: seq<Volume>, cs2: seq<Container>,
                            vs2: seq<Volume>)
    requires Constructed(containers, volumes, source, runtimes, vars, cs1, vs1)
    requires Constructed(containers, volumes, source, runtimes, vars, cs2, vs2)
    requires DistinctNames(containers, ContainerName)
    ensures cs1 == cs2 && vs1 == vs2 && WellFormed(cs1)
  {
    var configured := Configured(containers);
    assert forall i :: 0 <= i < |containers| ==> ContainerName(configured[i]) == ContainerName(containers[i]);
    SidecarsExtend(configured, WithConfigVolume(volumes, source), runtimes);
    var mid := WithSidecars(configured, WithConfigVolume(volumes, source), runtimes).value.0;
    hide IsCanonical, WithSidecars, Merged;
    forall i | 0 <= i < |mid| ensures cs1[i] == cs2[i] && DistinctNames(cs1[i].env, EnvName)
      && cs1[i].name == mid[i].name {
      InjectedContainerUnique(mid[i], vars, cs1[i], cs2[i]);
    }
    forall i, j | 0 <= i < j < |cs1| ensures cs1[i].name != cs1[j].name {
      assert ContainerName(mid[i]) != ContainerName(mid[j]);
    }
  }

  /**
   Constructing the template of an unchanged role again gives the same template, whatever order the
   maps were iterated in; and it compares equal, so no rolling update is started.
   */
  lemma ConstructionStable(containers: seq<Container>, volumes: seq<Volume>, group: Group.Group, role: Group.RoleSpec,
                           runtimes: seq<EngineRuntime>,
                           vars1: seq<EnvVar>, cs1: seq<Container>, vs1: seq<Volume>,
                           vars2: seq<EnvVar>, cs2: seq<Container>, vs2: seq<Volume>)
    requires IsCanonical(vars1, ToMap(LocalRoleVars(group, role)))
               && IsCanonical(vars2, ToMap(LocalRoleVars(group, role)))
    requires Constructed(containers, volumes, Group.WorkloadName(group, role), runtimes, vars1, cs1, vs1)
    requires Constructed(containers, volumes, Group.WorkloadName(group, role), runtimes, vars2, cs2, vs2)
    requires DistinctNames(containers, ContainerName)
    ensures cs1 == cs2 && vs1 == vs2 && WellFormed(cs1)
    ensures forall labels, annotations ::
              SameTemplate(PodTemplateSpec(labels, annotations, cs1, vs1),
                PodTemplateSpec(labels, annotations, cs2, vs2))
  {
    ToMapKeyed(LocalRoleVars(group, role));
    CanonicalUnique(vars1, vars2, ToMap(LocalRoleVars(group, role)));
    ConstructedUnique(containers, volumes, Group.WorkloadName(group, role), runtimes, vars1, cs1, vs1, cs2, vs2);
    hide IsCanonical, Constructed, SameTemplate;
    forall labels, annotations
      ensures SameTemplate(PodTemplateSpec(labels, annotations, cs1, vs1),
                PodTemplateSpec(labels, annotations, cs2, vs2))
    {
      SameTemplateReflexive(PodTemplateSpec(labels, annotations, cs1, vs1));
    }
  }

  // ---------- What a constructed template holds ----------

  lemma RoleVarsLast(group: Group.Group, role: Group.RoleSpec, e: EnvVar)
    ensures var vars := LocalRoleVars(group, role);
            (exists i :: 0 <= i < |vars| && vars[i].name == e.name) <==>
              e.name in {"GROUP_NAME", "ROLE_NAME"}
              || (e.name == "ROLE_INDEX" && role.workload.kind in {"StatefulSet", "LeaderWorkerSet"})
    ensures LastNamed(LocalRoleVars(group, role), e) <==>
              || e == EnvVar("GROUP_NAME", group.name, "") || e == EnvVar("ROLE_NAME", role.name, "")
              || (role.workload.kind in {"StatefulSet", "LeaderWorkerSet"}
                  && e == EnvVar("ROLE_INDEX", "", "metadata.labels['apps.kubernetes.io/pod-index']"))
  {
    var vars := LocalRoleVars(group, role);
    assert vars[0].name != vars[1].name by {
      assert vars[0].name[0] != vars[1].name[0];
    }
    if |vars| == 3 {
      assert vars[2].name != vars[0].name by {
        assert vars[2].name[0] != vars[0].name[0];
      }
      assert vars[2].name != vars[1].name by {
        assert vars[2].name[5] != vars[1].name[5];
      }
      assert vars[2] == EnvVar("ROLE_INDEX", "", "metadata.labels['apps.kubernetes.io/pod-index']");
    }
    assert vars[0] == EnvVar("GROUP_NAME", group.name, "") && vars[1] == EnvVar("ROLE_NAME", role.name, "");
  }

  /**
   Every container of a constructed template, the sidecars' included, is told the names of its group
   and role and, in a workload with ordinals, its pod's index, whatever it said itself; any other
   variable of a name is the last one it had.
   */
  lemma ConstructedVars(containers: seq<Container>, volumes: seq<Volume>, group: Group.Group, role: Group.RoleSpec,
                        runtimes: seq<EngineRuntime>, vars: seq<EnvVar>, cs: seq<Container>, vs: seq<Volume>, i: nat,
                          e: EnvVar)
    requires IsCanonical(vars, ToMap(LocalRoleVars(group, role)))
    requires Constructed(containers, volumes, Group.WorkloadName(group, role), runtimes, vars, cs, vs) && i < |cs|
    ensures var mid := WithSidecars(Configured(containers),
              WithConfigVolume(volumes, Group.WorkloadName(group, role)), runtimes).value.0;
            && |mid| == |cs| && cs[i] == mid[i].(env := cs[i].env)
            && (e in cs[i].env <==>
                  if e.name in {"GROUP_NAME", "ROLE_NAME"}
                     || (e.name == "ROLE_INDEX" && role.workload.kind in {"StatefulSet", "LeaderWorkerSet"}) then
                    || e == EnvVar("GROUP_NAME", group.name, "") || e == EnvVar("ROLE_NAME", role.name, "")
                    || e == EnvVar("ROLE_INDEX", "", "metadata.labels['apps.kubernetes.io/pod-index']")
                  else LastNamed(mid[i].env, e))
  {
    var mid := WithSidecars(Configured(containers), WithConfigVolume(volumes, Group.WorkloadName(group, role)),
      runtimes).value.0;
    hide WithSidecars;
    assert InjectedContainer(mid[i], vars, cs[i]);
    CanonicalVars(group, role, vars);
    InjectedExactly(mid[i].env, vars, cs[i].env, e);
    hide IsCanonical, LastNamed, LocalRoleVars;
    VarsHold(group, role, vars, e);
  }

  lemma CanonicalVars(group: Group.Group, role: Group.RoleSpec, vars: seq<EnvVar>)
    requires IsCanonical(vars, ToMap(LocalRoleVars(group, role)))
    ensures ToMap(vars) == ToMap(LocalRoleVars(group, role))
  {
    ToMapKeyed(LocalRoleVars(group, role));
    CanonicalToMap(vars, ToMap(LocalRoleVars(group, role)));
  }

  lemma VarsHold(group: Group.Group, role: Group.RoleSpec, vars: seq<EnvVar>, e: EnvVar)
    requires ToMap(vars) == ToMap(LocalRoleVars(group, role))
    ensures (exists i :: 0 <= i < |vars| && vars[i].name == e.name) <==>
              e.name in {"GROUP_NAME", "ROLE_NAME"}
              || (e.name == "ROLE_INDEX" && role.workload.kind in {"StatefulSet", "LeaderWorkerSet"})
    ensures LastNamed(vars, e) <==>
              || e == EnvVar("GROUP_NAME", group.name, "") || e == EnvVar("ROLE_NAME", role.name, "")
              || (role.workload.kind in {"StatefulSet", "LeaderWorkerSet"}
                  && e == EnvVar("ROLE_INDEX", "", "metadata.labels['apps.kubernetes.io/pod-index']"))
  {
    ToMapLast(vars, e);
    ToMapLast(LocalRoleVars(group, role), e);
    RoleVarsLast(group, role, e);
    hide ToMap, LastNamed;
  }
}
