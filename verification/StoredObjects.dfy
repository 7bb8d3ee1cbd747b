/**
 A StatefulSet as the API server keeps it: what the reconciler applied, on top of what others put
 there. Exactly when the comparison finds it up to date after a patch, and so how often an
 unchanged role starts a rolling update.
 */
module StoredObjects {
  import opened Wrappers
  import opened Sorting
  import opened PodTemplate
  import opened TemplateEquality
  import opened TemplateLaws
  import opened RollingUpdate
  import opened RoleChanges

  datatype Meta = Meta(labels: StringMap, annotations: StringMap)

  /** What of a StatefulSet is compared. */
  datatype StsObject = StsObject(meta: Meta, selector: StringMap, serviceName: string, template: PodTemplateSpec)

  predicate SameMeta(m1: Meta, m2: Meta) {
    UserLabels(m1.labels) == UserLabels(m2.labels) && UserAnnotations(m1.annotations) == UserAnnotations(m2.annotations)
  }

  predicate SameObject(o1: StsObject, o2: StsObject) {
    && SameMeta(o1.meta, o2.meta) && o1.selector == o2.selector && o1.serviceName == o2.serviceName
    && SameTemplate(o1.template, o2.template)
  }

  /** An absent object is never up to date. */
  method SemanticallyEqualStatefulSet(oldSts: Option<StsObject>, newSts: StsObject) returns (equal: bool)
    ensures oldSts.None? ==> !equal
    ensures oldSts.Some? && WellFormed(oldSts.value.template.containers) && WellFormed(newSts.template.containers) ==>
              (equal <==> SameObject(oldSts.value, newSts))
  {
    if oldSts.None? {
      return false;
    }
    var o := oldSts.value;
    equal := ObjectMetaEqual(o.meta.labels, o.meta.annotations, newSts.meta.labels, newSts.meta.annotations);
    if !equal {
      return false;
    }
    if o.selector != newSts.selector || o.serviceName != newSts.serviceName {
      return false;
    }
    equal := PodTemplateSpecEqual(o.template, newSts.template);
  }

  /** A different selector, service name or template, or a user label or annotation that differs, is an update. */
  lemma DifferenceSeen(o1: StsObject, o2: StsObject, k: string)
    requires || o1.selector != o2.selector || o1.serviceName != o2.serviceName
               || !SameTemplate(o1.template, o2.template)
             || (!("app.kubernetes.io/" <= k) && !("rolebasedgroup.workloads.x-k8s.io/" <= k)
                 && ((k in o1.meta.labels) != (k in o2.meta.labels)
                     || (k in o1.meta.labels && k in o2.meta.labels && o1.meta.labels[k] != o2.meta.labels[k])))
             || (!("app.kubernetes.io/" <= k) && !("rolebasedgroup.workloads.x-k8s.io/" <= k)
                 && !("deployment.kubernetes.io/revision" <= k)
                 && ((k in o1.meta.annotations) != (k in o2.meta.annotations)
                     || (k in o1.meta.annotations && k in o2.meta.annotations
                         && o1.meta.annotations[k] != o2.meta.annotations[k])))
    ensures !SameObject(o1, o2)
  {
    UserLabelsExactly(o1.meta.labels, o2.meta.labels);
    UserAnnotationsExactly(o1.meta.annotations, o2.meta.annotations);
    hide UserLabels, UserAnnotations, SameTemplate;
  }

  // ---------- Server-side apply ----------

  /** Labels and annotations that others own, on the object and on its template. */
  datatype Foreign = Foreign(onObject: Meta, onTemplate: Meta)

  function Merge(foreign: Meta, applied: Meta): Meta {
    Meta(foreign.labels + applied.labels, foreign.annotations + applied.annotations)
  }

  function TemplateMeta(t: PodTemplateSpec): Meta { Meta(t.labels, t.annotations) }

  /** The server fills in a pull policy that was left open. */
  predicate Defaulted(c: Container, c': Container) {
    c' == c.(imagePullPolicy := c'.imagePullPolicy)
      && (c.imagePullPolicy == "" || c'.imagePullPolicy == c.imagePullPolicy)
  }

  /** What is stored once `obj` was applied: conflicts are forced, and what others own otherwise stays. */
  predicate IsStored(stored: StsObject, foreign: Foreign, obj: StsObject) {
    && stored == obj.(meta := Merge(foreign.onObject, obj.meta), template := stored.template)
    && TemplateMeta(stored.template) == Merge(foreign.onTemplate, TemplateMeta(obj.template))
    && stored.template.volumes == obj.template.volumes
    && |stored.template.containers| == |obj.template.containers|
    && forall i :: 0 <= i < |obj.template.containers| ==>
      Defaulted(obj.template.containers[i], stored.template.containers[i])
  }

  /** Everything foreign that was not overridden is of the system's own. */
  predicate OnlySystemKeys(foreign: Meta, applied: Meta) {
    && (forall k <- foreign.labels :: k in applied.labels || SystemLabel(k))
    && (forall k <- foreign.annotations :: k in applied.annotations || SystemAnnotation(k))
  }

  predicate Unseen(foreign: Foreign, obj: StsObject) {
    OnlySystemKeys(foreign.onObject, obj.meta) && OnlySystemKeys(foreign.onTemplate, TemplateMeta(obj.template))
  }

  lemma MergedSameExactly(foreign: Meta, applied: Meta)
    ensures SameMeta(Merge(foreign, applied), applied) <==> OnlySystemKeys(foreign, applied)
  {
    var merged := Merge(foreign, applied);
    hide SystemLabel, SystemAnnotation;
    if SameMeta(merged, applied) {
      forall k | k in foreign.labels && !SystemLabel(k) ensures k in applied.labels {
        assert k in UserLabels(merged.labels);
      }
      forall k | k in foreign.annotations && !SystemAnnotation(k) ensures k in applied.annotations {
        assert k in UserAnnotations(merged.annotations);
      }
    }
  }

  lemma DefaultedSame(obj: seq<Container>, stored: seq<Container>)
    requires DistinctNames(obj, ContainerName) && |stored| == |obj|
    requires forall i :: 0 <= i < |obj| ==> Defaulted(obj[i], stored[i])
    ensures SameContainers(stored, obj)
  {
    assert Names(stored, ContainerName) == Names(obj, ContainerName);
    forall c1, c2 | c1 in stored && c2 in obj && c1.name == c2.name ensures SameContainer(c1, c2) {
      var i :| 0 <= i < |stored| && stored[i] == c1;
      assert obj[i] in obj;
      SameNameSameElement(obj, ContainerName, obj[i], c2);
    }
  }

  /**
   After a patch the stored object is found up to date exactly if every key that others put on it or
   on its template is a system key: the comparison goes both ways.
   */
  lemma PatchedUpToDateExactly(stored: StsObject, foreign: Foreign, obj: StsObject)
    requires IsStored(stored, foreign, obj) && DistinctNames(obj.template.containers, ContainerName)
    ensures SameObject(stored, obj) <==> Unseen(foreign, obj)
  {
    MergedSameExactly(foreign.onObject, obj.meta);
    MergedSameExactly(foreign.onTemplate, TemplateMeta(obj.template));
    DefaultedSame(obj.template.containers, stored.template.containers);
    hide SystemLabel, SystemAnnotation, OnlySystemKeys, SameContainers, Defaulted;
    var merged := Merge(foreign.onTemplate, TemplateMeta(obj.template));
    assert UserLabels(stored.template.labels) == UserLabels(merged.labels);
  }

  // ---------- Passes over an unchanged role ----------

  /** A later pass: the object as it is read, what others have put on it by then, what is observed. */
  datatype LaterPass = LaterPass(stored: StsObject, foreign: Foreign, obs: Observation)

  /** Passes that each construct `obj` from the role and read what the one before left, errors apart. */
  predicate LaterPasses(role: Role, obj: StsObject, passes: seq<LaterPass>, history: seq<Sts>) {
    && |history| == |passes| + 1 && history[0].Sts? && Consistent(history[0])
    && forall i :: 0 <= i < |passes| ==> LaterStep(role, obj, passes[i], history[i], history[i + 1])
  }

  predicate LaterStep(role: Role, obj: StsObject, pass: LaterPass, sts: Sts, next: Sts) {
    && IsStored(pass.stored, pass.foreign, obj)
    && (sts.Sts? && Consistent(sts) ==>
          Covers(pass.obs, sts) && Next(sts, role, SameObject(pass.stored, obj), pass.obs) == Ok(next))
  }

  lemma {:induction false} LaterConsistent(role: Role, plan: Plan, obj: StsObject, passes: seq<LaterPass>,
                                           history: seq<Sts>, k: nat)
    requires LaterPasses(role, obj, passes, history) && k < |history| && PlanFor(role) == Ok(plan)
    ensures history[k].Sts? && Consistent(history[k])
  {
    hide SameObject, Decision;
    if k > 0 {
      LaterConsistent(role, plan, obj, passes, history, k - 1);
      assert LaterStep(role, obj, passes[k - 1], history[k - 1], history[k]);
      PlanSize(role);
      DecisionBounds(role, plan, history[k - 1], SameObject(passes[k - 1].stored, obj), passes[k - 1].obs);
    }
  }

  /** With none but system keys about, an unchanged role starts no further update: the partition only sinks. */
  lemma UpdateStartsOnce(role: Role, plan: Plan, obj: StsObject, passes: seq<LaterPass>, history: seq<Sts>, k: nat)
    requires LaterPasses(role, obj, passes, history) && k < |passes| && PlanFor(role) == Ok(plan)
    requires DistinctNames(obj.template.containers, ContainerName) && Unseen(passes[k].foreign, obj)
    ensures history[k].Sts? && history[k + 1].Sts? && history[k + 1].partition <= history[k].partition
  {
    LaterConsistent(role, plan, obj, passes, history, k);
    LaterConsistent(role, plan, obj, passes, history, k + 1);
    assert LaterStep(role, obj, passes[k], history[k], history[k + 1]);
    PatchedUpToDateExactly(passes[k].stored, passes[k].foreign, obj);
    hide SameObject, Unseen, Decision, IsStored;
    DecisionBounds(role, plan, history[k], true, passes[k].obs);
  }

  /**
   While somebody else's own key stays on the object every pass starts the update anew: from the
   second on the partition is the role's size, so no old role replica is ever let go.
   */
  lemma {:induction false} ForeignKeyHoldsRollout(role: Role, plan: Plan, obj: StsObject, passes: seq<LaterPass>,
                                                  history: seq<Sts>, k: nat)
    requires LaterPasses(role, obj, passes, history) && k < |passes| && PlanFor(role) == Ok(plan)
    requires DistinctNames(obj.template.containers, ContainerName)
    requires forall i :: 0 <= i <= k ==> !Unseen(passes[i].foreign, obj)
    ensures history[k].Sts?
            && history[k + 1] == Sts(WantReplicas(plan.replicas, plan.surge, plan.replicas),
                                     Min(plan.replicas, history[k].replicas), Some(plan.replicas))
    ensures 1 <= k ==> history[k + 1].partition == plan.replicas
  {
    LaterConsistent(role, plan, obj, passes, history, k);
    assert LaterStep(role, obj, passes[k], history[k], history[k + 1]);
    PatchedUpToDateExactly(passes[k].stored, passes[k].foreign, obj);
    hide SameObject, Unseen, IsStored, PlanFor;
    if 1 <= k {
      ForeignKeyHoldsRollout(role, plan, obj, passes, history, k - 1);
    }
  }
}
