/** The scaling adapters of a group: created and deleted role by role, orphans removed at the end of a pass. */
module ScalingAdapters {
  import opened Wrappers
  import opened Group

  datatype TargetRef = TargetRef(group: string, role: string)

  /** `labelled` says it carries the group's name label. */
  datatype AdapterObject = AdapterObject(owners: set<string>, labelled: bool, target: Option<TargetRef>)

  type Adapters = map<string, AdapterObject>

  function NewAdapter(group: Group, role: RoleSpec): AdapterObject {
    AdapterObject({group.uid}, true, Some(TargetRef(group.name, role.name)))
  }

  /** Found but not wanted: deleted, whoever owns it. Wanted but not found: created. */
  function Reconciled(group: Group, role: RoleSpec, adapters: Adapters): Adapters {
    var name := WorkloadName(group, role);
    if name in adapters then
      if role.scalingAdapter then adapters else map k | k in adapters && k != name :: adapters[k]
    else if role.scalingAdapter then adapters[name := NewAdapter(group, role)]
    else adapters
  }

  function ReconciledAll(group: Group, roles: seq<RoleSpec>, adapters: Adapters): Adapters {
    if roles == [] then adapters
    else Reconciled(group, roles[|roles| - 1], ReconciledAll(group, roles[..|roles| - 1], adapters))
  }

  /** Owned and labelled, and aimed at a role this group does not have. */
  predicate Orphan(group: Group, a: AdapterObject) {
    && a.labelled && group.uid in a.owners && a.target.Some? && a.target.value.group == group.name
    && forall r <- group.roles :: r.name != a.target.value.role
  }

  function WithoutOrphans(group: Group, adapters: Adapters): Adapters {
    map k | k in adapters && !Orphan(group, adapters[k]) :: adapters[k]
  }

  class AdapterStore {
    var adapters: Adapters

    constructor (adapters: Adapters)
      ensures this.adapters == adapters
    {
      this.adapters := adapters;
    }

    method ReconcileScalingAdapter(group: Group, role: RoleSpec)
      modifies this
      ensures adapters == Reconciled(group, role, old(adapters))
    {
      var name := WorkloadName(group, role);
      if name in adapters {
        if !role.scalingAdapter {
          adapters := map k | k in adapters && k != name :: adapters[k];
        }
        return;
      }
      if role.scalingAdapter {
        adapters := adapters[name := NewAdapter(group, role)];
      }
    }

    method CleanupOrphanedScalingAdapters(group: Group)
      modifies this
      ensures adapters == WithoutOrphans(group, old(adapters))
    {
      var listed := adapters.Keys;
      ghost var was := adapters;
      while listed != {}
        invariant listed <= adapters.Keys
        invariant forall k :: k in adapters ==> k in was && adapters[k] == was[k]
        invariant forall k :: k in was && k !in adapters ==> Orphan(group, was[k])
        invariant forall k :: k in adapters && k !in listed ==> !Orphan(group, was[k])
        decreases listed
      {
        var k :| k in listed;
        listed := listed - {k};
        var a := adapters[k];
        if !a.labelled || group.uid !in a.owners || a.target.None? || a.target.value.group != group.name {
          continue;
        }
        var wanted, found := a.target.value.role, false;
        for i := 0 to |group.roles|
          invariant found ==> exists r :: r in group.roles && r.name == wanted
          invariant !found ==> forall j :: 0 <= j < i ==> group.roles[j].name != wanted
        {
          if group.roles[i].name == wanted {
            assert group.roles[i] in group.roles;
            found := true;
            break;
          }
        }
        if !found {
          adapters := map j | j in adapters && j != k :: adapters[j];
        }
      }
    }

    /** What a completed pass does to the adapters. */
    method FinishPass(group: Group, roles: seq<RoleSpec>)
      modifies this
      ensures adapters == WithoutOrphans(group, ReconciledAll(group, roles, old(adapters)))
    {
      for i := 0 to |roles|
        invariant adapters == ReconciledAll(group, roles[..i], old(adapters))
      {
        assert roles[..i + 1][..i] == roles[..i];
        ReconcileScalingAdapter(group, roles[i]);
      }
      assert roles[..|roles|] == roles;
      CleanupOrphanedScalingAdapters(group);
    }
  }

  function Find(adapters: Adapters, name: string): Option<AdapterObject> {
    if name in adapters then Some(adapters[name]) else None
  }

  /** The adapter a role leaves under its name. */
  function Outcome(group: Group, role: RoleSpec, existing: Option<AdapterObject>): Option<AdapterObject> {
    if !role.scalingAdapter then None else if existing.Some? then existing else Some(NewAdapter(group, role))
  }

  lemma ReconciledMeaning(group: Group, role: RoleSpec, adapters: Adapters, name: string)
    ensures Find(Reconciled(group, role, adapters), name)
            == if WorkloadName(group, role) == name then Outcome(group, role, Find(adapters, name))
              else Find(adapters, name)
  {
  }

  lemma {:induction false} OtherNamesUntouched(group: Group, roles: seq<RoleSpec>, adapters: Adapters, name: string)
    requires forall i :: 0 <= i < |roles| ==> WorkloadName(group, roles[i]) != name
    ensures Find(ReconciledAll(group, roles, adapters), name) == Find(adapters, name)
  {
    if roles != [] {
      OtherNamesUntouched(group, roles[..|roles| - 1], adapters, name);
      ReconciledMeaning(group, roles[|roles| - 1], ReconciledAll(group, roles[..|roles| - 1], adapters), name);
    }
  }

  lemma {:induction false} RoleOutcome(group: Group, roles: seq<RoleSpec>, adapters: Adapters, k: nat)
    requires UniqueNames(roles) && k < |roles|
    ensures var name := WorkloadName(group, roles[k]);
            Find(ReconciledAll(group, roles, adapters), name) == Outcome(group, roles[k], Find(adapters, name))
  {
    hide WorkloadName, Outcome;
    var front, last, name := roles[..|roles| - 1], |roles| - 1, WorkloadName(group, roles[k]);
    ReconciledMeaning(group, roles[last], ReconciledAll(group, front, adapters), name);
    if k == last {
      forall i | 0 <= i < |front| ensures WorkloadName(group, front[i]) != name {
        DifferentNames(group, roles, i, last);
      }
      OtherNamesUntouched(group, front, adapters, name);
    } else {
      DifferentNames(group, roles, k, last);
      RoleOutcome(group, front, adapters, k);
    }
  }

  lemma DifferentNames(group: Group, roles: seq<RoleSpec>, i: nat, j: nat)
    requires UniqueNames(roles) && i < j < |roles|
    ensures WorkloadName(group, roles[i]) != WorkloadName(group, roles[j])
  {
    if WorkloadName(group, roles[i]) == WorkloadName(group, roles[j]) {
      WorkloadNameInjective(group, roles[i], roles[j]);
    }
  }

  /**
   After a completed pass a role without the adapter has none, a role with it has one unless what
   already stood under its name was an orphan, and no orphan is left.
   */
  lemma AdaptersConverge(group: Group, roles: seq<RoleSpec>, adapters: Adapters)
    requires UniqueNames(roles) && forall r :: r in roles <==> r in group.roles
    ensures var after := WithoutOrphans(group, ReconciledAll(group, roles, adapters));
            && (forall r <- roles :: WorkloadName(group, r) in after <==>
                  r.scalingAdapter && !(WorkloadName(group, r) in adapters
                    && Orphan(group, adapters[WorkloadName(group, r)])))
            && (forall k <- after :: !Orphan(group, after[k]))
  {
    forall r | r in roles
      ensures WorkloadName(group, r) in WithoutOrphans(group, ReconciledAll(group, roles, adapters)) <==>
                r.scalingAdapter && !(WorkloadName(group, r) in adapters
                  && Orphan(group, adapters[WorkloadName(group, r)]))
    {
      var k :| 0 <= k < |roles| && roles[k] == r;
      RoleOutcome(group, roles, adapters, k);
      assert r in group.roles;
      assert !Orphan(group, NewAdapter(group, r));
    }
  }

  /**
   What stands under a role's name afterwards: for a role that wants an adapter what stood there
   before, or a new one that carries the group's label, is owned by the group and aims at the role.
   What stands under no role's name stays unless it is the group's own and aims at a role it lacks.
   */
  lemma AdaptersExactly(group: Group, roles: seq<RoleSpec>, adapters: Adapters, name: string)
    requires UniqueNames(roles) && forall r :: r in roles <==> r in group.roles
    ensures var after := WithoutOrphans(group, ReconciledAll(group, roles, adapters));
            && (forall r <- roles :: name == group.name + "-" + r.name ==>
                  && (!r.scalingAdapter ==> name !in after)
                  && (r.scalingAdapter && name !in adapters ==>
                        name in after
                        && after[name] == AdapterObject({group.uid}, true, Some(TargetRef(group.name, r.name)))))
            && (name in after && name in adapters ==> after[name] == adapters[name])
            && ((forall r <- roles :: name != group.name + "-" + r.name) ==>
                  (name in after <==>
                     name in adapters
                     && !(adapters[name].labelled && group.uid in adapters[name].owners
                          && exists target :: adapters[name].target == Some(TargetRef(group.name, target))
                                              && forall r <- roles :: r.name != target)))
  {
    if k :| 0 <= k < |roles| && name == WorkloadName(group, roles[k]) {
      RoleOutcome(group, roles, adapters, k);
      assert roles[k] in roles && roles[k] in group.roles;
      assert !Orphan(group, NewAdapter(group, roles[k]));
      forall r | r in roles && name == group.name + "-" + r.name ensures r == roles[k] {
        assert name == WorkloadName(group, r);
        var i :| 0 <= i < |roles| && roles[i] == r;
        if i < k {
          DifferentNames(group, roles, i, k);
        } else if k < i {
          DifferentNames(group, roles, k, i);
        }
      }
    } else {
      forall i | 0 <= i < |roles| ensures WorkloadName(group, roles[i]) != name {
        assert roles[i] in roles;
      }
      OtherNamesUntouched(group, roles, adapters, name);
      if name in adapters && adapters[name].target.Some? {
        var t := adapters[name].target.value;
        assert t == TargetRef(t.group, t.role);
      }
    }
  }

  /**
   Adapter names are only unique within a group: one group's pass deletes another group's adapter
   exactly when it has a role of the colliding name without an adapter of its own.
   */
  lemma ForeignAdapterDeletedExactly(group: Group, roles: seq<RoleSpec>, adapters: Adapters, name: string)
    requires UniqueNames(roles) && name in adapters && group.uid !in adapters[name].owners
    ensures name !in WithoutOrphans(group, ReconciledAll(group, roles, adapters)) <==>
              exists r :: r in roles && WorkloadName(group, r) == name && !r.scalingAdapter
  {
    if k :| 0 <= k < |roles| && WorkloadName(group, roles[k]) == name {
      RoleOutcome(group, roles, adapters, k);
      assert forall r :: r in roles && WorkloadName(group, r) == name ==> r == roles[k] by {
        forall r | r in roles && WorkloadName(group, r) == name ensures r == roles[k] {
          var i :| 0 <= i < |roles| && roles[i] == r;
          if i < k {
            DifferentNames(group, roles, i, k);
          } else if k < i {
            DifferentNames(group, roles, k, i);
          }
        }
      }
    } else {
      OtherNamesUntouched(group, roles, adapters, name);
    }
  }

  /** Such names exist: group "a-b" with role "c", and group "a" with role "b-c". */
  lemma AdapterNamesCollide(g1: Group, r1: RoleSpec, g2: Group, r2: RoleSpec)
    requires g1.name == "a-b" && r1.name == "c" && g2.name == "a" && r2.name == "b-c"
    ensures WorkloadName(g1, r1) == WorkloadName(g2, r2) == "a-b-c"
  {
  }
}
