/**
 The group's status: the condition table and the role status table, rewritten in place by a pass
 that found something changed, and left alone by one that did not.
 */
module GroupStatus {
  import opened Wrappers

  datatype Condition = Condition(kind: string, status: bool, reason: string)
  datatype RoleStatus = RoleStatus(name: string, replicas: nat, ready: nat)

  const READY := "Ready"

  // ---------- Specification ----------

  /** Every entry of the type takes the new condition if its status differs. */
  function ReplaceCondition(conditions: seq<Condition>, c: Condition): (r: seq<Condition>)
    ensures |r| == |conditions|
  {
    seq(|conditions|, i requires 0 <= i < |conditions| =>
      if conditions[i].kind == c.kind && conditions[i].status != c.status then c else conditions[i])
  }

  predicate HasCondition(conditions: seq<Condition>, kind: string) {
    exists i :: 0 <= i < |conditions| && conditions[i].kind == kind
  }

  function WithCondition(conditions: seq<Condition>, c: Condition): seq<Condition> {
    ReplaceCondition(conditions, c) + if HasCondition(conditions, c.kind) then [] else [c]
  }

  /** Update the first entry of the name if its numbers differ, or append. */
  function WithStatus(statuses: seq<RoleStatus>, s: RoleStatus): seq<RoleStatus> {
    if statuses == [] then [s]
    else if statuses[0].name == s.name then [s] + statuses[1..]
    else [statuses[0]] + WithStatus(statuses[1..], s)
  }

  function WithStatuses(statuses: seq<RoleStatus>, observed: seq<RoleStatus>): seq<RoleStatus> {
    if observed == [] then statuses
    else WithStatus(WithStatuses(statuses, observed[..|observed| - 1]), observed[|observed| - 1])
  }

  predicate Serving(s: RoleStatus) { s.ready == s.replicas }

  predicate AllServing(statuses: seq<RoleStatus>) { forall s <- statuses :: Serving(s) }

  function ReadyCondition(ready: bool): Condition {
    if ready then Condition(READY, true, "AllRolesReady") else Condition(READY, false, "RoleNotReady")
  }

  /** The stored entry of a role; an empty name is never found. */
  function StatusOf(statuses: seq<RoleStatus>, name: string): Option<RoleStatus> {
    if name == "" || statuses == [] then None
    else if statuses[0].name == name then Some(statuses[0])
    else StatusOf(statuses[1..], name)
  }

  function ConditionOf(conditions: seq<Condition>, kind: string): Option<Condition> {
    if conditions == [] then None
    else if conditions[0].kind == kind then Some(conditions[0])
    else ConditionOf(conditions[1..], kind)
  }

  datatype Status = Status(conditions: seq<Condition>, roleStatuses: seq<RoleStatus>)

  /** A pass writes the status only if some role's numbers are new. */
  predicate SomethingNew(st: Status, observed: seq<RoleStatus>) {
    exists i :: 0 <= i < |observed| && StatusOf(st.roleStatuses, observed[i].name) != Some(observed[i])
  }

  function Written(st: Status, observed: seq<RoleStatus>): Status {
    Status(WithCondition(st.conditions, ReadyCondition(AllServing(observed))), WithStatuses(st.roleStatuses, observed))
  }

  function AfterPass(st: Status, observed: seq<RoleStatus>): Status {
    if SomethingNew(st, observed) then Written(st, observed) else st
  }

  // ---------- The tables in place ----------

  class StatusTable {
    var conditions: seq<Condition>
    var roleStatuses: seq<RoleStatus>

    ghost function View(): Status
      reads this
    {
      Status(conditions, roleStatuses)
    }

    constructor ()
      ensures View() == Status([], [])
    {
      conditions, roleStatuses := [], [];
    }

    method SetCondition(c: Condition)
      modifies this`conditions
      ensures conditions == WithCondition(old(conditions), c)
    {
      var found := false;
      ghost var was := conditions;
      for i := 0 to |conditions|
        invariant |conditions| == |was|
        invariant found <==> exists j :: 0 <= j < i && was[j].kind == c.kind
        invariant forall j :: 0 <= j < i ==> conditions[j] == ReplaceCondition(was, c)[j]
        invariant forall j :: i <= j < |was| ==> conditions[j] == was[j]
      {
        if c.kind == conditions[i].kind {
          found := true;
          if c.status != conditions[i].status {
            conditions := conditions[i := c];
          }
        }
      }
      assert conditions == ReplaceCondition(was, c);
      if !found {
        conditions := conditions + [c];
      }
    }

    /** One round of the loop over the observed statuses. */
    method UpsertStatus(s: RoleStatus)
      modifies this`roleStatuses
      ensures roleStatuses == WithStatus(old(roleStatuses), s)
    {
      ghost var was := roleStatuses;
      for j := 0 to |roleStatuses|
        invariant roleStatuses == was
        invariant WithStatus(was, s) == was[..j] + WithStatus(was[j..], s)
      {
        if s.name == roleStatuses[j].name {
          assert WithStatus(was, s) == was[..j] + ([s] + was[j + 1..]);
          if s.replicas != roleStatuses[j].replicas || s.ready != roleStatuses[j].ready {
            roleStatuses := roleStatuses[j := s];
          }
          return;
        }
      }
      roleStatuses := roleStatuses + [s];
    }

    method UpdateStatus(observed: seq<RoleStatus>)
      modifies this
      ensures View() == Written(old(View()), observed)
    {
      var groupReady := true;
      for i := 0 to |observed|
        invariant groupReady
        invariant forall j :: 0 <= j < i ==> Serving(observed[j])
      {
        if observed[i].ready != observed[i].replicas {
          groupReady := false;
          assert observed[i] in observed;
          break;
        }
      }
      SetCondition(ReadyCondition(groupReady));
      for i := 0 to |observed|
        invariant conditions == WithCondition(old(conditions), ReadyCondition(groupReady))
        invariant roleStatuses == WithStatuses(old(roleStatuses), observed[..i])
      {
        assert observed[..i + 1][..i] == observed[..i];
        UpsertStatus(observed[i]);
      }
      assert observed[..|observed|] == observed;
    }

    /** What a role's workload shows, and whether that differs from what is stored. */
    method ConstructRoleStatus(name: string, replicas: nat, ready: nat) returns (status: RoleStatus, changed: bool)
      ensures status == RoleStatus(name, replicas, ready)
      ensures changed <==> StatusOf(roleStatuses, name) != Some(status)
    {
      status, changed := RoleStatus(name, replicas, ready), true;
      if name != "" {
        for i := 0 to |roleStatuses|
          invariant StatusOf(roleStatuses, name) == StatusOf(roleStatuses[i..], name)
          invariant changed && status == RoleStatus(name, replicas, ready)
        {
          if roleStatuses[i].name == name {
            changed := roleStatuses[i].replicas != replicas || roleStatuses[i].ready != ready;
            break;
          }
        }
      }
    }

    /** The status part of a completed pass. */
    method FinishPass(workloads: seq<RoleStatus>)
      modifies this
      ensures View() == AfterPass(old(View()), workloads)
    {
      var roleStatuses', update := [], false;
      for i := 0 to |workloads|
        invariant roleStatuses' == workloads[..i] && View() == old(View())
        invariant update <==> exists j :: 0 <= j < i && StatusOf(roleStatuses, workloads[j].name) != Some(workloads[j])
      {
        var status, changed := ConstructRoleStatus(workloads[i].name, workloads[i].replicas, workloads[i].ready);
        assert changed <==> StatusOf(roleStatuses, workloads[i].name) != Some(workloads[i]);
        update := update || changed;
        roleStatuses' := roleStatuses' + [status];
      }
      if update {
        assert roleStatuses' == workloads;
        UpdateStatus(roleStatuses');
      }
    }
  }

  // ---------- Uniqueness and lookup ----------

  predicate UniqueConditions(conditions: seq<Condition>) {
    forall i, j :: 0 <= i < j < |conditions| ==> conditions[i].kind != conditions[j].kind
  }

  predicate UniqueStatuses(statuses: seq<RoleStatus>) {
    forall i, j :: 0 <= i < j < |statuses| ==> statuses[i].name != statuses[j].name
  }

  lemma {:induction false} ConditionOfMeaning(conditions: seq<Condition>, kind: string)
    ensures match ConditionOf(conditions, kind)
            case None => !HasCondition(conditions, kind)
            case Some(c) => exists i :: 0 <= i < |conditions| && conditions[i] == c && c.kind == kind
                              && forall j :: 0 <= j < i ==> conditions[j].kind != kind
  {
    if conditions != [] {
      if conditions[0].kind == kind {
        assert conditions[0].kind == kind;
      } else {
        ConditionOfMeaning(conditions[1..], kind);
        if ConditionOf(conditions, kind).Some? {
          var c := ConditionOf(conditions, kind).value;
          var i :| 0 <= i < |conditions[1..]| && conditions[1..][i] == c && c.kind == kind
                   && forall j :: 0 <= j < i ==> conditions[1..][j].kind != kind;
          assert conditions[i + 1] == c;
          assert forall j :: 0 < j < i + 1 ==> conditions[j] == conditions[1..][j - 1];
        } else {
          assert forall j :: 0 < j < |conditions| ==> conditions[j] == conditions[1..][j - 1];
        }
      }
    }
  }

  /** Setting a condition keeps the types unique, sets its own status and no other type's entry. */
  lemma WithConditionMeaning(conditions: seq<Condition>, c: Condition)
    requires UniqueConditions(conditions)
    ensures UniqueConditions(WithCondition(conditions, c))
    ensures ConditionOf(WithCondition(conditions, c), c.kind).Some?
    ensures ConditionOf(WithCondition(conditions, c), c.kind).value.status == c.status
    ensures ConditionOf(WithCondition(conditions, c), c.kind)
            == match ConditionOf(conditions, c.kind)
               case Some(was) => if was.status == c.status then Some(was) else Some(c)
               case None => Some(c)
    ensures forall kind :: kind != c.kind ==>
              ConditionOf(WithCondition(conditions, c), kind) == ConditionOf(conditions, kind)
  {
    var after := WithCondition(conditions, c);
    assert forall i :: 0 <= i < |conditions| ==> after[i].kind == conditions[i].kind;
    ConditionOfMeaning(after, c.kind);
    ConditionOfMeaning(conditions, c.kind);
    if HasCondition(conditions, c.kind) {
      var i :| 0 <= i < |conditions| && conditions[i].kind == c.kind;
      assert after[i].kind == c.kind && after[i].status == c.status;
    } else {
      assert after[|conditions|] == c;
    }
    forall kind | kind != c.kind ensures ConditionOf(after, kind) == ConditionOf(conditions, kind) {
      OtherConditionsKept(conditions, c, kind);
    }
  }

  lemma {:induction false} OtherConditionsKept(conditions: seq<Condition>, c: Condition, kind: string)
    requires kind != c.kind
    ensures ConditionOf(WithCondition(conditions, c), kind) == ConditionOf(conditions, kind)
  {
    ConditionOfMeaning(WithCondition(conditions, c), kind);
    ConditionOfMeaning(conditions, kind);
    var after := WithCondition(conditions, c);
    assert forall i :: 0 <= i < |conditions| && conditions[i].kind == kind ==> after[i] == conditions[i];
    assert forall i :: 0 <= i < |conditions| ==> after[i].kind == conditions[i].kind;
    if ConditionOf(conditions, kind).Some? {
      var i :| 0 <= i < |conditions| && conditions[i].kind == kind;
      assert after[i].kind == kind;
    }
  }

  lemma {:induction false} WithStatusMeaning(statuses: seq<RoleStatus>, s: RoleStatus, name: string)
    requires UniqueStatuses(statuses)
    ensures UniqueStatuses(WithStatus(statuses, s))
    ensures StatusOf(WithStatus(statuses, s), name)
            == if name == s.name && name != "" then Some(s) else StatusOf(statuses, name)
    ensures forall x <- WithStatus(statuses, s) :: x == s || x in statuses
  {
    if statuses != [] && statuses[0].name != s.name {
      WithStatusMeaning(statuses[1..], s, name);
      var rest := WithStatus(statuses[1..], s);
      forall j | 0 <= j < |rest| ensures rest[j].name != statuses[0].name {
        assert rest[j] in rest;
        if rest[j] != s {
          assert rest[j] in statuses[1..];
          var i :| 0 <= i < |statuses[1..]| && statuses[1..][i] == rest[j];
          assert statuses[i + 1] == rest[j];
        }
      }
    }
  }

  lemma {:induction false} WithStatusesMeaning(statuses: seq<RoleStatus>, observed: seq<RoleStatus>, name: string)
    requires UniqueStatuses(statuses) && UniqueStatuses(observed) && name != ""
    ensures UniqueStatuses(WithStatuses(statuses, observed))
    ensures StatusOf(WithStatuses(statuses, observed), name)
            == if StatusOf(observed, name).Some? then StatusOf(observed, name) else StatusOf(statuses, name)
    ensures StatusOf(observed, name).Some? <==> exists s :: s in observed && s.name == name
  {
    if observed != [] {
      var front, last := observed[..|observed| - 1], observed[|observed| - 1];
      WithStatusesMeaning(statuses, front, name);
      WithStatusMeaning(WithStatuses(statuses, front), last, name);
      assert observed == front + [last];
      StatusOfAppend(front, last, name);
    }
  }

  lemma {:induction false} StatusOfAppend(front: seq<RoleStatus>, last: RoleStatus, name: string)
    requires UniqueStatuses(front + [last]) && name != ""
    ensures StatusOf(front + [last], name) == if last.name == name then Some(last) else StatusOf(front, name)
  {
    if front != [] {
      assert (front + [last])[1..] == front[1..] + [last];
      StatusOfAppend(front[1..], last, name);
      assert (front + [last])[0].name != (front + [last])[|front|].name;
    }
  }

  // ---------- Agreement with what was observed ----------

  predicate Named(observed: seq<RoleStatus>) {
    UniqueStatuses(observed) && forall s <- observed :: s.name != ""
  }

  /** The tables say of every role what was observed, and the Ready condition sums it up. */
  predicate Synced(st: Status, observed: seq<RoleStatus>) {
    && UniqueConditions(st.conditions) && UniqueStatuses(st.roleStatuses)
    && (forall s <- observed :: StatusOf(st.roleStatuses, s.name) == Some(s))
    && ConditionOf(st.conditions, READY).Some?
    && ConditionOf(st.conditions, READY).value.status == AllServing(observed)
  }

  lemma {:induction false} StatusOfMember(observed: seq<RoleStatus>, s: RoleStatus)
    requires Named(observed) && s in observed
    ensures StatusOf(observed, s.name) == Some(s)
  {
    if observed[0] != s {
      assert s in observed[1..];
      StatusOfMember(observed[1..], s);
      var i :| 0 <= i < |observed[1..]| && observed[1..][i] == s;
      assert observed[0].name != observed[i + 1].name;
    }
  }

  /** A written status agrees with the observation, whatever was stored before. */
  lemma WrittenSynced(st: Status, observed: seq<RoleStatus>)
    requires UniqueConditions(st.conditions) && UniqueStatuses(st.roleStatuses) && Named(observed)
    ensures Synced(Written(st, observed), observed)
  {
    WithConditionMeaning(st.conditions, ReadyCondition(AllServing(observed)));
    forall s | s in observed ensures StatusOf(WithStatuses(st.roleStatuses, observed), s.name) == Some(s) {
      WithStatusesMeaning(st.roleStatuses, observed, s.name);
      StatusOfMember(observed, s);
    }
    WithStatusesMeaning(st.roleStatuses, observed, "x");
  }

  /**
   After a completed pass the status agrees with what the pass observed, unless it wrote nothing
   and the roles observed before and now differ in whether all of them serve.
   */
  lemma PassSyncedExactly(st: Status, before: seq<RoleStatus>, observed: seq<RoleStatus>)
    requires Synced(st, before) && Named(observed)
    ensures Synced(AfterPass(st, observed), observed) <==>
              SomethingNew(st, observed) || (AllServing(before) <==> AllServing(observed))
  {
    if SomethingNew(st, observed) {
      WrittenSynced(st, observed);
    } else {
      forall s | s in observed ensures StatusOf(st.roleStatuses, s.name) == Some(s) {
        var i :| 0 <= i < |observed| && observed[i] == s;
      }
    }
  }

  function NamesOf(observed: seq<RoleStatus>): set<string> { set s | s in observed :: s.name }

  lemma NothingNew(st: Status, observed: seq<RoleStatus>, s: RoleStatus)
    requires !SomethingNew(st, observed) && s in observed
    ensures StatusOf(st.roleStatuses, s.name) == Some(s)
  {
    var i :| 0 <= i < |observed| && observed[i] == s;
  }

  /** A pass that writes nothing saw exactly what the previous one saw, if the roles are the same. */
  lemma UnchangedMeansEqual(st: Status, before: seq<RoleStatus>, observed: seq<RoleStatus>)
    requires Synced(st, before) && !SomethingNew(st, observed) && NamesOf(before) == NamesOf(observed)
    ensures forall s :: s in before <==> s in observed
  {
    forall s | s in before ensures s in observed {
      assert s.name in NamesOf(observed);
      var t :| t in observed && t.name == s.name;
      NothingNew(st, observed, t);
    }
    forall t | t in observed ensures t in before {
      assert t.name in NamesOf(before);
      var s :| s in before && s.name == t.name;
      NothingNew(st, observed, t);
    }
  }

  lemma FixedRolesStep(st: Status, before: seq<RoleStatus>, observed: seq<RoleStatus>)
    requires Synced(st, before) && Named(observed) && NamesOf(before) == NamesOf(observed)
    ensures Synced(AfterPass(st, observed), observed)
  {
    PassSyncedExactly(st, before, observed);
    if !SomethingNew(st, observed) {
      UnchangedMeansEqual(st, before, observed);
    }
  }

  /** The status after each of a series of completed passes, from a group that has none yet. */
  function StatusAfter(passes: seq<seq<RoleStatus>>): Status {
    if passes == [] then Status([], [])
    else AfterPass(StatusAfter(passes[..|passes| - 1]), passes[|passes| - 1])
  }

  /**
   While the set of roles stays the same, the status agrees with the latest observation after every
   completed pass, those that skip the write included.
   */
  lemma {:induction false} FixedRolesAlwaysSynced(passes: seq<seq<RoleStatus>>, names: set<string>)
    requires passes != [] && names != {}
    requires forall i :: 0 <= i < |passes| ==> Named(passes[i]) && NamesOf(passes[i]) == names
    ensures Synced(StatusAfter(passes), passes[|passes| - 1])
  {
    var front, last := passes[..|passes| - 1], passes[|passes| - 1];
    if front == [] {
      assert last != [] && last[0] in last && StatusOf([], last[0].name) == None;
      assert StatusAfter(front) == Status([], []) && SomethingNew(Status([], []), last);
      WrittenSynced(Status([], []), last);
    } else {
      FixedRolesAlwaysSynced(front, names);
      FixedRolesStep(StatusAfter(front), front[|front| - 1], last);
    }
  }

  /**
   Removing roles: the Ready condition is left wrong exactly when what remains serves and is
   unchanged while a removed role did not serve; it then stays False on a group that is ready.
   */
  lemma RemovalStaleExactly(st: Status, before: seq<RoleStatus>, observed: seq<RoleStatus>)
    requires Synced(st, before) && Named(before) && Named(observed)
    requires forall s <- observed :: exists t :: t in before && t.name == s.name
    ensures !Synced(AfterPass(st, observed), observed) <==>
              && !SomethingNew(st, observed) && AllServing(observed)
              && exists t :: t in before && !Serving(t) && forall s <- observed :: s.name != t.name
  {
    PassSyncedExactly(st, before, observed);
    if !SomethingNew(st, observed) {
      forall s | s in observed ensures s in before {
        var t :| t in before && t.name == s.name;
        NothingNew(st, observed, s);
      }
      if AllServing(observed) && !AllServing(before) {
        var t :| t in before && !Serving(t);
        forall s | s in observed ensures s.name != t.name {
          NothingNew(st, observed, s);
        }
      }
    }
  }

  /** Another writer's condition of another type does not disturb the agreement. */
  lemma OtherConditionKeepsSynced(st: Status, c: Condition, observed: seq<RoleStatus>)
    requires Synced(st, observed) && c.kind != READY
    ensures Synced(st.(conditions := WithCondition(st.conditions, c)), observed)
  {
    WithConditionMeaning(st.conditions, c);
  }

  // ---------- Written out ----------

  /** A Ready condition says why. */
  predicate ReasonFits(conditions: seq<Condition>) {
    forall c <- conditions :: c.kind == "Ready" ==> c.reason == if c.status then "AllRolesReady" else "RoleNotReady"
  }

  lemma {:induction false} StatusOfFound(statuses: seq<RoleStatus>, name: string)
    ensures StatusOf(statuses, name).Some? ==>
              var s := StatusOf(statuses, name).value; s in statuses && s.name == name
    ensures name != "" && (exists s :: s in statuses && s.name == name) ==> StatusOf(statuses, name).Some?
  {
    if statuses != [] && statuses[0].name != name {
      StatusOfFound(statuses[1..], name);
      if s :| s in statuses && s.name == name {
        assert s in statuses[1..];
      }
    }
  }

  lemma WrittenReasons(st: Status, observed: seq<RoleStatus>)
    requires ReasonFits(st.conditions)
    ensures ReasonFits(Written(st, observed).conditions)
  {
    var c := ReadyCondition(AllServing(observed));
    forall x | x in WithCondition(st.conditions, c) && x.kind == "Ready"
      ensures x.reason == if x.status then "AllRolesReady" else "RoleNotReady"
    {
      assert x == c || x in st.conditions;
    }
  }

  lemma {:induction false} ReasonsKept(passes: seq<seq<RoleStatus>>)
    ensures ReasonFits(StatusAfter(passes).conditions)
  {
    if passes != [] {
      var front, last := passes[..|passes| - 1], passes[|passes| - 1];
      ReasonsKept(front);
      WrittenReasons(StatusAfter(front), last);
    }
  }

  /**
   The status after completed passes over a fixed set of roles: one condition of type Ready, true
   exactly if every role was last seen with as many ready replicas as replicas, with its reason; and
   of each role one entry, with the numbers last seen.
   */
  lemma StatusWrittenOut(passes: seq<seq<RoleStatus>>, names: set<string>)
    requires passes != [] && names != {}
    requires forall i :: 0 <= i < |passes| ==> Named(passes[i]) && NamesOf(passes[i]) == names
    ensures var st, last := StatusAfter(passes), passes[|passes| - 1];
            && (exists c :: c in st.conditions && c.kind == "Ready"
                            && (c.status <==> forall s <- last :: s.ready == s.replicas)
                            && c.reason == if c.status then "AllRolesReady" else "RoleNotReady")
            && (forall i, j :: 0 <= i < j < |st.conditions| ==> st.conditions[i].kind != st.conditions[j].kind)
            && (forall s <- last :: s in st.roleStatuses)
            && (forall i, j :: 0 <= i < j < |st.roleStatuses| ==> st.roleStatuses[i].name != st.roleStatuses[j].name)
  {
    FixedRolesAlwaysSynced(passes, names);
    ReasonsKept(passes);
    var st, last := StatusAfter(passes), passes[|passes| - 1];
    hide StatusAfter;
    ConditionOfMeaning(st.conditions, "Ready");
    var c := ConditionOf(st.conditions, "Ready").value;
    assert c in st.conditions;
    forall s | s in last ensures s in st.roleStatuses {
      StatusOfFound(st.roleStatuses, s.name);
    }
  }

  /** A pass that sees nothing new leaves the whole status as it is. */
  lemma QuietPassWritesNothing(st: Status, observed: seq<RoleStatus>)
    requires UniqueStatuses(st.roleStatuses)
    requires forall s <- observed :: s.name != "" && s in st.roleStatuses
    ensures AfterPass(st, observed) == st
  {
    forall i | 0 <= i < |observed| ensures StatusOf(st.roleStatuses, observed[i].name) == Some(observed[i]) {
      var s := observed[i];
      assert s in observed;
      StatusOfFound(st.roleStatuses, s.name);
      var t := StatusOf(st.roleStatuses, s.name).value;
      var j :| 0 <= j < |st.roleStatuses| && st.roleStatuses[j] == s;
      var k :| 0 <= k < |st.roleStatuses| && st.roleStatuses[k] == t;
      assert j == k;
    }
  }
}
