/**
 Scaling a role through its adapter: the compare-and-swap write of the group, interleaved with any
 other writers, and the adapter's phases.
 */
module Scaling {
  import opened Wrappers
  import opened Group

  /** The stored group: its roles, and everything else as one value. */
  datatype GroupObject = GroupObject(roles: seq<RoleSpec>, rest: string)

  /** All versions ever stored; the resource version of an object is its index. */
  type History = seq<GroupObject>

  /** What a client read: an object and the version it was read at. */
  datatype Copy = Copy(obj: GroupObject, version: nat)

  predicate Faithful(copy: Copy, h: History) { copy.version < |h| && h[copy.version] == copy.obj }

  // ---------- Setting the replicas of a role ----------

  function SetReplicas(roles: seq<RoleSpec>, target: string, replicas: nat): seq<RoleSpec> {
    if roles == [] then []
    else if roles[0].name == target then [roles[0].(replicas := replicas)] + roles[1..]
    else [roles[0]] + SetReplicas(roles[1..], target, replicas)
  }

  function WithReplicas(o: GroupObject, target: string, replicas: nat): GroupObject {
    o.(roles := SetReplicas(o.roles, target, replicas))
  }

  /** The role looked up by that name, if any, has the new replicas; every other lookup is unchanged. */
  lemma {:induction false} SetReplicasLookup(roles: seq<RoleSpec>, target: string, replicas: nat, name: string)
    ensures FirstNamed(SetReplicas(roles, target, replicas), name)
            == if name == target && FirstNamed(roles, name).Some?
              then Some(FirstNamed(roles, name).value.(replicas := replicas))
               else FirstNamed(roles, name)
  {
    if roles != [] {
      SetReplicasLookup(roles[1..], target, replicas, name);
      if roles[0].name != target {
        var rest := SetReplicas(roles[1..], target, replicas);
        assert ([roles[0]] + rest)[1..] == rest;
      } else {
        var changed := roles[0].(replicas := replicas);
        assert ([changed] + roles[1..])[1..] == roles[1..];
      }
    }
  }

  function FirstIndex(roles: seq<RoleSpec>, target: string): (k: nat)
    ensures k <= |roles| && (k < |roles| ==> roles[k].name == target)
    ensures forall j :: 0 <= j < k ==> roles[j].name != target
  {
    if roles == [] || roles[0].name == target then 0 else 1 + FirstIndex(roles[1..], target)
  }

  /** Only the first role of that name changes, and only its replicas; without such a role nothing does. */
  lemma {:induction false} SetReplicasChanges(roles: seq<RoleSpec>, target: string, replicas: nat)
    ensures var k := FirstIndex(roles, target);
            SetReplicas(roles, target, replicas)
            == if k < |roles| then roles[k := roles[k].(replicas := replicas)] else roles
  {
    if roles != [] && roles[0].name != target {
      SetReplicasChanges(roles[1..], target, replicas);
      assert roles == [roles[0]] + roles[1..];
    }
  }

  // ---------- The retry loop on values ----------

  /** What happens around one attempt: others write before the update and before the re-read, calls may fail. */
  datatype Round = Round(before: seq<GroupObject>, between: seq<GroupObject>, updateFails: bool, getFails: bool)

  /** One element per attempt the back-off allows. */
  function RetryUpdate(h: History, copy: Copy, target: string, replicas: nat, rounds: seq<Round>): (bool, History)
    requires Faithful(copy, h)
    decreases |rounds|
  {
    if rounds == [] then (false, h)
    else
      var now := h + rounds[0].before;
      if rounds[0].updateFails then (false, now)
      else if copy.version == |now| - 1 then (true, now + [WithReplicas(copy.obj, target, replicas)])
      else
        var later := now + rounds[0].between;
        if rounds[0].getFails then (false, later)
        else RetryUpdate(later, Copy(later[|later| - 1], |later| - 1), target, replicas, rounds[1..])
  }

  /** The history after k rounds of the other writers, and what they write before the update of round k. */
  function Seen(h: History, rounds: seq<Round>, k: nat): History
    requires k < |rounds|
    decreases k
  {
    if k == 0 then h + rounds[0].before else Seen(h + rounds[0].before + rounds[0].between, rounds[1..], k - 1)
  }

  /**
   No lost update: a successful call adds one version to what the other writers made of the history,
   and that version is the one directly before it with the target role's replicas set.
   */
  lemma {:induction false} NoLostUpdate(h: History, copy: Copy, target: string, replicas: nat, rounds: seq<Round>)
    returns (k: nat)
    requires Faithful(copy, h) && RetryUpdate(h, copy, target, replicas, rounds).0
    ensures k < |rounds|
    ensures var seen := Seen(h, rounds, k);
            seen != [] && RetryUpdate(h, copy, target, replicas, rounds).1
                          == seen + [WithReplicas(seen[|seen| - 1], target, replicas)]
    decreases |rounds|
  {
    hide WithReplicas;
    var now := h + rounds[0].before;
    k := 0;
    if copy.version != |now| - 1 {
      var later := now + rounds[0].between;
      var k' := NoLostUpdate(later, Copy(later[|later| - 1], |later| - 1), target, replicas, rounds[1..]);
      k := k' + 1;
    }
  }

  /** What the other writers write in the first k rounds. */
  function OthersWrites(rounds: seq<Round>, k: nat): seq<GroupObject>
    requires k <= |rounds|
    decreases k
  {
    if k == 0 then [] else rounds[0].before + rounds[0].between + OthersWrites(rounds[1..], k - 1)
  }

  /**
   A call that fails has written nothing: the history is what the other writers made of it, in their
   order, up to the update or the read that failed or through all rounds.
   */
  lemma {:induction false} FailureWritesNothing(h: History, copy: Copy, target: string, replicas: nat,
                                                rounds: seq<Round>)
    returns (k: nat)
    requires Faithful(copy, h) && !RetryUpdate(h, copy, target, replicas, rounds).0
    ensures k <= |rounds|
    ensures var after := RetryUpdate(h, copy, target, replicas, rounds).1;
            var others := h + OthersWrites(rounds, k);
            if k == |rounds| then after == others
            else if rounds[k].updateFails then after == others + rounds[k].before
            else rounds[k].getFails && after == others + rounds[k].before + rounds[k].between
    decreases |rounds|
  {
    hide WithReplicas;
    k := 0;
    if rounds != [] && !rounds[0].updateFails && !rounds[0].getFails {
      var later := h + rounds[0].before + rounds[0].between;
      var k' := FailureWritesNothing(later, Copy(later[|later| - 1], |later| - 1), target, replicas, rounds[1..]);
      k := k' + 1;
      assert h + OthersWrites(rounds, k) == later + OthersWrites(rounds[1..], k');
    } else {
      assert h + OthersWrites(rounds, 0) == h;
    }
  }

  /**
   A call succeeds exactly if some round comes to pass, nothing having failed before it, in which
   nobody writes between the read and the update and the update does not fail. The first round
   updates the copy the caller had, later ones what was read again.
   */
  lemma {:induction false} RetrySucceedsExactly(h: History, copy: Copy, target: string, replicas: nat,
                                                rounds: seq<Round>)
    requires Faithful(copy, h)
    ensures RetryUpdate(h, copy, target, replicas, rounds).0 <==>
            exists k :: 0 <= k < |rounds| && !rounds[k].updateFails && rounds[k].before == []
                        && (k == 0 ==> copy.version == |h| - 1)
                        && forall j :: 0 <= j < k ==> !rounds[j].updateFails && !rounds[j].getFails
    decreases |rounds|
  {
    hide WithReplicas;
    if rounds != [] && !rounds[0].updateFails && copy.version != |h| + |rounds[0].before| - 1 && !rounds[0].getFails {
      var later := h + rounds[0].before + rounds[0].between;
      var current := Copy(later[|later| - 1], |later| - 1);
      var rest := rounds[1..];
      RetrySucceedsExactly(later, current, target, replicas, rest);
      if RetryUpdate(h, copy, target, replicas, rounds).0 {
        var k' :| 0 <= k' < |rest| && !rest[k'].updateFails && rest[k'].before == []
                  && forall j :: 0 <= j < k' ==> !rest[j].updateFails && !rest[j].getFails;
        assert rounds[k' + 1] == rest[k'];
        assert forall j :: 1 <= j < k' + 1 ==> rounds[j] == rest[j - 1];
      }
      if k :| 0 <= k < |rounds| && !rounds[k].updateFails && rounds[k].before == []
              && (k == 0 ==> copy.version == |h| - 1)
              && forall j :: 0 <= j < k ==> !rounds[j].updateFails && !rounds[j].getFails {
        assert rounds[k] == rest[k - 1];
        assert forall j :: 0 <= j < k - 1 ==> rest[j] == rounds[j + 1];
      }
    }
  }

  predicate HasSize(o: GroupObject, target: string, replicas: nat) {
    var role := FirstNamed(o.roles, target);
    role.Some? && role.value.replicas == replicas
  }

  lemma SizeSetExactly(o: GroupObject, target: string, replicas: nat)
    ensures HasSize(WithReplicas(o, target, replicas), target, replicas) <==> FirstNamed(o.roles, target).Some?
  {
    SetReplicasLookup(o.roles, target, replicas, target);
  }

  /** Success means the role has the wanted size exactly if the overwritten version still had the role. */
  lemma ScaledExactly(h: History, copy: Copy, target: string, replicas: nat, rounds: seq<Round>)
    requires Faithful(copy, h) && RetryUpdate(h, copy, target, replicas, rounds).0
    ensures exists k :: 0 <= k < |rounds| && Seen(h, rounds, k) != []
              && var seen, after := Seen(h, rounds, k), RetryUpdate(h, copy, target, replicas, rounds).1;
                 after != [] && after[..|after| - 1] == seen
                 && (HasSize(after[|after| - 1], target, replicas)
                     <==> FirstNamed(seen[|seen| - 1].roles, target).Some?)
  {
    hide RetryUpdate, HasSize, FirstNamed, WithReplicas, Seen;
    var k := NoLostUpdate(h, copy, target, replicas, rounds);
    var seen := Seen(h, rounds, k);
    SizeSetExactly(seen[|seen| - 1], target, replicas);
  }

  // ---------- The API server and the retry loop in place ----------

  datatype UpdateResult = Updated | Conflict | OtherFailure

  class ApiServer {
    var history: History

    constructor (initial: GroupObject)
      ensures history == [initial]
    {
      history := [initial];
    }

    method OthersWrite(objects: seq<GroupObject>)
      modifies this
      ensures history == old(history) + objects
    {
      history := history + objects;
    }

    /** The write is accepted only at the version it was read at. */
    method Update(copy: Copy, fails: bool) returns (r: UpdateResult)
      modifies this
      ensures r == if fails then OtherFailure else if copy.version == |old(history)| - 1 then Updated else Conflict
      ensures history == if r == Updated then old(history) + [copy.obj] else old(history)
    {
      if fails {
        return OtherFailure;
      }
      if copy.version != |history| - 1 {
        return Conflict;
      }
      history := history + [copy.obj];
      return Updated;
    }

    method Get() returns (copy: Copy)
      requires history != []
      ensures copy == Copy(history[|history| - 1], |history| - 1)
    {
      copy := Copy(history[|history| - 1], |history| - 1);
    }
  }

  /** Overwrite the first role of that name in place. */
  method SetRoleReplicas(roles: seq<RoleSpec>, target: string, replicas: nat) returns (r: seq<RoleSpec>)
    ensures r == SetReplicas(roles, target, replicas)
  {
    SetReplicasChanges(roles, target, replicas);
    for i := 0 to |roles|
      invariant forall j :: 0 <= j < i ==> roles[j].name != target
    {
      if roles[i].name == target {
        assert FirstIndex(roles, target) == i;
        return roles[i := roles[i].(replicas := replicas)];
      }
    }
    return roles;
  }

  method UpdateRoleReplicas(server: ApiServer, local: Copy, target: string, replicas: nat, rounds: seq<Round>)
    returns (ok: bool)
    requires Faithful(local, server.history)
    modifies server
    ensures (ok, server.history) == RetryUpdate(old(server.history), local, target, replicas, rounds)
  {
    hide SetReplicas;
    var copy := local;
    assert rounds[0..] == rounds;
    for i := 0 to |rounds|
      invariant Faithful(copy, server.history)
      invariant RetryUpdate(old(server.history), local, target, replicas, rounds)
                == RetryUpdate(server.history, copy, target, replicas, rounds[i..])
    {
      assert rounds[i..][0] == rounds[i] && rounds[i..][1..] == rounds[i + 1..];
      server.OthersWrite(rounds[i].before);
      var roles := SetRoleReplicas(copy.obj.roles, target, replicas);
      var r := server.Update(Copy(copy.obj.(roles := roles), copy.version), rounds[i].updateFails);
      if r == Updated {
        return true;
      }
      if r == OtherFailure {
        return false;
      }
      server.OthersWrite(rounds[i].between);
      if rounds[i].getFails {
        return false;
      }
      copy := server.Get();
    }
    return false;
  }

  // ---------- The adapter's phases ----------

  datatype Phase = Unset | NotBound | Bound

  datatype Adapter = Adapter(
    deleting: bool, owners: set<string>, targetRole: string, specReplicas: Option<nat>, phase: Phase,
      statusReplicas: Option<nat>)

  /** The target group as read; None if it could not be read. */
  datatype Target = Target(uid: string, obj: GroupObject)

  /** API calls of the reconcile that may fail, in the order they are made. */
  datatype Calls = Calls(patchSpec: bool, readSelector: bool, patchStatus: bool, updateRole: bool)

  predicate Managed(a: Adapter, t: Option<Target>) { t.Some? && t.value.uid in a.owners }

  datatype Action = Leave | Unbind | Bind(size: nat) | Scale(size: nat)

  /** What a reconcile sets out to do. A group that could not be read manages nothing. */
  function ActionFor(a: Adapter, t: Option<Target>): Action {
    if a.deleting || !Managed(a, t) then Leave
    else
      var role := GetRole(t.value.obj.roles, a.targetRole);
      if role.None? then if a.phase != NotBound then Unbind else Leave
      else if a.phase != Bound then Bind(role.value.replicas)
      else if a.specReplicas.None? || a.specReplicas.value == role.value.replicas then Leave
      else Scale(a.specReplicas.value)
  }

  /** The adapter after the patches that go with an action. */
  function Patched(a: Adapter, action: Action, calls: Calls): Adapter {
    match action
    case Leave => a
    case Unbind => if calls.patchStatus then a.(phase := NotBound) else a
    case Bind(size) =>
      if !calls.patchSpec then a
      else if !calls.readSelector || !calls.patchStatus then a.(specReplicas := Some(size))
      else a.(specReplicas := Some(size), statusReplicas := Some(size), phase := Bound)
    case Scale(size) => if calls.patchStatus then a.(statusReplicas := Some(size)) else a
  }

  /** One reconcile that nobody disturbs: the adapter and the group afterwards. */
  function AdapterStep(a: Adapter, t: Option<Target>, calls: Calls): (Adapter, Option<Target>) {
    var action := ActionFor(a, t);
    if !action.Scale? then (Patched(a, action, calls), t)
    else if !calls.updateRole then (a, t)
    else (Patched(a, action, calls), Some(t.value.(obj := WithReplicas(t.value.obj, a.targetRole, action.size))))
  }

  /** What the reconciler read: the group with its uid and its version, if it could be read. */
  function TargetOf(uid: string, read: Option<Copy>): Option<Target> {
    if read.None? then None else Some(Target(uid, read.value.obj))
  }

  /** One reconcile among other writers of the group. */
  function AdapterAmongWriters(a: Adapter, h: History, uid: string, read: Option<Copy>, calls: Calls,
                               rounds: seq<Round>)
    : (Adapter, History)
    requires read.Some? ==> Faithful(read.value, h)
  {
    var action := ActionFor(a, TargetOf(uid, read));
    if !action.Scale? then (Patched(a, action, calls), h)
    else
      var (ok, after) := RetryUpdate(h, read.value, a.targetRole, action.size, rounds);
      (if ok then Patched(a, action, calls) else a, after)
  }

  /** With one attempt that nobody disturbs, that is the undisturbed reconcile. */
  lemma UndisturbedStep(a: Adapter, h: History, uid: string, calls: Calls)
    requires h != []
    ensures var read := Copy(h[|h| - 1], |h| - 1);
            var (a', t') := AdapterStep(a, Some(Target(uid, read.obj)), calls);
            var (a'', after) := AdapterAmongWriters(a, h, uid, Some(read), calls,
              [Round([], [], !calls.updateRole, false)]);
            a'' == a' && t'.Some? && (after == h || after == h + [t'.value.obj]) && after[|after| - 1] == t'.value.obj
  {
    assert h + [] == h;
  }

  /** The stored adapter, patched in place. */
  class StoredAdapter {
    var adapter: Adapter

    constructor (adapter: Adapter)
      ensures this.adapter == adapter
    {
      this.adapter := adapter;
    }

    method Reconcile(server: ApiServer, uid: string, read: Option<Copy>, calls: Calls, rounds: seq<Round>)
      requires read.Some? ==> Faithful(read.value, server.history)
      modifies this, server
      ensures (adapter, server.history)
              == AdapterAmongWriters(old(adapter), old(server.history), uid, read, calls, rounds)
    {
      hide RetryUpdate;
      if adapter.deleting {
        return;
      }
      if read.None? || uid !in adapter.owners {
        return;
      }
      var role := GetRole(read.value.obj.roles, adapter.targetRole);
      if role.None? {
        if adapter.phase != NotBound && calls.patchStatus {
          adapter := adapter.(phase := NotBound);
        }
        return;
      }
      if adapter.phase != Bound {
        if !calls.patchSpec {
          return;
        }
        adapter := adapter.(specReplicas := Some(role.value.replicas));
        if calls.readSelector && calls.patchStatus {
          adapter := adapter.(statusReplicas := Some(role.value.replicas), phase := Bound);
        }
        return;
      }
      if adapter.specReplicas.None? || adapter.specReplicas.value == role.value.replicas {
        return;
      }
      var ok := UpdateRoleReplicas(server, read.value, adapter.targetRole, adapter.specReplicas.value, rounds);
      if ok && calls.patchStatus {
        adapter := adapter.(statusReplicas := adapter.specReplicas);
      }
    }
  }

  /** Binding never touches the group: it changes only when a bound adapter asks for another size. */
  lemma GroupChangesExactly(a: Adapter, t: Option<Target>, calls: Calls)
    ensures var t' := AdapterStep(a, t, calls).1;
            t' != t <==>
              && !a.deleting && t.Some? && t.value.uid in a.owners && a.phase == Bound && calls.updateRole
                && a.specReplicas.Some?
              && var role := GetRole(t.value.obj.roles, a.targetRole);
                 role.Some? && role.value.replicas != a.specReplicas.value
  {
    if t.Some? && a.specReplicas.Some? {
      SetReplicasLookup(t.value.obj.roles, a.targetRole, a.specReplicas.value, a.targetRole);
    }
  }

  /**
   A reconcile that changes anything, all calls succeeding, leaves a bound adapter asking for and
   reporting the very size its role has afterwards. Binding takes that size from the role, scaling
   gives it to the role; no other role and nothing else in the group changes.
   */
  lemma {:induction false} ReportsTheRoleSize(a: Adapter, t: Target, name: string)
    requires Managed(a, Some(t)) && AdapterStep(a, Some(t), ALL_SUCCEED) != (a, Some(t))
    ensures var (a', t') := AdapterStep(a, Some(t), ALL_SUCCEED);
            && t'.Some? && t'.value.uid == t.uid
            && (a'.phase == Bound ==> a'.specReplicas.Some? && a'.statusReplicas == a'.specReplicas
                                      && HasSize(t'.value.obj, a.targetRole, a'.specReplicas.value))
            && (if a.phase == Bound && a'.phase == Bound then a'.specReplicas == a.specReplicas else t'.value == t)
            && (name != a.targetRole ==> FirstNamed(t'.value.obj.roles, name) == FirstNamed(t.obj.roles, name))
            && t'.value.obj.rest == t.obj.rest
  {
    hide FirstNamed;
    if a.specReplicas.Some? {
      SetReplicasLookup(t.obj.roles, a.targetRole, a.specReplicas.value, name);
      SizeSetExactly(t.obj, a.targetRole, a.specReplicas.value);
    }
  }

  /** A reconcile marks the adapter unbound exactly when its own group is there without the role. */
  lemma UnboundExactly(a: Adapter, t: Option<Target>, calls: Calls)
    requires a.phase != NotBound
    ensures AdapterStep(a, t, calls).0.phase == NotBound <==>
            && !a.deleting && t.Some? && t.value.uid in a.owners && calls.patchStatus
            && (a.targetRole == "" || forall r <- t.value.obj.roles :: r.name != a.targetRole)
  {
  }

  /** An adapter that is being deleted, or whose target group cannot be read or does not own it, is left alone. */
  lemma UnmanagedUntouched(a: Adapter, t: Option<Target>, calls: Calls)
    requires a.deleting || t == None || t.value.uid !in a.owners
    ensures AdapterStep(a, t, calls) == (a, t)
  {
  }

  /**
   Binding, call by call: the wanted size is taken from the role once the first patch succeeds, and
   the adapter says it is bound, and to what size, exactly if the other calls succeed as well.
   */
  lemma BoundExactly(a: Adapter, t: Target, calls: Calls)
    requires !a.deleting && t.uid in a.owners && a.phase != Bound && a.targetRole != ""
    requires exists r :: r in t.obj.roles && r.name == a.targetRole
    ensures var next, size := AdapterStep(a, Some(t), calls).0, FirstNamed(t.obj.roles, a.targetRole).value.replicas;
            && next.specReplicas == (if calls.patchSpec then Some(size) else a.specReplicas)
            && (next.phase == Bound <==> calls.patchSpec && calls.readSelector && calls.patchStatus)
            && (if next.phase == Bound then next.statusReplicas == Some(size)
                else next.phase == a.phase && next.statusReplicas == a.statusReplicas)
            && AdapterStep(a, Some(t), calls).1 == Some(t)
  {
  }

  /**
   Scaling, call by call: the adapter reports the wanted size exactly if the group was written and then the
   status.
   */
  lemma ScaleReportedExactly(a: Adapter, t: Target, calls: Calls)
    requires !a.deleting && t.uid in a.owners && a.phase == Bound && a.targetRole != "" && a.specReplicas.Some?
    requires exists r :: r in t.obj.roles && r.name == a.targetRole
    requires FirstNamed(t.obj.roles, a.targetRole).value.replicas != a.specReplicas.value
    ensures AdapterStep(a, Some(t), calls).0
            == if calls.updateRole && calls.patchStatus then a.(statusReplicas := a.specReplicas) else a
    ensures AdapterStep(a, Some(t), calls).1.Some?
    ensures HasSize(AdapterStep(a, Some(t), calls).1.value.obj, a.targetRole, a.specReplicas.value) <==>
              calls.updateRole
  {
    SizeSetExactly(t.obj, a.targetRole, a.specReplicas.value);
    hide WithReplicas;
  }

  const ALL_SUCCEED := Calls(true, true, true, true)

  predicate InStep(a: Adapter, t: Target) {
    var role := GetRole(t.obj.roles, a.targetRole);
    role.Some? && a.phase == Bound && (a.specReplicas.Some? ==> a.specReplicas.value == role.value.replicas)
  }

  /**
   When calls succeed and nobody else interferes, one reconcile brings a managed adapter and its
   role into step, whatever failed before; from then on reconciles change nothing.
   */
  lemma AdapterConverges(a: Adapter, t: Target)
    requires !a.deleting && t.uid in a.owners
    requires a.targetRole != "" && exists r :: r in t.obj.roles && r.name == a.targetRole
    ensures var next := AdapterStep(a, Some(t), ALL_SUCCEED);
            && next.1.Some? && InStep(next.0, next.1.value)
            && AdapterStep(next.0, next.1, ALL_SUCCEED) == next
  {
    hide WithReplicas, FirstNamed;
    if a.specReplicas.Some? {
      SizeSetExactly(t.obj, a.targetRole, a.specReplicas.value);
    }
  }
}
