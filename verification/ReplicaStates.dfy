/**
 Reading one state per ordinal out of an unordered pod list, and the newest revision out of an
 unordered revision list.
 */
module ReplicaStates {
  import opened Wrappers
  import opened RollingUpdate

  /** `index` is the pod-index label when it parses as a number. */
  datatype Pod = Pod(name: string, index: Option<int>, runningAndReady: bool, revisionHash: string)

  datatype Revision = Revision(name: string, revision: int)

  /** The zero pod of a slot nothing was stored in. */
  const NO_POD := Pod("", None, false, "")

  function Digit(d: nat): char
    requires d < 10
  {
    ['0', '1', '2', '3', '4', '5', '6', '7', '8', '9'][d]
  }

  function Decimal(n: nat): (s: string)
    ensures s != []
  {
    if n < 10 then [Digit(n)] else Decimal(n / 10) + [Digit(n % 10)]
  }

  function NominatedName(stsName: string, idx: nat): (name: string)
    ensures name != ""
  {
    stsName + "-" + Decimal(idx)
  }

  lemma {:induction false} DecimalInjective(m: nat, n: nat)
    requires Decimal(m) == Decimal(n)
    ensures m == n
  {
    var dm, dn := Decimal(m), Decimal(n);
    assert dm[|dm| - 1] == Digit(m % 10) && dn[|dn| - 1] == Digit(n % 10);
    if m >= 10 && n >= 10 {
      assert dm[..|dm| - 1] == Decimal(m / 10) && dn[..|dn| - 1] == Decimal(n / 10);
      DecimalInjective(m / 10, n / 10);
    }
  }

  /** Each ordinal has its own pod name, so a pod counts for one ordinal only. */
  lemma NominatedNameInjective(stsName: string, i: nat, j: nat)
    requires NominatedName(stsName, i) == NominatedName(stsName, j)
    ensures i == j
  {
    var prefix := stsName + "-";
    assert NominatedName(stsName, i)[|prefix|..] == Decimal(i);
    assert NominatedName(stsName, j)[|prefix|..] == Decimal(j);
    DecimalInjective(i, j);
  }

  // ---------- Highest revision ----------

  function Highest(revisions: seq<Revision>): Option<Revision> {
    if revisions == [] then None
    else
      var best, last := Highest(revisions[..|revisions| - 1]), revisions[|revisions| - 1];
      if (if best.Some? then best.value.revision else 0) <= last.revision then Some(last) else best
  }

  method GetHighestRevision(revisions: seq<Revision>) returns (highest: Option<Revision>)
    ensures highest == Highest(revisions)
  {
    highest := None;
    var max := 0;
    for i := 0 to |revisions|
      invariant highest == Highest(revisions[..i])
      invariant max == if highest.Some? then highest.value.revision else 0
    {
      assert revisions[..i + 1][..i] == revisions[..i];
      if max <= revisions[i].revision {
        max := revisions[i].revision;
        highest := Some(revisions[i]);
      }
    }
    assert revisions[..|revisions|] == revisions;
  }

  /** The greatest non-negative revision, the last one of equals; none if all are negative. */
  lemma {:induction false} HighestMeaning(revisions: seq<Revision>) returns (k: nat)
    ensures Highest(revisions).None? <==> forall x <- revisions :: x.revision < 0
    ensures Highest(revisions).Some? ==>
              && k < |revisions| && Highest(revisions) == Some(revisions[k]) && 0 <= revisions[k].revision
              && (forall i :: 0 <= i < k ==> revisions[i].revision <= revisions[k].revision)
              && (forall i :: k < i < |revisions| ==> revisions[i].revision < revisions[k].revision)
  {
    k := 0;
    if revisions != [] {
      var front, last := revisions[..|revisions| - 1], revisions[|revisions| - 1];
      k := HighestMeaning(front);
      assert forall i :: 0 <= i < |front| ==> front[i] == revisions[i];
      assert forall x :: x in revisions <==> x in front || x == last;
      if Highest(front).None? {
        assert forall i :: 0 <= i < |front| ==> front[i] in front;
        k := |revisions| - 1;
      } else if Highest(front).value.revision <= last.revision {
        k := |revisions| - 1;
      } else {
        assert revisions[k] in revisions;
      }
    }
  }

  // ---------- Replica states ----------

  /** The last pod of the list that carries the index. */
  function LastAt(pods: seq<Pod>, idx: nat): Pod {
    if pods == [] then NO_POD
    else if pods[|pods| - 1].index == Some(idx) then pods[|pods| - 1]
    else LastAt(pods[..|pods| - 1], idx)
  }

  /** What the controller makes of the pod it found for an ordinal. */
  function StateOf(stsName: string, idx: nat, pod: Pod, newest: string): ReplicaState {
    if NominatedName(stsName, idx) != pod.name then ReplicaState(false, false)
    else ReplicaState(pod.revisionHash == newest, pod.runningAndReady)
  }

  /** The upper end of an index is checked, the lower is not. */
  predicate OutOfRange(pods: seq<Pod>) {
    exists p :: p in pods && p.index.Some? && p.index.value < 0
  }

  /**
   What a list of pods and of revisions comes to. A failed list or no usable revision is an error; a
   negative pod index is used on the slice as it is, and the panic ends the reconcile.
   */
  function Observe(stsName: string, replicas: nat, podList: Option<seq<Pod>>,
                   revisions: Option<seq<Revision>>): Observation {
    if podList.Some? && OutOfRange(podList.value) then Err(IndexPanic)
    else if podList.None? || revisions.None? || Highest(revisions.value).None? then Err(StatesUnavailable)
    else Ok(seq(replicas, i requires 0 <= i < replicas =>
              StateOf(stsName, i, LastAt(podList.value, i), Highest(revisions.value).value.name)))
  }

  method GetReplicaStates(stsName: string, replicas: nat, podList: Option<seq<Pod>>, revisions: Option<seq<Revision>>)
    returns (r: Result<array<ReplicaState>, Error>)
    ensures Observed(r) == Observe(stsName, replicas, podList, revisions)
  {
    var sortedPods := new Pod[replicas](_ => NO_POD);
    if podList.None? {
      return Err(StatesUnavailable);
    }
    var pods := podList.value;
    for i := 0 to |pods|
      invariant forall j :: 0 <= j < replicas ==> sortedPods[j] == LastAt(pods[..i], j)
      invariant forall j :: 0 <= j < i && pods[j].index.Some? ==> 0 <= pods[j].index.value
    {
      assert pods[..i + 1][..i] == pods[..i];
      if pods[i].index.Some? && pods[i].index.value < replicas {
        if pods[i].index.value < 0 {
          assert OutOfRange(pods);
          return Err(IndexPanic);
        }
        sortedPods[pods[i].index.value] := pods[i];
      }
    }
    assert !OutOfRange(pods);
    assert pods[..|pods|] == pods;
    if revisions.None? {
      return Err(StatesUnavailable);
    }
    var highest := GetHighestRevision(revisions.value);
    if highest.None? {
      return Err(StatesUnavailable);
    }
    var states := new ReplicaState[replicas](_ => ReplicaState(false, false));
    for idx := 0 to replicas
      invariant forall j :: 0 <= j < replicas ==> sortedPods[j] == LastAt(pods, j)
      invariant forall j :: 0 <= j < idx ==> states[j] == StateOf(stsName, j, LastAt(pods, j), highest.value.name)
    {
      if NominatedName(stsName, idx) != sortedPods[idx].name {
        states[idx] := ReplicaState(false, false);
      } else {
        var updated := sortedPods[idx].revisionHash == highest.value.name;
        states[idx] := ReplicaState(updated, sortedPods[idx].runningAndReady);
      }
    }
    assert states[..] == Observe(stsName, replicas, podList, revisions).value;
    return Ok(states);
  }

  /** A whole reconcile of a StatefulSet, from the pods and revisions the cluster lists. */
  method ReconcileFromPods(sts: StatefulSet, stsName: string, role: Role, equal: bool,
                           podList: Option<seq<Pod>>, revisions: Option<seq<Revision>>)
    returns (err: Option<Error>)
    requires Consistent(sts.View())
    requires equal ==> sts.created
    modifies sts
    ensures var was := old(sts.View());
            var obs := Observe(stsName, if was.Sts? then was.replicas else 0, podList, revisions);
            var next := Next(was, role, equal, obs);
            if next.Ok? then err == None && sts.View() == next.value else err == Some(next.error) && sts.View() == was
    ensures Consistent(sts.View())
  {
    var fetched := GetReplicaStates(stsName, if sts.created then sts.replicas else 0, podList, revisions);
    err := sts.Reconcile(role, equal, fetched);
  }

  /** The value of a string of decimal digits. */
  function DecimalValue(s: string): int {
    if s == [] then 0 else 10 * DecimalValue(s[..|s| - 1]) + (s[|s| - 1] as int - '0' as int)
  }

  /** Ordinals are written in decimal digits without leading zeros, and read back as they are. */
  lemma {:induction false} DecimalReadsBack(n: nat)
    ensures DecimalValue(Decimal(n)) == n
    ensures forall c <- Decimal(n) :: '0' <= c <= '9'
    ensures n > 0 ==> Decimal(n)[0] != '0'
  {
    if n >= 10 {
      DecimalReadsBack(n / 10);
      var front := Decimal(n / 10);
      assert Decimal(n)[..|front|] == front;
    } else {
      assert Decimal(n) == [Digit(n)];
      assert Decimal(n)[..0] == [];
    }
  }

  predicate DistinctIndices(pods: seq<Pod>) {
    forall i, j :: 0 <= i < j < |pods| && pods[i].index.Some? ==> pods[i].index != pods[j].index
  }

  lemma {:induction false} LastAtFinds(pods: seq<Pod>, idx: nat, k: nat)
    requires DistinctIndices(pods) && k < |pods| && pods[k].index == Some(idx)
    ensures LastAt(pods, idx) == pods[k]
  {
    if k < |pods| - 1 {
      LastAtFinds(pods[..|pods| - 1], idx, k);
    }
  }

  lemma {:induction false} LastAtNone(pods: seq<Pod>, idx: nat)
    requires forall p <- pods :: p.index != Some(idx)
    ensures LastAt(pods, idx) == NO_POD
  {
    if pods != [] {
      LastAtNone(pods[..|pods| - 1], idx);
    }
  }

  /** With distinct indices the order in which the pods are listed makes no difference. */
  lemma ListOrderIrrelevant(pods: seq<Pod>, pods': seq<Pod>, idx: nat)
    requires DistinctIndices(pods) && DistinctIndices(pods') && multiset(pods) == multiset(pods')
    ensures LastAt(pods, idx) == LastAt(pods', idx)
  {
    if p :| p in pods && p.index == Some(idx) {
      assert p in multiset(pods');
      var k :| 0 <= k < |pods| && pods[k] == p;
      var k' :| 0 <= k' < |pods'| && pods'[k'] == p;
      LastAtFinds(pods, idx, k);
      LastAtFinds(pods', idx, k');
    } else {
      forall p | p in pods' ensures p.index != Some(idx) {
        assert p in multiset(pods);
      }
      LastAtNone(pods, idx);
      LastAtNone(pods', idx);
    }
  }

  /** Entry by entry: what an ordinal's state says is said of the pod of that index and name. */
  lemma StateMeansPod(stsName: string, pods: seq<Pod>, idx: nat, newest: string)
    requires DistinctIndices(pods)
    ensures var state := StateOf(stsName, idx, LastAt(pods, idx), newest);
            && (state.ready <==> exists p :: p in pods && p.index == Some(idx) && p.name == NominatedName(stsName, idx)
                                             && p.runningAndReady)
            && (state.updated <==>
                  exists p :: p in pods && p.index == Some(idx) && p.name == NominatedName(stsName, idx)
                              && p.revisionHash == newest)
  {
    if p :| p in pods && p.index == Some(idx) {
      var k :| 0 <= k < |pods| && pods[k] == p;
      LastAtFinds(pods, idx, k);
      forall q | q in pods && q.index == Some(idx) ensures q == p {
        var j :| 0 <= j < |pods| && pods[j] == q;
        LastAtFinds(pods, idx, j);
      }
    } else {
      LastAtNone(pods, idx);
    }
  }

  /**
   What is read out of the lists, ordinal by ordinal: ready is the pod of that index and name that
   runs and is ready, updated the one that carries the name of the revision no other exceeds, the
   last listed of equals.
   */
  lemma ObservedExactly(stsName: string, replicas: nat, pods: seq<Pod>, revisions: seq<Revision>, i: nat)
    requires DistinctIndices(pods) && i < replicas && Observe(stsName, replicas, Some(pods), Some(revisions)).Ok?
    ensures var states := Observe(stsName, replicas, Some(pods), Some(revisions)).value;
            && |states| == replicas
            && (states[i].ready <==>
                  exists p :: p in pods && p.index == Some(i) && p.name == stsName + "-" + Decimal(i)
                              && p.runningAndReady)
            && (states[i].updated <==>
                  exists p, k :: p in pods && p.index == Some(i) && p.name == stsName + "-" + Decimal(i)
                                 && 0 <= k < |revisions| && p.revisionHash == revisions[k].name
                                 && (forall j :: 0 <= j < k ==> revisions[j].revision <= revisions[k].revision)
                                 && (forall j :: k < j < |revisions| ==> revisions[j].revision < revisions[k].revision))
  {
    var newest := HighestMeaning(revisions);
    StateMeansPod(stsName, pods, i, revisions[newest].name);
    var states := Observe(stsName, replicas, Some(pods), Some(revisions)).value;
    assert states[i] == StateOf(stsName, i, LastAt(pods, i), revisions[newest].name);
    if states[i].updated {
      var p :| p in pods && p.index == Some(i) && p.name == NominatedName(stsName, i)
               && p.revisionHash == revisions[newest].name;
    }
  }

  /** Reading fails exactly if a list cannot be had, no revision is non-negative, or a pod index is negative. */
  lemma ObservationFailsExactly(stsName: string, replicas: nat, podList: Option<seq<Pod>>,
                                revisions: Option<seq<Revision>>)
    ensures Observe(stsName, replicas, podList, revisions).Err? <==>
              || podList == None || revisions == None
              || (forall x <- revisions.value :: x.revision < 0)
              || (exists p :: p in podList.value && p.index.Some? && p.index.value < 0)
  {
    if revisions.Some? {
      var k := HighestMeaning(revisions.value);
    }
  }

  /** One ready pod on the older of two revisions is not updated. */
  lemma OldPodNotUpdated()
    ensures Observe("s", 1, Some([Pod("s-0", Some(0), true, "old")]), Some([Revision("old", 1), Revision("new", 2)]))
            == Ok([ReplicaState(false, true)])
  {
    var pods, revisions := [Pod("s-0", Some(0), true, "old")], [Revision("old", 1), Revision("new", 2)];
    assert pods[..0] == [] && revisions[..0] == [] && revisions[..1] == [Revision("old", 1)];
    assert NominatedName("s", 0) == "s-0" by {
      assert Decimal(0) == "0" && "s" + "-" + "0" == "s-0";
    }
    assert "old" != "new" by {
      assert "old"[0] != "new"[0];
    }
    assert Highest(revisions[..1]) == Some(Revision("old", 1));
    assert Highest(revisions) == Some(Revision("new", 2));
    assert LastAt(pods, 0) == pods[0];
    assert !OutOfRange(pods);
    assert StateOf("s", 0, pods[0], "new") == ReplicaState(false, true);
    var seen := Observe("s", 1, Some(pods), Some(revisions));
    assert seen.Ok? && seen.value == [StateOf("s", 0, LastAt(pods, 0), "new")];
  }
}
