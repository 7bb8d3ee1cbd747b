/**
 What one partition computation promises for every vector of replica states: a declarative
 characterisation of the boundary, how many serving replicas one call may expose, exactly when
 the maxUnavailable budget is kept, and exactly when the int32 arithmetic is faithful.
 */
module PartitionBounds {
  import opened Counting
  import opened RollingUpdate

  // ---------- The boundary, declaratively ----------

  /** Every replica from q up to ordinal min(top, last) is free to replace. */
  predicate Clear(states: seq<ReplicaState>, q: int, top: nat) {
    0 <= q <= Min(top, |states| - 1) && forall i :: q <= i <= Min(top, |states| - 1) ==> Passable(states[i])
  }

  /** The least clear boundary at or above the floor, or the top if there is none. */
  ghost predicate IsBoundary(states: seq<ReplicaState>, floor: nat, top: nat, q: nat) {
    && (Clear(states, q, top) || (q == top && forall k :: floor <= k ==> !Clear(states, k, top)))
    && floor <= q
    && forall k :: floor <= k < q ==> !Clear(states, k, top)
  }

  lemma BoundaryUnique(states: seq<ReplicaState>, floor: nat, top: nat, q1: nat, q2: nat)
    requires IsBoundary(states, floor, top, q1) && IsBoundary(states, floor, top, q2)
    ensures q1 == q2
  {
    assert Clear(states, q1, top) || !Clear(states, q1, top);
  }

  lemma {:induction false} DescendMeaning(states: seq<ReplicaState>, floor: nat, idx: int, boundary: nat)
    requires idx < |states|
    ensures var q := Descend(states, floor, idx, boundary);
            if floor <= idx && Passable(states[idx]) then
              && floor <= q <= idx
              && (forall i :: q <= i <= idx ==> Passable(states[i]))
              && (q == floor || !Passable(states[q - 1]))
            else q == boundary
    decreases idx + 1 - floor
  {
    if floor <= idx && Passable(states[idx]) {
      DescendMeaning(states, floor, idx - 1, idx);
    }
  }

  /** The three loops compute exactly the declarative boundary. */
  lemma BoundaryMeaning(states: seq<ReplicaState>, step: int)
    requires 0 <= step + TailCount(states)
    ensures var floor := StepPartition(states, step);
            var top := floor + UnavailableBelow(states, step);
            IsBoundary(states, floor, top, Boundary(states, step)) && Boundary(states, step) <= top
  {
    var floor := StepPartition(states, step);
    var top := floor + UnavailableBelow(states, step);
    var last := Min(top, |states| - 1);
    DescendMeaning(states, floor, last, top);
    var q := Boundary(states, step);
    if floor <= last && Passable(states[last]) {
      forall k | floor <= k < q ensures !Clear(states, k, top) {
        assert !Passable(states[q - 1]);
      }
    } else {
      forall k | floor <= k ensures !Clear(states, k, top) {
        if floor <= last {
          assert !Passable(states[last]);
        }
      }
    }
  }

  /** A rollout onto a StatefulSet with no serving replica is not held up by the unready ones. */
  lemma NothingReadyMeansNoHoldUp(states: seq<ReplicaState>, step: int, current: nat)
    requires 1 <= step
    requires forall s <- states :: !s.ready
    ensures RollingPartition(states, step, current) == Min(current, NonZeroValue(|states| - step))
  {
    TailCountMeaning(states);
    BoundaryMeaning(states, step);
    var floor := StepPartition(states, step);
    var top := floor + UnavailableBelow(states, step);
    if states == [] {
      assert Boundary(states, step) == 0;
    } else {
      assert Clear(states, floor, top);
    }
  }

  // ---------- Exposure ----------

  /** Serving old replicas in [low, high), clipped to the ordinals that exist. */
  function Exposed(states: seq<ReplicaState>, low: nat, high: nat): nat {
    var hi := Min(high, |states|);
    if low <= hi then CountIf(HealthyOld, states[low..hi]) else 0
  }

  function Unready(states: seq<ReplicaState>): nat { CountIf(NotReady, states) }

  /** Where the boundary walk starts, clipped to the replicas in front of the finished tail. */
  function WalkStart(states: seq<ReplicaState>, step: int): nat
    requires 0 <= step + TailCount(states)
  {
    Min(StepPartition(states, step) + UnavailableBelow(states, step), |states| - TailCount(states))
  }

  /** The replicas above the walk's start and in front of the finished tail. */
  function Middle(states: seq<ReplicaState>, step: int): seq<ReplicaState>
    requires 0 <= step + TailCount(states)
  {
    states[WalkStart(states, step)..|states| - TailCount(states)]
  }

  /** Unready replicas between the step partition and the walk's start. */
  function UnreadyInGap(states: seq<ReplicaState>, step: int): nat
    requires 0 <= step + TailCount(states)
  {
    var floor := StepPartition(states, step);
    if floor <= WalkStart(states, step) then CountIf(NotReady, states[floor..WalkStart(states, step)]) else 0
  }

  lemma FloorBelowTail(states: seq<ReplicaState>, step: nat)
    ensures StepPartition(states, step) <= WalkStart(states, step) <= |states| - TailCount(states)
    ensures StepPartition(states, step) > 0 ==> |states| - TailCount(states) - StepPartition(states, step) == step
    ensures StepPartition(states, step) == 0 ==> UnavailableBelow(states, step) == 0
  {
  }

  lemma {:induction false} DoneNotCounted(s: seq<ReplicaState>)
    requires forall i :: 0 <= i < |s| ==> Done(s[i])
    ensures CountIf(HealthyOld, s) == 0 && CountIf(NotReady, s) == 0
  {
    if s != [] {
      DoneNotCounted(s[..|s| - 1]);
    }
  }

  /** Nothing in the finished tail is exposed or unready. */
  lemma TailNotExposed(states: seq<ReplicaState>, k: nat)
    requires |states| - TailCount(states) <= k <= |states|
    ensures CountIf(HealthyOld, states[k..]) == 0 && CountIf(NotReady, states[k..]) == 0
  {
    TailCountMeaning(states);
    DoneNotCounted(states[k..]);
  }

  lemma {:induction false} PassableNotCounted(s: seq<ReplicaState>)
    requires forall i :: 0 <= i < |s| ==> Passable(s[i])
    ensures CountIf(HealthyOld, s) == 0
  {
    if s != [] {
      PassableNotCounted(s[..|s| - 1]);
    }
  }

  lemma ExposedInFront(states: seq<ReplicaState>, q: nat, w: nat, cut: nat)
    requires q <= w <= cut <= |states|
    requires forall i :: q <= i < w ==> Passable(states[i])
    requires CountIf(HealthyOld, states[cut..]) == 0
    ensures CountIf(HealthyOld, states[q..]) == CountIf(HealthyOld, states[w..cut])
  {
    var front := states[q..w];
    PassableNotCounted(front);
    CountSuffix(HealthyOld, states, q, w);
    CountSuffix(HealthyOld, states, w, cut);
  }

  /** Between the boundary and the walk's start there is nothing serving and old. */
  lemma BoundaryToWalk(states: seq<ReplicaState>, step: nat)
    ensures forall i :: Boundary(states, step) <= i < WalkStart(states, step) ==> Passable(states[i])
  {
    BoundaryMeaning(states, step);
    FloorBelowTail(states, step);
  }

  /** All serving old replicas from the boundary up are in the middle. */
  lemma ExposedFromBoundary(states: seq<ReplicaState>, step: nat)
    ensures Exposed(states, Boundary(states, step), |states|) == CountIf(HealthyOld, Middle(states, step))
  {
    var q, w, cut := Boundary(states, step), WalkStart(states, step), |states| - TailCount(states);
    FloorBelowTail(states, step);
    BoundaryToWalk(states, step);
    if q <= w {
      TailNotExposed(states, cut);
      ExposedInFront(states, q, w, cut);
      assert states[q..] == states[q..|states|];
    } else {
      BoundaryMeaning(states, step);
      assert w == cut;
      if q <= |states| {
        TailNotExposed(states, q);
        assert states[q..] == states[q..|states|];
      }
    }
  }

  lemma ExposedMonotone(states: seq<ReplicaState>, low: nat, high: nat, low': nat, high': nat)
    requires low' <= low && high <= high'
    ensures Exposed(states, low, high) <= Exposed(states, low', high')
  {
    var hi, hi' := Min(high, |states|), Min(high', |states|);
    if low <= hi {
      CountSlice(HealthyOld, states, low', hi');
      CountSlice(HealthyOld, states, low', low);
      CountSlice(HealthyOld, states, low, hi);
      CountSlice(HealthyOld, states, hi, hi');
    }
  }

  /** Unready replicas below the step partition, in the gap, in the middle: that is all of them. */
  lemma UnreadySplit(states: seq<ReplicaState>, step: nat)
    ensures Unready(states) == UnavailableBelow(states, step) + UnreadyInGap(states, step)
                               + CountIf(NotReady, Middle(states, step))
  {
    FloorBelowTail(states, step);
    TailNotExposed(states, |states| - TailCount(states));
    var floor, w, cut := StepPartition(states, step), WalkStart(states, step), |states| - TailCount(states);
    CountSlice(NotReady, states, floor, w);
    CountSlice(NotReady, states, w, cut);
    CountSplit(NotReady, states, cut);
  }

  lemma {:induction false} ThreeKinds(s: seq<ReplicaState>)
    ensures CountIf(NotReady, s) + CountIf(HealthyOld, s) + CountIf(Done, s) == |s|
  {
    if s != [] {
      ThreeKinds(s[..|s| - 1]);
    }
  }

  /**
   One call exposes at most what the step leaves after the unready replicas below the step
   partition are charged, whatever the readiness of the replicas.
   */
  lemma ExposureBound(states: seq<ReplicaState>, step: nat, current: nat)
    ensures var exposed := Exposed(states, RollingPartition(states, step, current), current);
            && exposed <= NonZeroValue(step - UnavailableBelow(states, step))
            && (Unready(states) + exposed <= Unready(states)
                || Unready(states) + exposed <= step + UnreadyInGap(states, step))
  {
    var exposed := Exposed(states, RollingPartition(states, step, current), current);
    if current <= Boundary(states, step) {
      assert exposed == 0;
    } else {
      ExposedMonotone(states, Boundary(states, step), current, Boundary(states, step), current + |states|);
      ExposedFromBoundary(states, step);
      FloorBelowTail(states, step);
      UnreadySplit(states, step);
      ThreeKinds(Middle(states, step));
    }
  }

  /** Where the old partition stands between the walk's start and the finished tail. */
  function PassedUpTo(states: seq<ReplicaState>, step: int, current: nat): (c: nat)
    requires 0 <= step + TailCount(states)
    ensures WalkStart(states, step) <= c <= |states| - TailCount(states)
  {
    var w, cut := WalkStart(states, step), |states| - TailCount(states);
    if current <= w then w else if cut <= current then cut else current
  }

  lemma NoneExposed(states: seq<ReplicaState>, i: nat, k: nat)
    requires i <= k <= |states| && forall j :: i <= j < k ==> Passable(states[j])
    ensures CountIf(HealthyOld, states[i..k]) == 0
  {
    PassableNotCounted(states[i..k]);
  }

  /** One call exposes just the serving old replicas between the walk's start and the old partition. */
  lemma ExposedByCall(states: seq<ReplicaState>, step: nat, current: nat)
    ensures var w, c := WalkStart(states, step), PassedUpTo(states, step, current);
            && w <= c <= |states| - TailCount(states)
            && Exposed(states, RollingPartition(states, step, current), current) == CountIf(HealthyOld, states[w..c])
  {
    var q, w, c := Boundary(states, step), WalkStart(states, step), PassedUpTo(states, step, current);
    FloorBelowTail(states, step);
    BoundaryToWalk(states, step);
    BoundaryMeaning(states, step);
    TailCountMeaning(states);
    var hi, cut := Min(current, |states|), |states| - TailCount(states);
    hide Boundary, StepPartition, TailCount, IsBoundary, CountIf;
    if q < current && q <= hi {
      assert q <= w || w == cut;
      ExposedAbove(states, q, w, c, cut, hi);
    }
    if c == w {
      NoneExposed(states, w, c);
    }
  }

  /** Of all from q up to hi the passable ones below w and the finished ones from the cut on are not exposed. */
  lemma ExposedAbove(states: seq<ReplicaState>, q: nat, w: nat, c: nat, cut: nat, hi: nat)
    requires q <= hi <= |states| && w <= cut <= |states| && c == (if hi <= w then w else Min(hi, cut))
               && (q <= w || w == cut)
    requires forall i :: q <= i < w ==> Passable(states[i])
    requires forall i :: cut <= i < |states| ==> Done(states[i])
    ensures CountIf(HealthyOld, states[q..hi]) == CountIf(HealthyOld, states[w..c])
  {
    if q <= w <= hi {
      SliceInTwo(HealthyOld, states, q, w, hi);
      NoneExposed(states, q, w);
      SliceInTwo(HealthyOld, states, w, c, hi);
      NoneExposed(states, c, hi);
    } else {
      NoneExposed(states, q, hi);
      NoneExposed(states, w, c);
    }
  }

  lemma SliceInTwo(p: ReplicaState -> bool, states: seq<ReplicaState>, i: nat, j: nat, k: nat)
    requires i <= j <= k <= |states|
    ensures CountIf(p, states[i..k]) == CountIf(p, states[i..j]) + CountIf(p, states[j..k])
  {
    CountSplit(p, states[i..k], j - i);
    assert states[i..k][..j - i] == states[i..j] && states[i..k][j - i..] == states[j..k];
  }

  /**
   The promise "never more than maxUnavailable down" is kept by a call, in whatever state it finds
   the replicas and the partition, exactly when nothing serving is exposed or the unready replicas
   of the gap are made up for by finished ones above it and old ones the partition had let go before.
   */
  lemma {:induction false} BudgetKeptExactly(states: seq<ReplicaState>, step: nat, current: nat)
    ensures var w, c, cut := WalkStart(states, step), PassedUpTo(states, step, current), |states| - TailCount(states);
            var exposed := Exposed(states, RollingPartition(states, step, current), current);
            && w <= c <= cut
            && ((exposed == 0 || Unready(states) + exposed <= step)
                <==> (CountIf(HealthyOld, states[w..c]) == 0
                      || UnreadyInGap(states, step)
                         <= CountIf(Done, Middle(states, step)) + CountIf(HealthyOld, states[c..cut])))
  {
    var w, c, cut := WalkStart(states, step), PassedUpTo(states, step, current), |states| - TailCount(states);
    ExposedByCall(states, step, current);
    FloorBelowTail(states, step);
    UnreadySplit(states, step);
    ThreeKinds(Middle(states, step));
    SliceInTwo(HealthyOld, states, w, c, cut);
    hide CountIf, RollingPartition, TailCount, Exposed;
  }

  const UNREADY := ReplicaState(false, false)
  const SERVING_OLD := ReplicaState(false, true)

  /** Five replicas, a budget of two, two of them already down: the call takes down a third. */
  lemma BudgetExceeded()
    ensures var states := [UNREADY, SERVING_OLD, SERVING_OLD, UNREADY, SERVING_OLD];
            Unready(states) == 2 && RollingPartition(states, 2, 5) == 4 && Exposed(states, 4, 5) == 1
  {
    var states := [UNREADY, SERVING_OLD, SERVING_OLD, UNREADY, SERVING_OLD];
    assert TailCount(states) == 0 && StepPartition(states, 2) == 3;
    CountSlice(NotReady, states, 1, 3);
    CountNone(NotReady, states[1..3]);
    assert states[..1] == [UNREADY] && [UNREADY][..0] == [];
    assert UnavailableBelow(states, 2) == 1;
    CountSlice(NotReady, states, 3, 5);
    assert states[3..5] == [UNREADY, SERVING_OLD];
    assert [UNREADY, SERVING_OLD][..1] == [UNREADY];
    assert states[..5] == states;
    assert states[4..5] == [SERVING_OLD] && [SERVING_OLD][..0] == [];
  }

  // ---------- int32 ----------

  const INT32_MAX := 0x7fff_ffff

  /** Two's-complement truncation to 32 bits. */
  function Int32(x: int): int { (x + 0x8000_0000) % 0x1_0000_0000 - 0x8000_0000 }

  predicate FitsInt32(x: int) { -0x8000_0000 <= x <= INT32_MAX }

  lemma Int32Faithful(x: int)
    ensures Int32(x) == x <==> FitsInt32(x)
    ensures FitsInt32(Int32(x))
  {
  }

  function Want32(roleReplicas: int, surge: int, unready: int): int {
    if unready <= surge then Int32(roleReplicas + NonZeroValue(Int32(unready - 1))) else Int32(roleReplicas + surge)
  }

  /** The rolling step is computed in 64 bits and then cut to 32. */
  function Step32(unavailable: nat, surge: nat, roleReplicas: nat, stsReplicas: nat): int {
    Int32(unavailable + (surge - (Int32(roleReplicas + surge) - stsReplicas)))
  }

  function StepPartition32(stsReplicas: nat, tail: nat, step: int): nat {
    NonZeroValue(Int32(Int32(stsReplicas - tail) - step))
  }

  lemma WantReplicasWidth(roleReplicas: nat, surge: nat, unready: nat)
    requires surge <= roleReplicas && unready <= roleReplicas
    requires 2 * roleReplicas <= INT32_MAX
    ensures Want32(roleReplicas, surge, unready) == WantReplicas(roleReplicas, surge, unready)
    ensures FitsInt32(WantReplicas(roleReplicas, surge, unready))
  {
  }

  lemma {:induction false} Int32Absorbs(x: int, y: int)
    ensures Int32(x - Int32(y)) == Int32(x - y)
    ensures Int32(Int32(x) - y) == Int32(x - y)
  {
    Congruent(x - Int32(y), x - y, (y + 0x8000_0000) / 0x1_0000_0000);
    Congruent(Int32(x) - y, x - y, -((x + 0x8000_0000) / 0x1_0000_0000));
  }

  lemma Congruent(a: int, b: int, k: int)
    requires a == b + k * 0x1_0000_0000
    ensures Int32(a) == Int32(b)
  {
    var m := 0x1_0000_0000;
    var ua, ub := a + 0x8000_0000, b + 0x8000_0000;
    var q := ub / m;
    assert ua == (q + k) * m + ub % m;
    assert ua / m == q + k;
  }

  lemma TruncatedPartition(v: int)
    requires -0x1_0000_0000 < v <= INT32_MAX
    ensures NonZeroValue(Int32(v)) == NonZeroValue(v) <==> -0x8000_0000 <= v
  {
  }

  lemma StepPartition32Meaning(unavailable: nat, surge: nat, roleReplicas: nat, stsReplicas: nat, tail: nat)
    requires surge <= roleReplicas && 2 * roleReplicas <= INT32_MAX && tail <= stsReplicas <= INT32_MAX
    ensures StepPartition32(stsReplicas, tail, Step32(unavailable, surge, roleReplicas, stsReplicas))
            == NonZeroValue(Int32(roleReplicas - unavailable - tail))
  {
    var step := unavailable + stsReplicas - roleReplicas;
    Int32Faithful(roleReplicas + surge);
    Int32Faithful(stsReplicas - tail);
    Int32Absorbs(stsReplicas - tail, step);
    assert stsReplicas - tail - step == roleReplicas - unavailable - tail;
  }

  /**
   Although the step itself may wrap, the step partition comes out right exactly when
   roleReplicas - maxUnavailable - tail has not passed below the int32 range.
   */
  lemma {:induction false} StepPartitionWidth(unavailable: nat, surge: nat, roleReplicas: nat, stsReplicas: nat,
                                              tail: nat)
    requires surge <= roleReplicas && 2 * roleReplicas <= INT32_MAX
    requires unavailable <= INT32_MAX && tail <= stsReplicas <= INT32_MAX
    ensures var step := unavailable + stsReplicas - roleReplicas;
            StepPartition32(stsReplicas, tail, Step32(unavailable, surge, roleReplicas, stsReplicas))
              == NonZeroValue(stsReplicas - tail - step)
            <==> -0x8000_0000 <= roleReplicas - unavailable - tail
  {
    var v := roleReplicas - unavailable - tail;
    StepPartition32Meaning(unavailable, surge, roleReplicas, stsReplicas, tail);
    TruncatedPartition(v);
    assert stsReplicas - tail - (unavailable + stsReplicas - roleReplicas) == v;
  }

  /**
   Nor does the walk's start wrap: the step partition and the unready replicas below it stay within twice the
   role size.
   */
  lemma {:induction false} WalkStartWidth(states: seq<ReplicaState>, unavailable: nat, roleReplicas: nat)
    requires roleReplicas <= |states| && 2 * roleReplicas <= INT32_MAX
    ensures var step := unavailable + |states| - roleReplicas;
            var floor := StepPartition(states, step);
            && floor <= |states|
            && Int32(floor + UnavailableBelow(states, step))
               == floor + UnavailableBelow(states, step) <= 2 * roleReplicas
  {
    Int32Faithful(StepPartition(states, unavailable + |states| - roleReplicas)
                  + UnavailableBelow(states, unavailable + |states| - roleReplicas));
  }
}
