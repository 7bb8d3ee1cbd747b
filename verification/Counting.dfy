/** Counting the elements of a sequence that satisfy a predicate. */
module Counting {

  function CountIf<T>(p: T -> bool, s: seq<T>): (n: nat)
    ensures n <= |s|
  {
    if s == [] then 0
    else CountIf(p, s[..|s| - 1]) + if p(s[|s| - 1]) then 1 else 0
  }

  lemma {:induction false} CountSplit<T>(p: T -> bool, s: seq<T>, k: nat)
    requires k <= |s|
    ensures CountIf(p, s) == CountIf(p, s[..k]) + CountIf(p, s[k..])
    decreases |s|
  {
    if k == |s| {
      assert s[..k] == s;
    } else {
      var front := s[..|s| - 1];
      CountSplit(p, front, k);
      assert front[..k] == s[..k];
      assert s[k..][..|s[k..]| - 1] == front[k..];
    }
  }

  lemma CountSlice<T>(p: T -> bool, s: seq<T>, i: nat, k: nat)
    requires i <= k <= |s|
    ensures CountIf(p, s[..k]) == CountIf(p, s[..i]) + CountIf(p, s[i..k])
  {
    CountSplit(p, s[..k], i);
    assert s[..k][..i] == s[..i];
    assert s[..k][i..] == s[i..k];
  }

  lemma CountSuffix<T>(p: T -> bool, s: seq<T>, i: nat, k: nat)
    requires i <= k <= |s|
    ensures CountIf(p, s[i..]) == CountIf(p, s[i..k]) + CountIf(p, s[k..])
  {
    CountSplit(p, s[i..], k - i);
    assert s[i..][..k - i] == s[i..k];
    assert s[i..][k - i..] == s[k..];
  }

  lemma {:induction false} CountAll<T>(p: T -> bool, s: seq<T>)
    ensures (forall x <- s :: p(x)) <==> CountIf(p, s) == |s|
  {
    if s != [] {
      CountAll(p, s[..|s| - 1]);
      assert s == s[..|s| - 1] + [s[|s| - 1]];
    }
  }

  lemma {:induction false} CountNone<T>(p: T -> bool, s: seq<T>)
    ensures (forall x <- s :: !p(x)) <==> CountIf(p, s) == 0
  {
    if s != [] {
      CountNone(p, s[..|s| - 1]);
      assert s == s[..|s| - 1] + [s[|s| - 1]];
    }
  }

  /** A stronger predicate counts no more elements. */
  lemma {:induction false} CountImplies<T>(p: T -> bool, q: T -> bool, s: seq<T>)
    requires forall x <- s :: p(x) ==> q(x)
    ensures CountIf(p, s) <= CountIf(q, s)
  {
    if s != [] {
      CountImplies(p, q, s[..|s| - 1]);
    }
  }

  /** Two predicates that partition the elements share out the length. */
  lemma {:induction false} CountComplement<T>(p: T -> bool, q: T -> bool, s: seq<T>)
    requires forall x <- s :: p(x) != q(x)
    ensures CountIf(p, s) + CountIf(q, s) == |s|
  {
    if s != [] {
      CountComplement(p, q, s[..|s| - 1]);
    }
  }

  /** A pointwise weaker sequence counts no more. */
  lemma {:induction false} CountPointwise<T>(p: T -> bool, a: seq<T>, b: seq<T>)
    requires |a| == |b|
    requires forall i :: 0 <= i < |a| && p(a[i]) ==> p(b[i])
    ensures CountIf(p, a) <= CountIf(p, b)
  {
    if a != [] {
      CountPointwise(p, a[..|a| - 1], b[..|b| - 1]);
    }
  }
}
