/**
 Sorting by name. The sort is used through its contract only: some sorted permutation, with no
 promise about elements of equal name. The lemmas say when that pins the result down.
 */
module Sorting {
  import opened Strings

  predicate Sorted<T>(s: seq<T>, name: T -> string) {
    forall i, j :: 0 <= i < j < |s| ==> AtMost(name(s[i]), name(s[j]))
  }

  function Names<T>(s: seq<T>, name: T -> string): (names: seq<string>)
    ensures |names| == |s| && forall i :: 0 <= i < |s| ==> names[i] == name(s[i])
  {
    seq(|s|, i requires 0 <= i < |s| => name(s[i]))
  }

  predicate DistinctNames<T>(s: seq<T>, name: T -> string) {
    forall i, j :: 0 <= i < j < |s| ==> name(s[i]) != name(s[j])
  }

  // ---------- A sort that meets the contract ----------

  function Insert<T>(x: T, s: seq<T>, name: T -> string): seq<T> {
    if s == [] || AtMost(name(x), name(s[0])) then [x] + s
    else [s[0]] + Insert(x, s[1..], name)
  }

  function InsertionSort<T>(s: seq<T>, name: T -> string): seq<T> {
    if s == [] then [] else Insert(s[0], InsertionSort(s[1..], name), name)
  }

  lemma {:induction false} InsertPermutes<T>(x: T, s: seq<T>, name: T -> string)
    ensures multiset(Insert(x, s, name)) == multiset(s) + multiset{x}
  {
    if !(s == [] || AtMost(name(x), name(s[0]))) {
      InsertPermutes(x, s[1..], name);
      assert s == [s[0]] + s[1..];
    }
  }

  lemma {:induction false} InsertKeepsSorted<T>(x: T, s: seq<T>, name: T -> string)
    requires Sorted(s, name)
    ensures Sorted(Insert(x, s, name), name)
  {
    var r := Insert(x, s, name);
    if s == [] {
    } else if AtMost(name(x), name(s[0])) {
      forall j | 0 < j < |r| ensures AtMost(name(x), name(r[j])) {
        if j > 1 {
          AtMostTransitive(name(x), name(s[0]), name(s[j - 1]));
        }
      }
    } else {
      InsertKeepsSorted(x, s[1..], name);
      InsertPermutes(x, s[1..], name);
      LessAsymmetric(name(s[0]), name(x));
      forall j | 0 < j < |r| ensures AtMost(name(s[0]), name(r[j])) {
        assert r[j] == r[1..][j - 1];
        assert r[j] in multiset(Insert(x, s[1..], name));
        if r[j] != x {
          assert r[j] in s[1..];
        }
      }
    }
  }

  lemma {:induction false} InsertionSortSorts<T>(s: seq<T>, name: T -> string)
    ensures Sorted(InsertionSort(s, name), name)
    ensures multiset(InsertionSort(s, name)) == multiset(s)
  {
    if s != [] {
      InsertionSortSorts(s[1..], name);
      InsertKeepsSorted(s[0], InsertionSort(s[1..], name), name);
      InsertPermutes(s[0], InsertionSort(s[1..], name), name);
      assert s == [s[0]] + s[1..];
    }
  }

  /** Sort a slice in place by name. */
  method SortSlice<T>(a: array<T>, name: T -> string)
    modifies a
    ensures Sorted(a[..], name) && multiset(a[..]) == multiset(old(a[..]))
  {
    ghost var was := a[..];
    var sorted := InsertionSort(a[..], name);
    InsertionSortSorts(was, name);
    assert |multiset(sorted)| == |multiset(was)|;
    forall i | 0 <= i < a.Length {
      a[i] := sorted[i];
    }
    assert a[..] == sorted;
  }

  // ---------- Uniqueness ----------

  function Remove<T>(s: seq<T>, k: nat): seq<T>
    requires k < |s|
  {
    s[..k] + s[k + 1..]
  }

  lemma RemovePermutes<T>(s: seq<T>, k: nat)
    requires k < |s|
    ensures multiset(s) == multiset(Remove(s, k)) + multiset{s[k]}
  {
    assert s == s[..k] + [s[k]] + s[k + 1..];
  }

  lemma FindIn<T>(s: seq<T>, t: seq<T>, x: T) returns (k: nat)
    requires multiset(s) == multiset(t) && x in s
    ensures k < |t| && t[k] == x
  {
    assert x in multiset(t);
    k :| k < |t| && t[k] == x;
  }

  lemma TailsPermute<T>(a: seq<T>, b: seq<T>)
    requires a != [] && b != [] && a[0] == b[0] && multiset(a) == multiset(b)
    ensures multiset(a[1..]) == multiset(b[1..])
  {
    assert a == [a[0]] + a[1..] && b == [b[0]] + b[1..];
    assert multiset(a[1..]) == multiset(a) - multiset{a[0]};
    assert multiset(b[1..]) == multiset(b) - multiset{a[0]};
  }

  /** Sorted lists of strings with the same elements are equal, repetitions included. */
  lemma {:induction false} SortedStringsUnique(a: seq<string>, b: seq<string>)
    requires Sorted(a, s => s) && Sorted(b, s => s) && multiset(a) == multiset(b)
    ensures a == b
  {
    assert |multiset(a)| == |a| && |multiset(b)| == |b|;
    if a != [] {
      var i := FindIn(a, b, a[0]);
      var j := FindIn(b, a, b[0]);
      if i > 0 && j > 0 {
        AtMostAntisymmetric(a[0], b[0]);
      }
      TailsPermute(a, b);
      SortedStringsUnique(a[1..], b[1..]);
      assert a == [a[0]] + a[1..] && b == [b[0]] + b[1..];
    }
  }

  lemma NamesCommuteWithRemove<T>(s: seq<T>, k: nat, name: T -> string)
    requires k < |s|
    ensures Names(Remove(s, k), name) == Remove(Names(s, name), k)
  {
  }

  lemma NamesOfRemove<T>(s: seq<T>, k: nat, name: T -> string)
    requires k < |s|
    ensures multiset(Names(s, name)) == multiset(Names(Remove(s, k), name)) + multiset{name(s[k])}
  {
    NamesCommuteWithRemove(s, k, name);
    RemovePermutes(Names(s, name), k);
  }

  lemma RemovalsPermute<T>(s: seq<T>, i: nat, t: seq<T>, k: nat)
    requires i < |s| && k < |t| && s[i] == t[k] && multiset(s) == multiset(t)
    ensures multiset(Remove(s, i)) == multiset(Remove(t, k))
  {
    RemovePermutes(s, i);
    RemovePermutes(t, k);
    assert multiset(Remove(s, i)) == multiset(s) - multiset{s[i]};
    assert multiset(Remove(t, k)) == multiset(t) - multiset{s[i]};
  }

  /** A permutation permutes the names. */
  lemma {:induction false} NamesPermute<T>(s: seq<T>, t: seq<T>, name: T -> string)
    requires multiset(s) == multiset(t)
    ensures multiset(Names(s, name)) == multiset(Names(t, name))
    decreases |s|
  {
    assert |multiset(s)| == |s| && |multiset(t)| == |t|;
    if s != [] {
      var k := FindIn(s, t, s[0]);
      RemovalsPermute(s, 0, t, k);
      NamesPermute(Remove(s, 0), Remove(t, k), name);
      NamesOfRemove(s, 0, name);
      NamesOfRemove(t, k, name);
    }
  }

  lemma SortedNames<T>(s: seq<T>, name: T -> string)
    requires Sorted(s, name)
    ensures Sorted(Names(s, name), x => x)
  {
  }

  lemma {:induction false} SameNameSameElement<T>(s: seq<T>, name: T -> string, x: T, y: T)
    requires DistinctNames(s, name) && x in s && y in s && name(x) == name(y)
    ensures x == y
  {
    var i :| 0 <= i < |s| && s[i] == x;
    var j :| 0 <= j < |s| && s[j] == y;
    assert i == j;
  }

  /** Sorted lists with the same names, repetitions included, have their names in the same places. */
  lemma SortedNamesAgree<T>(a: seq<T>, b: seq<T>, name: T -> string)
    requires Sorted(a, name) && Sorted(b, name) && multiset(Names(a, name)) == multiset(Names(b, name))
    ensures Names(a, name) == Names(b, name)
  {
    SortedNames(a, name);
    SortedNames(b, name);
    SortedStringsUnique(Names(a, name), Names(b, name));
  }

  function NameSet<T>(s: seq<T>, name: T -> string): set<string> { set x | x in Names(s, name) }

  lemma {:induction false} DistinctAsSet(s: seq<string>)
    requires forall i, j :: 0 <= i < j < |s| ==> s[i] != s[j]
    ensures multiset(s) == multiset(set x | x in s)
  {
    if s != [] {
      var rest := s[1..];
      DistinctAsSet(rest);
      assert s == [s[0]] + rest;
      assert s[0] !in rest;
      assert (set x | x in s) == (set x | x in rest) + {s[0]};
    }
  }

  lemma DistinctNamesAsSet<T>(s: seq<T>, name: T -> string)
    requires DistinctNames(s, name)
    ensures multiset(Names(s, name)) == multiset(NameSet(s, name))
  {
    DistinctAsSet(Names(s, name));
  }

  /** Distinct names stay distinct under a permutation. */
  lemma DistinctPermutes<T>(a: seq<T>, b: seq<T>, name: T -> string)
    requires multiset(a) == multiset(b) && DistinctNames(a, name)
    ensures DistinctNames(b, name)
  {
    NamesPermute(a, b, name);
    var na, nb := Names(a, name), Names(b, name);
    forall i, j | 0 <= i < j < |b| ensures name(b[i]) != name(b[j]) {
      if nb[i] == nb[j] {
        assert nb == nb[..i] + [nb[i]] + nb[i + 1..j] + [nb[j]] + nb[j + 1..];
        assert multiset(nb)[nb[i]] >= 2;
        AtMostOnce(na, nb[i]);
        assert false;
      }
    }
  }

  lemma {:induction false} AtMostOnce(s: seq<string>, x: string)
    requires forall i, j :: 0 <= i < j < |s| ==> s[i] != s[j]
    ensures multiset(s)[x] <= 1
  {
    if s != [] {
      AtMostOnce(s[1..], x);
      assert s == [s[0]] + s[1..];
      assert s[0] == x ==> x !in s[1..];
    }
  }
}
