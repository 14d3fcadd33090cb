/**
 The comparison of instance lists in qa/src/torture_indom.c.
 */
module InstLists {
  import opened Basics

  datatype Value = Value(inst: int, lval: int)

  /** result_instlist: the instances of a fetched value set, in order. */
  method ResultInstList(vlist: seq<Value>) returns (list: array<int>)
    ensures fresh(list) && list.Length == |vlist|
    ensures forall i :: 0 <= i < |vlist| ==> list[i] == vlist[i].inst
  {
    list := new int[|vlist|];
    var i := 0;
    while i < |vlist|
      invariant 0 <= i <= |vlist|
      invariant forall k :: 0 <= k < i ==> list[k] == vlist[k].inst
    {
      list[i] := vlist[i].inst;
      i := i + 1;
    }
  }

  predicate Included(a: seq<int>, b: seq<int>) {
    forall i :: 0 <= i < |a| ==> a[i] in b
  }

  /** cmp_list: 0 exactly when everything in the first list is somewhere in the second. */
  method CmpList(n: nat, list1: array<int>, list2: array<int>) returns (r: int)
    requires n <= list1.Length && n <= list2.Length
    ensures r == if Included(list1[..n], list2[..n]) then 0 else 1
  {
    var i := 0;
    while i < n
      invariant 0 <= i <= n
      invariant forall k :: 0 <= k < i ==> list1[k] in list2[..n]
    {
      var j := 0;
      while j < n
        invariant 0 <= j <= n
        invariant forall k :: 0 <= k < j ==> list2[k] != list1[i]
      {
        if list1[i] == list2[j] {
          break;
        }
        j := j + 1;
      }
      if j == n {
        assert list1[..n][i] !in list2[..n];
        return 1;
      }
      assert list2[..n][j] == list1[i];
      i := i + 1;
    }
    return 0;
  }

  function Without(b: seq<int>, j: nat): (r: seq<int>)
    requires j < |b|
    ensures |r| == |b| - 1 && multiset(b) == multiset(r) + multiset{b[j]}
  {
    assert b == b[..j] + [b[j]] + b[j + 1..];
    b[..j] + b[j + 1..]
  }

  /** Distinct elements all found in a list of the same length: the two lists are permutations. */
  lemma {:induction false} Pigeonhole(a: seq<int>, b: seq<int>)
    requires Distinct(a) && |a| == |b| && Included(a, b)
    ensures multiset(a) == multiset(b)
  {
    if a != [] {
      var n := |a| - 1;
      assert a[n] in b;
      var j :| 0 <= j < |b| && b[j] == a[n];
      var b' := Without(b, j);
      forall i | 0 <= i < n ensures a[..n][i] in b' {
        assert a[i] in b && a[i] != a[n];
        var k :| 0 <= k < |b| && b[k] == a[i];
        assert b'[if k < j then k else k - 1] == a[i];
      }
      Pigeonhole(a[..n], b');
      assert a == a[..n] + [a[n]];
    }
  }

  /** Larger than everything in the list. */
  function Beyond(a: seq<int>): (m: int)
    ensures forall i :: 0 <= i < |a| ==> a[i] < m
  {
    if a == [] then 0
    else
      var m := Beyond(a[..|a| - 1]);
      if m > a[|a| - 1] then m else a[|a| - 1] + 1
  }

  lemma Overlooked(a: seq<int>, i: nat, j: nat) returns (b: seq<int>)
    requires i < j < |a| && a[i] == a[j]
    ensures |b| == |a| && Included(a, b) && multiset(b) != multiset(a)
  {
    var m := Beyond(a);
    b := a[j := m];
    forall k | 0 <= k < |a| ensures a[k] in b {
      assert b[if k == j then i else k] == a[k];
    }
    assert b[j] == m && m in multiset(b);
    assert m !in a;
  }

  /**
   The one-directional comparison is enough for a permutation exactly when the first list has no
   repetitions.
   */
  lemma ComparisonSufficesIffDistinct(a: seq<int>)
    ensures (forall b: seq<int> :: |b| == |a| && Included(a, b) ==> multiset(b) == multiset(a)) <==> Distinct(a)
  {
    if Distinct(a) {
      forall b: seq<int> | |b| == |a| && Included(a, b) ensures multiset(b) == multiset(a) {
        Pigeonhole(a, b);
      }
    } else {
      var i, j :| 0 <= i < j < |a| && a[i] == a[j];
      var b := Overlooked(a, i, j);
    }
  }

  /** The three checks of do_test: an instance domain and two fetches agree. */
  lemma ThreeListsAgree(indom: seq<int>, r1: seq<int>, r2: seq<int>)
    requires |r1| == |r2| == |indom| && Distinct(indom)
    requires Included(indom, r1) && Included(indom, r2)
    ensures multiset(indom) == multiset(r1) == multiset(r2)
    ensures Included(r1, r2) && Included(r2, r1)
  {
    Pigeonhole(indom, r1);
    Pigeonhole(indom, r2);
    forall i | 0 <= i < |r1| ensures r1[i] in r2 {
      assert r1[i] in multiset(r1);
    }
    forall i | 0 <= i < |r2| ensures r2[i] in r1 {
      assert r2[i] in multiset(r2);
    }
  }
}
