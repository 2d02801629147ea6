/** Counting the elements of sequences and multisets. */
module Counting {

  /** p names every one of its places once. */
  predicate IsPermutation(p: seq<int>) {
    && (forall k :: 0 <= k < |p| ==> 0 <= p[k] < |p|)
    && (forall j, k :: 0 <= j < k < |p| ==> p[j] != p[k])
  }

  lemma {:induction false} DistinctCount<T>(xs: seq<T>, all: set<T>)
    requires forall i, j :: 0 <= i < j < |xs| ==> xs[i] != xs[j]
    requires forall x :: x in xs ==> x in all
    ensures |xs| <= |all|
    ensures (forall x :: x in all ==> x in xs) ==> |xs| == |all|
  {
    if xs != [] {
      var front, last := xs[..|xs| - 1], xs[|xs| - 1];
      DistinctCount(front, all - {last});
    }
  }

  /** The numbers below n. */
  lemma Below(n: nat) returns (s: set<int>)
    ensures forall k :: k in s <==> 0 <= k < n
    ensures |s| == n
  {
    var all := seq(n, k => k);
    s := set k | k in all;
    forall k | 0 <= k < n ensures k in s { assert all[k] == k; }
    DistinctCount(all, s);
  }

  lemma Cancel<T>(a: multiset<T>, b: multiset<T>, c: multiset<T>)
    requires a + c == b + c
    ensures a == b
  {
    assert a == (a + c) - c && b == (b + c) - c;
  }

  /** The elements of a finite set, each once. */
  lemma Listing<T>(s: set<T>) returns (xs: seq<T>)
    ensures |xs| == |s| && (forall x :: x in xs ==> x in s)
    ensures forall i, j :: 0 <= i < j < |xs| ==> xs[i] != xs[j]
  {
    xs := [];
    if s != {} {
      var x :| x in s;
      var rest := Listing(s - {x});
      xs := rest + [x];
    }
  }
}
