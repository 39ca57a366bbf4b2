/** Sequences and sets: elements, duplicates and sizes. */
module Sequences {

  predicate NoDuplicates<T(==)>(q: seq<T>)
  {
    forall j, k :: 0 <= j < k < |q| ==> q[j] != q[k]
  }

  predicate Below(q: seq<nat>, n: nat)
  {
    forall k :: 0 <= k < |q| ==> q[k] < n
  }

  /** At most n different numbers below n. */
  lemma {:induction false} Pigeonhole(q: seq<nat>, n: nat)
    requires NoDuplicates(q) && Below(q, n)
    ensures |q| <= n
    decreases n
  {
    if q != [] {
      assert q[0] < n;
      if n - 1 in q {
        var k :| 0 <= k < |q| && q[k] == n - 1;
        Pigeonhole(q[..k] + q[k + 1..], n - 1);
      } else {
        Pigeonhole(q, n - 1);
      }
    }
  }

  function Elems<T>(q: seq<T>): set<T>
  {
    set x | x in q
  }

  lemma {:induction false} SubsetSize<T>(a: set<T>, b: set<T>)
    requires a <= b
    ensures |a| <= |b|
    decreases b
  {
    if a != {} {
      var x :| x in a;
      SubsetSize(a - {x}, b - {x});
    }
  }

  function Fill<T>(n: nat, x: T): (r: seq<T>)
    ensures |r| == n && forall i :: 0 <= i < n ==> r[i] == x
  {
    if n == 0 then [] else [x] + Fill(n - 1, x)
  }
}
