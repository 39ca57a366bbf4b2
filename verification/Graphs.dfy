/** Undirected weighted graphs: connectivity by walks, forests, and how large a forest can be. */
module Graphs {

  import opened Sequences

  datatype Edge = Edge(a: nat, b: nat, w: int)

  predicate InRange(n: nat, e: Edge)
  {
    e.a < n && e.b < n
  }

  predicate AllInRange(n: nat, es: set<Edge>)
  {
    forall e :: e in es ==> InRange(n, e)
  }

  predicate Touches(e: Edge, x: nat, y: nat)
  {
    (e.a == x && e.b == y) || (e.a == y && e.b == x)
  }

  ghost predicate Adjacent(es: set<Edge>, x: nat, y: nat)
  {
    exists e :: e in es && Touches(e, x, y)
  }

  ghost predicate Walk(es: set<Edge>, p: seq<nat>)
  {
    |p| > 0 && forall i :: 0 < i < |p| ==> Adjacent(es, p[i - 1], p[i])
  }

  ghost predicate WalkFrom(es: set<Edge>, p: seq<nat>, x: nat, y: nat)
  {
    Walk(es, p) && p[0] == x && p[|p| - 1] == y
  }

  ghost predicate Connected(es: set<Edge>, x: nat, y: nat)
  {
    exists p :: WalkFrom(es, p, x, y)
  }

  /** No edge joins two ends that the other edges already connect. */
  ghost predicate Acyclic(es: set<Edge>)
  {
    forall e :: e in es ==> !Connected(es - {e}, e.a, e.b)
  }

  ghost predicate SameConnectivity(n: nat, es: set<Edge>, fs: set<Edge>)
  {
    forall x, y :: 0 <= x < n && 0 <= y < n ==> (Connected(es, x, y) <==> Connected(fs, x, y))
  }

  ghost predicate SpanningForest(n: nat, es: set<Edge>, f: set<Edge>)
  {
    f <= es && Acyclic(f) && SameConnectivity(n, es, f)
  }

  // ---- connectivity is an equivalence, monotone in the edges ----

  lemma ConnectedSelf(es: set<Edge>, x: nat)
    ensures Connected(es, x, x)
  {
    assert WalkFrom(es, [x], x, x);
  }

  lemma ConnectedEdge(es: set<Edge>, e: Edge)
    requires e in es
    ensures Connected(es, e.a, e.b) && Connected(es, e.b, e.a)
  {
    assert Touches(e, e.a, e.b) && Touches(e, e.b, e.a);
    assert WalkFrom(es, [e.a, e.b], e.a, e.b);
    assert WalkFrom(es, [e.b, e.a], e.b, e.a);
  }

  lemma ConnectedTrans(es: set<Edge>, x: nat, y: nat, z: nat)
    requires Connected(es, x, y) && Connected(es, y, z)
    ensures Connected(es, x, z)
  {
    var p :| WalkFrom(es, p, x, y);
    var q :| WalkFrom(es, q, y, z);
    var r := p + q[1..];
    forall i | 0 < i < |r| ensures Adjacent(es, r[i - 1], r[i]) {
      if i >= |p| {
        assert Adjacent(es, q[i - |p|], q[i - |p| + 1]);
      } else {
        assert Adjacent(es, p[i - 1], p[i]);
      }
    }
    assert WalkFrom(es, r, x, z);
  }

  lemma ConnectedMono(es: set<Edge>, fs: set<Edge>, x: nat, y: nat)
    requires es <= fs && Connected(es, x, y)
    ensures Connected(fs, x, y)
  {
    var p :| WalkFrom(es, p, x, y);
    forall i | 0 < i < |p| ensures Adjacent(fs, p[i - 1], p[i]) {
      assert Adjacent(es, p[i - 1], p[i]);
      var e :| e in es && Touches(e, p[i - 1], p[i]);
      assert e in fs;
    }
    assert WalkFrom(fs, p, x, y);
  }

  lemma AcyclicSubset(es: set<Edge>, fs: set<Edge>)
    requires es <= fs && Acyclic(fs)
    ensures Acyclic(es)
  {
    forall e | e in es ensures !Connected(es - {e}, e.a, e.b) {
      if Connected(es - {e}, e.a, e.b) {
        ConnectedMono(es - {e}, fs - {e}, e.a, e.b);
      }
    }
  }

  // ---- component labels ----

  /** One label per vertex: each edge in turn renames the label of one end to that of the other. */
  function Merge(lab: seq<nat>, e: Edge): (r: seq<nat>)
    requires InRange(|lab|, e)
    ensures |r| == |lab|
    ensures forall i :: 0 <= i < |lab| ==> r[i] == if lab[i] == lab[e.b] then lab[e.a] else lab[i]
  {
    seq(|lab|, i requires 0 <= i < |lab| => if lab[i] == lab[e.b] then lab[e.a] else lab[i])
  }

  function Labels(n: nat, es: seq<Edge>): (lab: seq<nat>)
    requires AllInRange(n, Elems(es))
    ensures |lab| == n
    decreases |es|
  {
    if es == [] then seq(n, i requires 0 <= i < n => i)
    else
      assert es[|es| - 1] in Elems(es);
      assert Elems(es[..|es| - 1]) <= Elems(es);
      Merge(Labels(n, es[..|es| - 1]), es[|es| - 1])
  }

  /** Along every walk the label stays the same. */
  lemma {:induction false} LabelsAlongWalk(lab: seq<nat>, es: set<Edge>, p: seq<nat>)
    requires AllInRange(|lab|, es) && Walk(es, p) && p[0] < |lab|
    requires forall e :: e in es ==> lab[e.a] == lab[e.b]
    ensures p[|p| - 1] < |lab| && lab[p[0]] == lab[p[|p| - 1]]
    decreases |p|
  {
    if |p| > 1 {
      var n := |p| - 1;
      var q := p[..n];
      assert Walk(es, q);
      LabelsAlongWalk(lab, es, q);
      assert Adjacent(es, p[n - 1], p[n]);
    }
  }

  lemma MergedEnds(n: nat, es: seq<Edge>, e: Edge)
    requires AllInRange(n, Elems(es)) && e in Elems(es)
    ensures Labels(n, es)[e.a] == Labels(n, es)[e.b]
    decreases |es|
  {
    var k := |es| - 1;
    assert es[k] in Elems(es);
    assert Elems(es[..k]) <= Elems(es);
    if e != es[k] {
      assert e in Elems(es[..k]);
      MergedEnds(n, es[..k], e);
    }
  }

  lemma {:induction false} SameLabelConnected(n: nat, es: seq<Edge>, x: nat, y: nat)
    requires AllInRange(n, Elems(es)) && x < n && y < n
    requires Labels(n, es)[x] == Labels(n, es)[y]
    ensures Connected(Elems(es), x, y)
    decreases |es|, 0
  {
    var all := Elems(es);
    if es == [] {
      ConnectedSelf(all, x);
    } else {
      var k := |es| - 1;
      var e, before := es[k], es[..k];
      assert e in all && Elems(before) <= all;
      var lab := Labels(n, before);
      ConnectedEdge(all, e);
      if lab[x] == lab[y] {
        SameLabelConnected(n, before, x, y);
        ConnectedMono(Elems(before), all, x, y);
      } else if lab[x] == lab[e.b] {
        JoinThrough(n, before, all, x, e.b, e.a, y);
      } else {
        JoinThrough(n, before, all, x, e.a, e.b, y);
      }
    }
  }

  lemma {:induction false} JoinThrough(n: nat, es: seq<Edge>, all: set<Edge>, x: nat, u: nat, v: nat, y: nat)
    requires AllInRange(n, Elems(es)) && Elems(es) <= all
    requires x < n && u < n && v < n && y < n
    requires Labels(n, es)[x] == Labels(n, es)[u] && Labels(n, es)[v] == Labels(n, es)[y]
    requires Connected(all, u, v)
    ensures Connected(all, x, y)
    decreases |es|, 1
  {
    SameLabelConnected(n, es, x, u);
    ConnectedMono(Elems(es), all, x, u);
    SameLabelConnected(n, es, v, y);
    ConnectedMono(Elems(es), all, v, y);
    ConnectedTrans(all, x, u, v);
    ConnectedTrans(all, x, v, y);
  }

  /** Labels decide connectivity. */
  lemma LabelsAreComponents(n: nat, es: seq<Edge>, x: nat, y: nat)
    requires AllInRange(n, Elems(es)) && x < n && y < n
    ensures Labels(n, es)[x] == Labels(n, es)[y] <==> Connected(Elems(es), x, y)
  {
    var lab := Labels(n, es);
    if lab[x] == lab[y] {
      SameLabelConnected(n, es, x, y);
    }
    if Connected(Elems(es), x, y) {
      var p :| WalkFrom(Elems(es), p, x, y);
      forall e | e in Elems(es) ensures lab[e.a] == lab[e.b] {
        MergedEnds(n, es, e);
      }
      LabelsAlongWalk(lab, Elems(es), p);
    }
  }

  // ---- counting components ----

  function Values(lab: seq<nat>): set<nat>
  {
    set i | 0 <= i < |lab| :: lab[i]
  }

  lemma MergeCount(lab: seq<nat>, e: Edge)
    requires InRange(|lab|, e) && lab[e.a] != lab[e.b]
    ensures |Values(Merge(lab, e))| == |Values(lab)| - 1
  {
    var r := Merge(lab, e);
    var gone := lab[e.b];
    assert gone in Values(lab);
    assert Values(r) == Values(lab) - {gone} by {
      forall v | v in Values(lab) - {gone} ensures v in Values(r) {
        var i :| 0 <= i < |lab| && lab[i] == v;
        assert r[i] == v;
      }
      forall v | v in Values(r) ensures v in Values(lab) - {gone} {
        var i :| 0 <= i < |r| && r[i] == v;
        assert lab[i] in Values(lab) && lab[e.a] in Values(lab);
      }
    }
  }

  lemma {:induction false} IdentityCount(n: nat, lab: seq<nat>)
    requires |lab| == n && forall i :: 0 <= i < n ==> lab[i] == i
    ensures |Values(lab)| == n
    decreases n
  {
    if n == 0 {
      assert Values(lab) == {};
    } else {
      IdentityCount(n - 1, lab[..n - 1]);
      assert Values(lab) == Values(lab[..n - 1]) + {n - 1} by {
        assert forall i :: 0 <= i < n - 1 ==> lab[i] == lab[..n - 1][i];
        assert lab[n - 1] == n - 1;
      }
    }
  }

  /** Each edge of a forest removes one component. */
  lemma {:induction false} ForestCount(n: nat, es: seq<Edge>)
    requires AllInRange(n, Elems(es)) && NoDuplicates(es) && Acyclic(Elems(es))
    ensures |Values(Labels(n, es))| == n - |es|
    decreases |es|
  {
    if es == [] {
      IdentityCount(n, Labels(n, es));
    } else {
      var k := |es| - 1;
      var e, before := es[k], es[..k];
      assert e in Elems(es);
      assert Elems(before) == Elems(es) - {e};
      AcyclicSubset(Elems(before), Elems(es));
      ForestCount(n, before);
      LabelsAreComponents(n, before, e.a, e.b);
      MergeCount(Labels(n, before), e);
    }
  }

  /** A coarser labelling has no more labels. */
  lemma {:induction false} CoarserHasFewer(fine: seq<nat>, coarse: seq<nat>, vs: set<nat>)
    requires |fine| == |coarse| && vs <= Values(coarse)
    requires forall i, j :: 0 <= i < |fine| && 0 <= j < |fine| && fine[i] == fine[j] ==> coarse[i] == coarse[j]
    ensures |vs| <= |set i | 0 <= i < |fine| && coarse[i] in vs :: fine[i]|
    decreases vs
  {
    var image := set i | 0 <= i < |fine| && coarse[i] in vs :: fine[i];
    if vs != {} {
      var v :| v in vs;
      var k :| 0 <= k < |coarse| && coarse[k] == v;
      CoarserHasFewer(fine, coarse, vs - {v});
      var rest := set i | 0 <= i < |fine| && coarse[i] in vs - {v} :: fine[i];
      assert fine[k] !in rest;
      assert rest + {fine[k]} <= image;
      SubsetSize(rest + {fine[k]}, image);
    }
  }

  ghost function Listed(es: set<Edge>): (l: seq<Edge>)
    ensures Elems(l) == es && NoDuplicates(l) && |l| == |es|
  {
    if es == {} then [] else
      var e :| e in es;
      var l := Listed(es - {e});
      assert forall x :: x in l + [e] <==> x in Elems(l) || x == e;
      l + [e]
  }

  /** Among forests on n vertices, one that connects no more has no more edges. */
  lemma ForestBound(n: nat, f: set<Edge>, t: set<Edge>)
    requires AllInRange(n, f) && AllInRange(n, t) && Acyclic(f) && Acyclic(t)
    requires forall x, y :: 0 <= x < n && 0 <= y < n && Connected(f, x, y) ==> Connected(t, x, y)
    ensures |f| <= |t|
  {
    var fl, tl := Listed(f), Listed(t);
    ForestCount(n, fl);
    ForestCount(n, tl);
    var fine, coarse := Labels(n, fl), Labels(n, tl);
    forall i, j | 0 <= i < n && 0 <= j < n && fine[i] == fine[j] ensures coarse[i] == coarse[j] {
      LabelsAreComponents(n, fl, i, j);
      LabelsAreComponents(n, tl, i, j);
    }
    CoarserHasFewer(fine, coarse, Values(coarse));
    assert (set i | 0 <= i < |fine| && coarse[i] in Values(coarse) :: fine[i]) == Values(fine);
  }
}
