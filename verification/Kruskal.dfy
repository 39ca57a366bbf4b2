/** The greedy choice of tree edges: a spanning forest, of least weight, complete at n - 1 edges. */
module Kruskal {
  import opened Graphs
  import opened Sequences

  /** The edges kept when each edge, in order, is kept iff its ends are not yet connected. */
  function Greedy(n: nat, order: seq<Edge>): (t: seq<Edge>)
    requires AllInRange(n, Elems(order))
    ensures Elems(t) <= Elems(order)
    decreases |order|
  {
    if order == [] then [] else
      var k := |order| - 1;
      assert order[k] in Elems(order);
      assert Elems(order[..k]) <= Elems(order);
      var t, lab := Greedy(n, order[..k]), Labels(n, order[..k]);
      if lab[order[k].a] != lab[order[k].b] then t + [order[k]] else t
  }

  lemma ElemsAppend(es: seq<Edge>, e: Edge)
    ensures Elems(es + [e]) == Elems(es) + {e}
  {
    assert forall x :: x in es + [e] <==> x in es || x == e;
  }

  lemma LabelsAppend(n: nat, es: seq<Edge>, e: Edge)
    requires AllInRange(n, Elems(es)) && InRange(n, e)
    ensures Elems(es + [e]) == Elems(es) + {e}
    ensures Labels(n, es + [e]) == Merge(Labels(n, es), e)
  {
    ElemsAppend(es, e);
    assert (es + [e])[..|es|] == es;
  }

  // ---- the kept edges span ----

  lemma {:induction false} GreedyLabels(n: nat, order: seq<Edge>)
    requires AllInRange(n, Elems(order))
    ensures AllInRange(n, Elems(Greedy(n, order)))
    ensures Labels(n, Greedy(n, order)) == Labels(n, order)
    decreases |order|
  {
    if order != [] {
      var k := |order| - 1;
      assert order[k] in Elems(order);
      assert Elems(order[..k]) <= Elems(order);
      GreedyLabels(n, order[..k]);
      LabelsAppend(n, Greedy(n, order[..k]), order[k]);
    }
  }

  lemma GreedyConnects(n: nat, order: seq<Edge>)
    requires AllInRange(n, Elems(order))
    ensures SameConnectivity(n, Elems(order), Elems(Greedy(n, order)))
  {
    GreedyLabels(n, order);
    forall x, y | 0 <= x < n && 0 <= y < n
      ensures Connected(Elems(order), x, y) <==> Connected(Elems(Greedy(n, order)), x, y)
    {
      LabelsAreComponents(n, order, x, y);
      LabelsAreComponents(n, Greedy(n, order), x, y);
    }
  }

  // ---- the kept edges form a forest ----

  lemma SameComponentsSameCount(n: nat, es: seq<Edge>, fs: seq<Edge>)
    requires AllInRange(n, Elems(es)) && Elems(es) == Elems(fs)
    ensures |Values(Labels(n, es))| <= |Values(Labels(n, fs))|
  {
    var coarse, fine := Labels(n, es), Labels(n, fs);
    forall i, j | 0 <= i < n && 0 <= j < n && fine[i] == fine[j] ensures coarse[i] == coarse[j] {
      LabelsAreComponents(n, es, i, j);
      LabelsAreComponents(n, fs, i, j);
    }
    CoarserHasFewer(fine, coarse, Values(coarse));
    assert (set i | 0 <= i < |fine| && coarse[i] in Values(coarse) :: fine[i]) == Values(fine);
  }

  lemma MergeAtMostOne(lab: seq<nat>, e: Edge)
    requires InRange(|lab|, e)
    ensures |Values(Merge(lab, e))| >= |Values(lab)| - 1
    ensures lab[e.a] == lab[e.b] ==> Merge(lab, e) == lab
  {
    if lab[e.a] == lab[e.b] {
      assert Merge(lab, e) == lab;
    } else {
      MergeCount(lab, e);
    }
  }

  lemma TwoMoreEdges(n: nat, es: seq<Edge>, e: Edge, f: Edge)
    requires AllInRange(n, Elems(es)) && InRange(n, e) && InRange(n, f)
    requires Connected(Elems(es) + {e}, f.a, f.b)
    ensures Elems(es + [e] + [f]) == Elems(es) + {e} + {f}
    ensures |Values(Labels(n, es + [e] + [f]))| >= |Values(Labels(n, es))| - 1
  {
    hide Labels, Elems;
    LabelsAppend(n, es, e);
    MergeAtMostOne(Labels(n, es), e);
    LabelsAreComponents(n, es + [e], f.a, f.b);
    LabelsAppend(n, es + [e], f);
    MergeAtMostOne(Labels(n, es + [e]), f);
  }

  /** Closing a cycle elsewhere would make one component too many. */
  lemma CycleAddsComponent(n: nat, t: set<Edge>, e: Edge, f: Edge) returns (l: seq<Edge>)
    requires AllInRange(n, t + {e}) && Acyclic(t) && f in t && e !in t
    requires Connected(t + {e} - {f}, f.a, f.b)
    ensures Elems(l) == t + {e} && |Values(Labels(n, l))| >= n - |t|
  {
    hide Labels, Elems, Listed;
    assert InRange(n, e) && InRange(n, f);
    AcyclicSubset(t - {f}, t);
    var rest := Listed(t - {f});
    ForestCount(n, rest);
    assert t + {e} - {f} == Elems(rest) + {e};
    TwoMoreEdges(n, rest, e, f);
    l := rest + [e] + [f];
    assert Elems(rest) + {e} + {f} == t + {e};
  }

  lemma AcrossKeepsForest(n: nat, t: set<Edge>, e: Edge)
    requires AllInRange(n, t) && InRange(n, e) && Acyclic(t) && !Connected(t, e.a, e.b)
    ensures e !in t && Acyclic(t + {e})
  {
    if e in t {
      ConnectedEdge(t, e);
    }
    forall f | f in t + {e} ensures !Connected(t + {e} - {f}, f.a, f.b) {
      if f == e {
        assert t + {e} - {f} == t;
      } else if Connected(t + {e} - {f}, f.a, f.b) {
        var l := CycleAddsComponent(n, t, e, f);
        var tl := Listed(t);
        ForestCount(n, tl);
        LabelsAreComponents(n, tl, e.a, e.b);
        LabelsAppend(n, tl, e);
        MergeCount(Labels(n, tl), e);
        SameComponentsSameCount(n, l, tl + [e]);
      }
    }
  }

  lemma {:induction false} GreedyForest(n: nat, order: seq<Edge>)
    requires AllInRange(n, Elems(order))
    ensures Acyclic(Elems(Greedy(n, order))) && NoDuplicates(Greedy(n, order))
    decreases |order|
  {
    if order != [] {
      var k := |order| - 1;
      var e, before := order[k], order[..k];
      assert e in Elems(order);
      assert Elems(before) <= Elems(order);
      GreedyForest(n, before);
      var t := Greedy(n, before);
      if Labels(n, before)[e.a] != Labels(n, before)[e.b] {
        GreedyLabels(n, before);
        LabelsAreComponents(n, t, e.a, e.b);
        AcrossKeepsForest(n, Elems(t), e);
        ElemsAppend(t, e);
      }
    }
  }

  /** The kept edges are an acyclic subset that connects exactly what all edges connect. */
  lemma GreedySpans(n: nat, order: seq<Edge>)
    requires AllInRange(n, Elems(order))
    ensures SpanningForest(n, Elems(order), Elems(Greedy(n, order)))
  {
    GreedyForest(n, order);
    GreedyConnects(n, order);
  }

  // ---- the kept edges are of least weight ----

  ghost function Weight(es: set<Edge>): int
  {
    if es == {} then 0 else
      var e :| e in es;
      e.w + Weight(es - {e})
  }

  function Under(es: set<Edge>, w: int): set<Edge>
  {
    set e | e in es && e.w <= w
  }

  predicate SortedByWeight(order: seq<Edge>)
  {
    forall i, j :: 0 <= i < j < |order| ==> order[i].w <= order[j].w
  }

  lemma UnderWithout(es: set<Edge>, e: Edge, w: int)
    requires e in es
    ensures |Under(es, w)| == |Under(es - {e}, w)| + if e.w <= w then 1 else 0
  {
    if e.w <= w {
      assert Under(es, w) == Under(es - {e}, w) + {e};
    } else {
      assert Under(es, w) == Under(es - {e}, w);
    }
  }

  /** The sizes of the layers from `lo` up to, not including, `hi`. */
  function Layers(es: set<Edge>, lo: int, hi: int): nat
    decreases hi - lo
  {
    if hi <= lo then 0 else |Under(es, lo)| + Layers(es, lo + 1, hi)
  }

  predicate Within(es: set<Edge>, lo: int, hi: int)
  {
    forall e :: e in es ==> lo <= e.w <= hi
  }

  /** An edge is in as many layers as its weight lies below the top. */
  lemma {:induction false} LayersWithout(es: set<Edge>, e: Edge, lo: int, hi: int)
    requires e in es && e.w <= hi
    ensures Layers(es, lo, hi) == Layers(es - {e}, lo, hi) + if hi <= lo then 0 else hi - if lo <= e.w then e.w else lo
    decreases hi - lo
  {
    if lo < hi {
      UnderWithout(es, e, lo);
      LayersWithout(es, e, lo + 1, hi);
    }
  }

  /** Weight is settled by how many edges are light, at every weight. */
  lemma {:induction false} WeightByLayers(es: set<Edge>, lo: int, hi: int)
    requires Within(es, lo, hi)
    ensures Weight(es) == hi * |es| - Layers(es, lo, hi)
    decreases es
  {
    hide Layers, Under;
    if es == {} {
      NoLayers(lo, hi);
    } else {
      var e :| e in es && Weight(es) == e.w + Weight(es - {e});
      WeightByLayers(es - {e}, lo, hi);
      LayersWithout(es, e, lo, hi);
      OneMore(hi, |es - {e}|);
    }
  }

  lemma OneMore(x: int, n: nat)
    ensures x * (n + 1) == x * n + x
  {
  }

  lemma {:induction false} NoLayers(lo: int, hi: int)
    ensures Layers({}, lo, hi) == 0
    decreases hi - lo
  {
    if lo < hi {
      assert Under({}, lo) == {};
      NoLayers(lo + 1, hi);
    }
  }

  /** Every light layer of the kept edges spans that layer of the graph. */
  lemma {:induction false} LayerSpans(n: nat, order: seq<Edge>, w: int)
    requires AllInRange(n, Elems(order)) && SortedByWeight(order)
    ensures SpanningForest(n, Under(Elems(order), w), Under(Elems(Greedy(n, order)), w))
    decreases |order|
  {
    if order == [] || order[|order| - 1].w <= w {
      GreedySpans(n, order);
      assert Under(Elems(order), w) == Elems(order);
      assert Under(Elems(Greedy(n, order)), w) == Elems(Greedy(n, order));
    } else {
      var k := |order| - 1;
      var e, before := order[k], order[..k];
      assert order == before + [e];
      ElemsAppend(before, e);
      LayerSpans(n, before, w);
      assert Under(Elems(order), w) == Under(Elems(before), w);
      ElemsAppend(Greedy(n, before), e);
      assert Under(Elems(Greedy(n, order)), w) == Under(Elems(Greedy(n, before)), w);
    }
  }

  lemma LayerIsLargest(n: nat, order: seq<Edge>, f: set<Edge>, w: int)
    requires AllInRange(n, Elems(order)) && SortedByWeight(order)
    requires f <= Elems(order) && Acyclic(f)
    ensures |Under(f, w)| <= |Under(Elems(Greedy(n, order)), w)|
  {
    var layer, kept := Under(f, w), Under(Elems(Greedy(n, order)), w);
    LayerSpans(n, order, w);
    AcyclicSubset(layer, f);
    forall x, y | 0 <= x < n && 0 <= y < n && Connected(layer, x, y) ensures Connected(kept, x, y) {
      ConnectedMono(layer, Under(Elems(order), w), x, y);
    }
    ForestBound(n, layer, kept);
  }

  lemma {:induction false} LayersAreLargest(n: nat, order: seq<Edge>, f: set<Edge>, lo: int, hi: int)
    requires AllInRange(n, Elems(order)) && SortedByWeight(order)
    requires f <= Elems(order) && Acyclic(f)
    ensures Layers(f, lo, hi) <= Layers(Elems(Greedy(n, order)), lo, hi)
    decreases hi - lo
  {
    if lo < hi {
      LayerIsLargest(n, order, f, lo);
      LayersAreLargest(n, order, f, lo + 1, hi);
    }
  }

  lemma SortedWithin(order: seq<Edge>)
    requires SortedByWeight(order) && order != []
    ensures Within(Elems(order), order[0].w, order[|order| - 1].w)
  {
    forall e | e in Elems(order) ensures order[0].w <= e.w <= order[|order| - 1].w {
      var i :| 0 <= i < |order| && order[i] == e;
    }
  }

  /** No spanning forest weighs less, whatever the weights. */
  lemma GreedyIsMinimum(n: nat, order: seq<Edge>, f: set<Edge>)
    requires AllInRange(n, Elems(order)) && SortedByWeight(order)
    requires SpanningForest(n, Elems(order), f)
    ensures Weight(Elems(Greedy(n, order))) <= Weight(f)
  {
    var t := Elems(Greedy(n, order));
    GreedySpans(n, order);
    if order == [] {
      assert t == {} && f == {};
    } else {
      var lo, hi := order[0].w, order[|order| - 1].w;
      SortedWithin(order);
      WeightByLayers(t, lo, hi);
      WeightByLayers(f, lo, hi);
      LayersAreLargest(n, order, f, lo, hi);
      ForestBound(n, t, f);
      ForestBound(n, f, t);
    }
  }

  /** A tree edge heavier than w joins ends that the edges up to w do not connect. */
  lemma HeavyIsNeeded(n: nat, order: seq<Edge>, e: Edge, w: int)
    requires AllInRange(n, Elems(order)) && SortedByWeight(order) && e in Elems(Greedy(n, order)) && e.w > w
    ensures !Connected(Under(Elems(order), w), e.a, e.b)
  {
    var t := Elems(Greedy(n, order));
    LayerSpans(n, order, w);
    GreedySpans(n, order);
    assert InRange(n, e);
    if Connected(Under(t, w), e.a, e.b) {
      ConnectedMono(Under(t, w), t - {e}, e.a, e.b);
    }
  }

  // ---- which edges are kept ----

  lemma GreedyLast(n: nat, order: seq<Edge>)
    requires AllInRange(n, Elems(order)) && order != []
    ensures
      var m := |order| - 1;
      && AllInRange(n, Elems(order[..m]))
      && (Greedy(n, order) == Greedy(n, order[..m]) || Greedy(n, order) == Greedy(n, order[..m]) + [order[m]])
  {
    assert order[|order| - 1] in Elems(order) && Elems(order[..|order| - 1]) <= Elems(order);
  }

  /** Later edges change nothing about whether e is kept. */
  lemma {:induction false} LaterIgnored(n: nat, order: seq<Edge>, k: nat, e: Edge)
    requires AllInRange(n, Elems(order)) && k <= |order| && e !in order[k..]
    ensures AllInRange(n, Elems(order[..k])) && (e in Greedy(n, order) <==> e in Greedy(n, order[..k]))
    decreases |order|
  {
    hide Greedy;
    if k == |order| {
      assert order[..k] == order;
    } else {
      var m := |order| - 1;
      GreedyLast(n, order);
      assert order[..m][..k] == order[..k];
      assert order[k..] == order[..m][k..] + [order[m]];
      LaterIgnored(n, order[..m], k, e);
    }
  }

  lemma GreedyDecides(n: nat, order: seq<Edge>, k: nat)
    requires k < |order| && AllInRange(n, Elems(order[..k + 1])) && order[k] !in order[..k]
    ensures AllInRange(n, Elems(order[..k])) && InRange(n, order[k])
    ensures order[k] in Greedy(n, order[..k + 1])
            <==> Labels(n, order[..k])[order[k].a] != Labels(n, order[..k])[order[k].b]
  {
    var next := order[..k + 1];
    assert next[..k] == order[..k] && next[k] == order[k] && |next| == k + 1;
    assert order[k] in Elems(next) && Elems(order[..k]) <= Elems(next);
    assert forall x :: x in Greedy(n, order[..k]) ==> x in Elems(order[..k]);
  }

  /** An edge is kept exactly when the edges before it do not connect its ends. */
  lemma KeptIff(n: nat, order: seq<Edge>, k: nat)
    requires AllInRange(n, Elems(order)) && NoDuplicates(order) && k < |order|
    ensures order[k] in Elems(Greedy(n, order)) <==> !Connected(Elems(order[..k]), order[k].a, order[k].b)
  {
    hide Labels, Connected, Greedy;
    var e := order[k];
    assert e !in order[k + 1..] && e !in order[..k];
    LaterIgnored(n, order, k + 1, e);
    GreedyDecides(n, order, k);
    LabelsAreComponents(n, order[..k], e.a, e.b);
  }

  // ---- stopping early ----

  lemma SingleValue(lab: seq<nat>, i: nat, j: nat)
    requires |Values(lab)| == 1 && i < |lab| && j < |lab|
    ensures lab[i] == lab[j]
  {
    var v := lab[i];
    assert v in Values(lab);
    assert |Values(lab) - {v}| == 0;
    assert lab[j] in Values(lab);
  }

  lemma FullTreeConnects(n: nat, order: seq<Edge>, e: Edge)
    requires AllInRange(n, Elems(order)) && InRange(n, e) && |Greedy(n, order)| == n - 1
    ensures Labels(n, order)[e.a] == Labels(n, order)[e.b]
  {
    hide Labels, Greedy;
    GreedyForest(n, order);
    GreedyLabels(n, order);
    ForestCount(n, Greedy(n, order));
    SingleValue(Labels(n, order), e.a, e.b);
  }

  /** With n - 1 edges kept, the remaining edges cannot be kept. */
  lemma {:induction false} FullTreeStops(n: nat, order: seq<Edge>, k: nat)
    requires AllInRange(n, Elems(order)) && k <= |order|
    requires AllInRange(n, Elems(order[..k])) && |Greedy(n, order[..k])| == n - 1
    ensures Greedy(n, order) == Greedy(n, order[..k])
    decreases |order|
  {
    if k == |order| {
      assert order[..k] == order;
    } else {
      var m := |order| - 1;
      var before := order[..m];
      assert before[..k] == order[..k];
      assert order[m] in Elems(order) && Elems(before) <= Elems(order);
      FullTreeStops(n, before, k);
      FullTreeConnects(n, before, order[m]);
    }
  }
}
