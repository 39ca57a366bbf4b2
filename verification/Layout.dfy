/** The discrete half of the topology layout: from raw links to tree depths. */
module Layout {
  import opened Graphs
  import opened Kruskal
  import opened UnionFind
  import opened Bfs
  import opened Sequences
  import opened Strings

  datatype Link = Link(from: Text, to: Text, kind: string)

  function EdgeWeight(kind: string): (w: int)
    ensures 1 <= w <= 3
  {
    if kind == "uplink" || kind == "attaches" then 1 else if kind == "monitors" then 2 else 3
  }

  // ---- node indices ----

  /** Each identifier stands for the last node that carries it. */
  ghost predicate IsIndex(ids: seq<Text>, idx: map<Text, nat>)
  {
    && (forall i :: 0 <= i < |ids| ==> ids[i] in idx)
    && (forall s :: s in idx ==> idx[s] < |ids| && ids[idx[s]] == s)
    && (forall s, j :: s in idx && idx[s] < j < |ids| ==> ids[j] != s)
  }

  method IndexNodes(ids: seq<Text>) returns (idx: map<Text, nat>)
    ensures IsIndex(ids, idx)
  {
    idx := map[];
    for i := 0 to |ids|
      invariant IsIndex(ids[..i], idx)
    {
      ghost var before := idx;
      idx := idx[ids[i] := i];
      IndexGrows(ids, i, before);
    }
    assert ids[..|ids|] == ids;
  }

  lemma IndexGrows(ids: seq<Text>, i: nat, idx: map<Text, nat>)
    requires i < |ids| && IsIndex(ids[..i], idx)
    ensures IsIndex(ids[..i + 1], idx[ids[i] := i])
  {
    var longer, more := ids[..i + 1], idx[ids[i] := i];
    forall s | s in more ensures more[s] < |longer| && longer[more[s]] == s {
      assert s in idx ==> ids[..i][idx[s]] == s;
    }
    forall k | 0 <= k < |longer| ensures longer[k] in more {
      assert k < i ==> ids[..i][k] in idx;
    }
    forall s, j | s in more && more[s] < j < |longer| ensures longer[j] != s {
      if s != ids[i] && j < i {
        assert ids[..i][j] != s;
      }
    }
  }

  // ---- deduplication ----

  type Pair = (nat, nat)

  /** The link joins this pair of different nodes. */
  predicate Joins(idx: map<Text, nat>, l: Link, k: Pair)
  {
    && l.from in idx && l.to in idx
    && var a, b := idx[l.from], idx[l.to];
       a != b && k == (if a < b then (a, b) else (b, a))
  }

  /** One entry per joined pair, with the least weight of its links. */
  ghost predicate Deduped(idx: map<Text, nat>, links: set<Link>, m: map<Pair, int>)
  {
    && (forall l, k :: l in links && Joins(idx, l, k) ==> k in m && m[k] <= EdgeWeight(l.kind))
    && (forall k :: k in m ==> exists l :: l in links && Joins(idx, l, k) && m[k] == EdgeWeight(l.kind))
  }

  lemma DedupedUnique(idx: map<Text, nat>, links: set<Link>, m: map<Pair, int>, m': map<Pair, int>)
    requires Deduped(idx, links, m) && Deduped(idx, links, m')
    ensures m == m'
  {
    forall k | k in m ensures k in m' && m'[k] <= m[k] {
      var l :| l in links && Joins(idx, l, k) && m[k] == EdgeWeight(l.kind);
    }
    forall k | k in m' ensures k in m && m[k] <= m'[k] {
      var l :| l in links && Joins(idx, l, k) && m'[k] == EdgeWeight(l.kind);
    }
  }

  lemma DedupSkips(idx: map<Text, nat>, links: set<Link>, m: map<Pair, int>, l: Link)
    requires Deduped(idx, links, m) && forall k :: !Joins(idx, l, k)
    ensures Deduped(idx, links + {l}, m)
  {
    forall k | k in m ensures exists x :: x in links + {l} && Joins(idx, x, k) && m[k] == EdgeWeight(x.kind) {
      var x :| x in links && Joins(idx, x, k) && m[k] == EdgeWeight(x.kind);
      assert x in links + {l};
    }
  }

  function Lower(m: map<Pair, int>, key: Pair, w: int): map<Pair, int>
  {
    if key !in m || w < m[key] then m[key := w] else m
  }

  lemma DedupAdds(idx: map<Text, nat>, links: set<Link>, m: map<Pair, int>, l: Link, key: Pair)
    requires Deduped(idx, links, m) && Joins(idx, l, key)
    ensures Deduped(idx, links + {l}, Lower(m, key, EdgeWeight(l.kind)))
  {
    hide EdgeWeight;
    var m' := Lower(m, key, EdgeWeight(l.kind));
    forall k | k in m' ensures exists x :: x in links + {l} && Joins(idx, x, k) && m'[k] == EdgeWeight(x.kind) {
      if k in m && m'[k] == m[k] {
        var x :| x in links && Joins(idx, x, k) && m[k] == EdgeWeight(x.kind);
        assert x in links + {l};
      } else {
        assert l in links + {l};
      }
    }
  }

  /** One entry per unordered pair of known, different nodes: the lowest weight seen. */
  method Dedup(idx: map<Text, nat>, links: seq<Link>) returns (m: map<Pair, int>)
    ensures Deduped(idx, Elems(links), m)
  {
    hide EdgeWeight;
    m := map[];
    for i := 0 to |links|
      invariant Deduped(idx, Elems(links[..i]), m)
    {
      hide Deduped;
      var e := links[i];
      ghost var seen := Elems(links[..i]);
      assert Elems(links[..i + 1]) == seen + {e};
      if e.from !in idx || e.to !in idx {
        DedupSkips(idx, seen, m, e);
        continue;
      }
      var a, b := idx[e.from], idx[e.to];
      if a == b {
        DedupSkips(idx, seen, m, e);
        continue;
      }
      var key := if a < b then (a, b) else (b, a);
      var w := EdgeWeight(e.kind);
      DedupAdds(idx, seen, m, e, key);
      if key !in m || w < m[key] {
        m := m[key := w];
      }
    }
    assert links[..|links|] == links;
  }

  // ---- ordering ----

  predicate EdgeLess(ids: seq<Text>, x: Edge, y: Edge)
    requires InRange(|ids|, x) && InRange(|ids|, y)
  {
    || x.w < y.w
    || (x.w == y.w && (|| Less(ids[x.a], ids[y.a])
                       || (ids[x.a] == ids[y.a] && Less(ids[x.b], ids[y.b]))))
  }

  function EdgesOf(m: map<Pair, int>): set<Edge>
  {
    set k | k in m :: Edge(k.0, k.1, m[k])
  }

  /** Both ends are nodes that their identifiers stand for. */
  ghost predicate Live(ids: seq<Text>, idx: map<Text, nat>, e: Edge)
  {
    InRange(|ids|, e) && ids[e.a] in idx && idx[ids[e.a]] == e.a && ids[e.b] in idx && idx[ids[e.b]] == e.b
  }

  ghost predicate Ordered(ids: seq<Text>, order: seq<Edge>)
  {
    && (forall e :: e in order ==> InRange(|ids|, e))
    && (forall i, j :: 0 <= i < j < |order| ==> EdgeLess(ids, order[i], order[j]))
  }

  lemma EdgeLessTotal(ids: seq<Text>, idx: map<Text, nat>, x: Edge, y: Edge)
    requires Live(ids, idx, x) && Live(ids, idx, y)
    ensures EdgeLess(ids, x, y) || x == y || EdgeLess(ids, y, x)
    ensures !(EdgeLess(ids, x, y) && EdgeLess(ids, y, x)) && !EdgeLess(ids, x, x)
  {
    LessTotal(ids[x.a], ids[y.a]);
    LessTotal(ids[x.b], ids[y.b]);
    LessTotal(ids[x.a], ids[x.a]);
    LessTotal(ids[x.b], ids[x.b]);
  }

  lemma EdgeLessTransitive(ids: seq<Text>, x: Edge, y: Edge, z: Edge)
    requires InRange(|ids|, x) && InRange(|ids|, y) && InRange(|ids|, z)
    requires EdgeLess(ids, x, y) && EdgeLess(ids, y, z)
    ensures EdgeLess(ids, x, z)
  {
    if Less(ids[x.a], ids[y.a]) && Less(ids[y.a], ids[z.a]) {
      LessTransitive(ids[x.a], ids[y.a], ids[z.a]);
    }
    if Less(ids[x.b], ids[y.b]) && Less(ids[y.b], ids[z.b]) {
      LessTransitive(ids[x.b], ids[y.b], ids[z.b]);
    }
  }

  lemma NoElems(q: seq<Edge>)
    ensures Elems(q) == {} ==> q == []
  {
    assert q != [] ==> q[0] in Elems(q);
  }

  /** There is only one way to order a set of edges. */
  lemma {:induction false} OrderUnique(ids: seq<Text>, idx: map<Text, nat>, p: seq<Edge>, q: seq<Edge>)
    requires Ordered(ids, p) && Ordered(ids, q) && Elems(p) == Elems(q)
    requires forall e :: e in Elems(p) ==> Live(ids, idx, e)
    ensures p == q
    decreases |p|
  {
    if p == [] {
      NoElems(q);
    } else {
      assert p[0] in Elems(q);
      var k :| 0 <= k < |q| && q[k] == p[0];
      assert q[0] in Elems(p);
      var m :| 0 <= m < |p| && p[m] == q[0];
      EdgeLessTotal(ids, idx, p[0], q[0]);
      assert p[0] == q[0];
      Behead(ids, idx, p);
      Behead(ids, idx, q);
      OrderUnique(ids, idx, p[1..], q[1..]);
      assert p == [p[0]] + p[1..] && q == [q[0]] + q[1..];
    }
  }

  lemma Behead(ids: seq<Text>, idx: map<Text, nat>, p: seq<Edge>)
    requires p != [] && Ordered(ids, p) && forall e :: e in Elems(p) ==> Live(ids, idx, e)
    ensures Ordered(ids, p[1..]) && Elems(p[1..]) == Elems(p) - {p[0]}
  {
    assert p[0] in Elems(p);
    EdgeLessTotal(ids, idx, p[0], p[0]);
    assert p == [p[0]] + p[1..];
    forall e | e in p[1..] ensures e != p[0] {
      var k :| 0 <= k < |p[1..]| && p[1..][k] == e;
      assert EdgeLess(ids, p[0], p[k + 1]);
    }
  }

  // ---- sorting ----

  /** Where the comparison puts one more edge. */
  function Insert(ids: seq<Text>, order: seq<Edge>, e: Edge): (r: seq<Edge>)
    requires InRange(|ids|, e) && forall x :: x in order ==> InRange(|ids|, x)
    ensures forall x :: x in r <==> x in order || x == e
  {
    if order == [] || EdgeLess(ids, e, order[0]) then [e] + order
    else
      assert order == [order[0]] + order[1..];
      [order[0]] + Insert(ids, order[1..], e)
  }

  lemma {:induction false} InsertOrdered(ids: seq<Text>, idx: map<Text, nat>, order: seq<Edge>, e: Edge)
    requires Ordered(ids, order) && Live(ids, idx, e) && e !in order
    requires forall x :: x in order ==> Live(ids, idx, x)
    ensures Ordered(ids, Insert(ids, order, e))
    decreases |order|
  {
    hide EdgeLess;
    if order != [] {
      var rest := order[1..];
      assert order == [order[0]] + rest;
      if EdgeLess(ids, e, order[0]) {
        forall k | 0 < k < |order| ensures EdgeLess(ids, e, order[k]) {
          EdgeLessTransitive(ids, e, order[0], order[k]);
        }
      } else {
        InsertOrdered(ids, idx, rest, e);
        EdgeLessTotal(ids, idx, order[0], e);
        var tail := Insert(ids, rest, e);
        forall k | 0 <= k < |tail| ensures EdgeLess(ids, order[0], tail[k]) {
          assert tail[k] in tail;
          if tail[k] != e {
            var j :| 0 <= j < |rest| && rest[j] == tail[k];
            assert rest[j] == order[j + 1];
          }
        }
      }
    }
  }

  lemma EdgesLive(ids: seq<Text>, idx: map<Text, nat>, links: set<Link>, m: map<Pair, int>, e: Edge)
    requires IsIndex(ids, idx) && Deduped(idx, links, m) && e in EdgesOf(m)
    ensures Live(ids, idx, e) && e.a < e.b && 1 <= e.w <= 3
  {
    var k :| k in m && e == Edge(k.0, k.1, m[k]);
    var l :| l in links && Joins(idx, l, k) && m[k] == EdgeWeight(l.kind);
  }

  /** The entries in comparison order, whatever order they are listed in. */
  method OrderEdges(ids: seq<Text>, ghost idx: map<Text, nat>, m: map<Pair, int>) returns (order: seq<Edge>)
    requires forall e :: e in EdgesOf(m) ==> Live(ids, idx, e)
    ensures Ordered(ids, order) && Elems(order) == EdgesOf(m)
  {
    order := [];
    var rest := m.Keys;
    while rest != {}
      invariant rest <= m.Keys && Ordered(ids, order)
      invariant forall e :: e in order <==> e in EdgesOf(m) && (e.a, e.b) !in rest
    {
      var k :| k in rest;
      var e := Edge(k.0, k.1, m[k]);
      assert e in EdgesOf(m) && (e.a, e.b) == k;
      InsertOrdered(ids, idx, order, e);
      order := Insert(ids, order, e);
      rest := rest - {k};
      SameEntry(m, e);
    }
  }

  lemma SameEntry(m: map<Pair, int>, e: Edge)
    requires e in EdgesOf(m)
    ensures forall x :: x in EdgesOf(m) && x.a == e.a && x.b == e.b ==> x == e
  {
  }

  // ---- the tree ----

  lemma ListsGrow(adj: seq<seq<nat>>, es: set<Edge>, e: Edge)
    requires Lists(adj, es) && InRange(|adj|, e) && e.a != e.b
    ensures
      var one := adj[e.a := adj[e.a] + [e.b]];
      Lists(one[e.b := one[e.b] + [e.a]], es + {e})
  {
    var one := adj[e.a := adj[e.a] + [e.b]];
    var two := one[e.b := one[e.b] + [e.a]];
    forall x, y | 0 <= x < |adj| && 0 <= y
      ensures Adjacent(es + {e}, x, y) <==> Adjacent(es, x, y) || Touches(e, x, y)
    {
      if Adjacent(es + {e}, x, y) {
        var f :| f in es + {e} && Touches(f, x, y);
        assert f == e || f in es;
      }
      if Adjacent(es, x, y) {
        var f :| f in es && Touches(f, x, y);
        assert f in es + {e};
      }
      if Touches(e, x, y) {
        assert e in es + {e};
      }
    }
    forall x, k | 0 <= x < |two| && 0 <= k < |two[x]|
      ensures two[x][k] < |two| && Adjacent(es + {e}, x, two[x][k])
    {
      assert k < |adj[x]| ==> two[x][k] == adj[x][k];
    }
    forall x, y | 0 <= x < |two| && 0 <= y && Adjacent(es + {e}, x, y) ensures y in two[x] {
      if Adjacent(es, x, y) {
        assert y in adj[x];
      }
    }
  }

  lemma ListsNone(adj: seq<seq<nat>>)
    requires forall x :: 0 <= x < |adj| ==> adj[x] == []
    ensures Lists(adj, {})
  {
  }

  /** Adjacency lists of all edges. */
  method Adjacency(n: nat, edges: seq<Edge>) returns (adj: seq<seq<nat>>)
    requires forall e :: e in edges ==> InRange(n, e) && e.a != e.b
    ensures |adj| == n && Lists(adj, Elems(edges))
  {
    hide Lists;
    adj := seq(n, _ => []);
    ListsNone(adj);
    assert Elems(edges[..0]) == {};
    for i := 0 to |edges|
      invariant |adj| == n && Lists(adj, Elems(edges[..i]))
    {
      var e := edges[i];
      ListsGrow(adj, Elems(edges[..i]), e);
      ElemsAppend(edges[..i], e);
      assert edges[..i + 1] == edges[..i] + [e];
      adj := adj[e.a := adj[e.a] + [e.b]];
      adj := adj[e.b := adj[e.b] + [e.a]];
    }
    assert edges[..|edges|] == edges;
  }

  lemma GreedyStep(n: nat, order: seq<Edge>, i: nat)
    requires AllInRange(n, Elems(order)) && i < |order|
    ensures AllInRange(n, Elems(order[..i])) && AllInRange(n, Elems(order[..i + 1])) && InRange(n, order[i])
    ensures Labels(n, order[..i + 1]) == Merge(Labels(n, order[..i]), order[i])
    ensures
      var lab := Labels(n, order[..i]);
      Greedy(n, order[..i + 1])
      == if lab[order[i].a] != lab[order[i].b] then Greedy(n, order[..i]) + [order[i]] else Greedy(n, order[..i])
  {
    var next := order[..i + 1];
    assert order[i] in Elems(order) && Elems(order[..i]) <= Elems(order) && Elems(next) <= Elems(order);
    assert next[..i] == order[..i] && next[i] == order[i] && |next| == i + 1;
  }

  /** The loop keeps exactly the greedy edges, also when it stops at n - 1 of them. */
  method SpanningTree(n: nat, order: seq<Edge>) returns (tree: seq<Edge>, adj: seq<seq<nat>>)
    requires 0 < n && AllInRange(n, Elems(order)) && forall e :: e in order ==> e.a != e.b
    ensures tree == Greedy(n, order)
    ensures |adj| == n && Lists(adj, Elems(tree))
  {
    hide Lists, Labels, Greedy;
    var uf := new Sets(n);
    tree, adj := [], seq(n, _ => []);
    ListsNone(adj);
    StartLabels(n, order, uf.Reps());
    var i := 0;
    while i < |order| && |tree| < n - 1
      invariant i <= |order| && uf.Valid() && uf.parent.Length == n
      invariant fresh(uf) && fresh(uf.parent) && fresh(uf.rank)
      invariant AllInRange(n, Elems(order[..i])) && tree == Greedy(n, order[..i])
      invariant SamePartition(uf.Reps(), Labels(n, order[..i]))
      invariant |tree| <= n - 1 && |adj| == n && Lists(adj, Elems(tree))
    {
      var oe := order[i];
      GreedyStep(n, order, i);
      ghost var reps, lab := uf.Reps(), Labels(n, order[..i]);
      var joined := uf.Union(oe.a, oe.b);
      PartitionStep(reps, lab, uf.Reps(), oe);
      if joined {
        ListsGrow(adj, Elems(tree), oe);
        ElemsAppend(tree, oe);
        adj := adj[oe.a := adj[oe.a] + [oe.b]];
        adj := adj[oe.b := adj[oe.b] + [oe.a]];
        tree := tree + [oe];
      }
      i := i + 1;
    }
    if i < |order| {
      FullTreeStops(n, order, i);
    } else {
      assert order[..i] == order;
    }
  }

  lemma StartLabels(n: nat, order: seq<Edge>, reps: seq<nat>)
    requires |reps| == n && forall y :: 0 <= y < n ==> reps[y] == y
    ensures order[..0] == [] && Elems<Edge>([]) == {} && Greedy(n, []) == []
    ensures SamePartition(reps, Labels(n, []))
  {
  }

  lemma PartitionStep(reps: seq<nat>, lab: seq<nat>, reps': seq<nat>, e: Edge)
    requires SamePartition(reps, lab) && InRange(|reps|, e)
    requires SamePartition(reps', Merge(reps, Edge(e.a, e.b, 0)))
    ensures SamePartition(reps', Merge(lab, e))
    ensures reps[e.a] != reps[e.b] <==> lab[e.a] != lab[e.b]
  {
    MergeKeepsPartition(reps, lab, e);
    assert Merge(reps, e) == Merge(reps, Edge(e.a, e.b, 0));
  }

  // ---- the whole computation ----

  /** The order the tree is built in, as the links determine it. */
  ghost predicate Arranged(ids: seq<Text>, links: set<Link>, order: seq<Edge>)
  {
    exists idx, m :: IsIndex(ids, idx) && Deduped(idx, links, m) && Ordered(ids, order) && Elems(order) == EdgesOf(m)
  }

  lemma IndexUnique(ids: seq<Text>, idx: map<Text, nat>, idx': map<Text, nat>)
    requires IsIndex(ids, idx) && IsIndex(ids, idx')
    ensures idx == idx'
  {
    forall s | s in idx ensures s in idx' && idx[s] == idx'[s] {
      assert ids[idx[s]] in idx';
    }
    forall s | s in idx' ensures s in idx {
      assert ids[idx'[s]] in idx;
    }
  }

  /** The order depends only on the set of links. */
  lemma ArrangedUnique(ids: seq<Text>, links: set<Link>, order: seq<Edge>, order': seq<Edge>)
    requires Arranged(ids, links, order) && Arranged(ids, links, order')
    ensures order == order'
  {
    hide IsIndex, Deduped, Ordered;
    var idx, m :| IsIndex(ids, idx) && Deduped(idx, links, m) && Ordered(ids, order) && Elems(order) == EdgesOf(m);
    var idx', m' :| IsIndex(ids, idx') && Deduped(idx', links, m') && Ordered(ids, order') && Elems(order') == EdgesOf(m');
    IndexUnique(ids, idx, idx');
    DedupedUnique(idx, links, m, m');
    forall e | e in Elems(order) ensures Live(ids, idx, e) {
      EdgesLive(ids, idx, links, m, e);
    }
    OrderUnique(ids, idx, order, order');
  }

  lemma ArrangedEdges(ids: seq<Text>, links: set<Link>, order: seq<Edge>)
    requires Arranged(ids, links, order)
    ensures AllInRange(|ids|, Elems(order)) && SortedByWeight(order)
    ensures forall e :: e in order ==> e.a != e.b
  {
    var idx, m :| IsIndex(ids, idx) && Deduped(idx, links, m) && Ordered(ids, order) && Elems(order) == EdgesOf(m);
    forall e | e in Elems(order) ensures InRange(|ids|, e) && e.a != e.b {
      EdgesLive(ids, idx, links, m, e);
    }
    assert forall e :: e in order ==> e in Elems(order);
  }

  /** The tree edges are a minimum spanning forest of the deduplicated links. */
  lemma LayoutTreeIsMinimum(ids: seq<Text>, links: set<Link>, order: seq<Edge>, f: set<Edge>)
    requires Arranged(ids, links, order) && AllInRange(|ids|, Elems(order))
    requires SpanningForest(|ids|, Elems(order), f)
    ensures SpanningForest(|ids|, Elems(order), Elems(Greedy(|ids|, order)))
    ensures Weight(Elems(Greedy(|ids|, order))) <= Weight(f)
  {
    ArrangedEdges(ids, links, order);
    GreedySpans(|ids|, order);
    GreedyIsMinimum(|ids|, order, f);
  }

  // ---- which links the tree follows ----

  /** Some link joins the two nodes. */
  ghost predicate Linked(idx: map<Text, nat>, links: set<Link>, x: nat, y: nat)
  {
    exists l :: l in links && (Joins(idx, l, (x, y)) || Joins(idx, l, (y, x)))
  }

  /** A way from x to y along links. */
  ghost predicate Route(idx: map<Text, nat>, links: set<Link>, p: seq<nat>, x: nat, y: nat)
  {
    |p| > 0 && p[0] == x && p[|p| - 1] == y && forall i :: 0 < i < |p| ==> Linked(idx, links, p[i - 1], p[i])
  }

  /** Lower weight first, then the ids of the two ends in order. */
  ghost predicate Earlier(ids: seq<Text>, f: Edge, e: Edge)
    requires InRange(|ids|, f) && InRange(|ids|, e)
  {
    || f.w < e.w
    || (f.w == e.w && Precedes(ids[f.a], ids[e.a]))
    || (f.w == e.w && ids[f.a] == ids[e.a] && Precedes(ids[f.b], ids[e.b]))
  }

  lemma EarlierIsLess(ids: seq<Text>, f: Edge, e: Edge)
    requires InRange(|ids|, f) && InRange(|ids|, e)
    ensures Earlier(ids, f, e) <==> EdgeLess(ids, f, e)
  {
    hide Precedes, Less;
    LessIsPrecedes(ids[f.a], ids[e.a]);
    LessIsPrecedes(ids[f.b], ids[e.b]);
  }

  ghost function EarlierThan(ids: seq<Text>, es: set<Edge>, e: Edge): set<Edge>
    requires AllInRange(|ids|, es) && InRange(|ids|, e)
  {
    set f | f in es && Earlier(ids, f, e)
  }

  lemma BeforeIsEarlier(ids: seq<Text>, idx: map<Text, nat>, order: seq<Edge>, k: nat)
    requires Ordered(ids, order) && k < |order| && AllInRange(|ids|, Elems(order))
    requires forall e :: e in Elems(order) ==> Live(ids, idx, e)
    ensures InRange(|ids|, order[k]) && Elems(order[..k]) == EarlierThan(ids, Elems(order), order[k])
  {
    hide EdgeLess, Earlier;
    var e := order[k];
    assert e in Elems(order);
    forall j | 0 <= j < |order| ensures Earlier(ids, order[j], e) <==> j < k {
      assert order[j] in Elems(order);
      EarlierIsLess(ids, order[j], e);
      EdgeLessTotal(ids, idx, order[j], e);
      if j > k {
        assert EdgeLess(ids, e, order[j]);
      }
    }
    forall f | f in EarlierThan(ids, Elems(order), e) ensures f in Elems(order[..k]) {
      var j :| 0 <= j < |order| && order[j] == f;
      assert order[..k][j] == f;
    }
  }

  lemma OrderedDistinct(ids: seq<Text>, idx: map<Text, nat>, order: seq<Edge>)
    requires Ordered(ids, order) && forall e :: e in Elems(order) ==> Live(ids, idx, e)
    ensures NoDuplicates(order)
  {
    hide EdgeLess;
    forall i, j | 0 <= i < j < |order| ensures order[i] != order[j] {
      assert order[i] in Elems(order);
      EdgeLessTotal(ids, idx, order[i], order[i]);
      assert EdgeLess(ids, order[i], order[j]);
    }
  }

  /**
   The tree, edge by edge: a deduplicated link is in it exactly when the lighter ones, and those of
   its weight that come first by id, do not connect its ends.
   */
  lemma TreeEdgeIff(ids: seq<Text>, links: set<Link>, order: seq<Edge>, e: Edge)
    requires Arranged(ids, links, order) && AllInRange(|ids|, Elems(order)) && e in Elems(order)
    ensures InRange(|ids|, e)
    ensures e in Elems(Greedy(|ids|, order)) <==> !Connected(EarlierThan(ids, Elems(order), e), e.a, e.b)
  {
    hide IsIndex, Deduped, Greedy, Connected, EarlierThan, Live;
    var idx, m :| IsIndex(ids, idx) && Deduped(idx, links, m) && Ordered(ids, order) && Elems(order) == EdgesOf(m);
    forall x | x in Elems(order) ensures Live(ids, idx, x) {
      EdgesLive(ids, idx, links, m, x);
    }
    var k :| 0 <= k < |order| && order[k] == e;
    OrderedDistinct(ids, idx, order);
    BeforeIsEarlier(ids, idx, order, k);
    KeptIff(|ids|, order, k);
  }

  function Of(links: set<Link>, kinds: set<string>): set<Link>
  {
    set l | l in links && l.kind in kinds
  }

  /** The physical links, and those together with the monitoring ones. */
  predicate Preferred(kinds: set<string>)
  {
    kinds == {"uplink", "attaches"} || kinds == {"uplink", "attaches", "monitors"}
  }

  lemma LightKinds(kinds: set<string>) returns (w: int)
    requires Preferred(kinds)
    ensures forall k :: k in kinds <==> EdgeWeight(k) <= w
  {
    w := if "monitors" in kinds then 2 else 1;
  }

  lemma LightLinkIsEdge(idx: map<Text, nat>, links: set<Link>, m: map<Pair, int>, kinds: set<string>, w: int, x: nat, y: nat)
    requires Deduped(idx, links, m) && (forall k :: k in kinds <==> EdgeWeight(k) <= w)
    requires Linked(idx, Of(links, kinds), x, y)
    ensures Adjacent(Under(EdgesOf(m), w), x, y)
  {
    hide EdgeWeight;
    var l :| l in Of(links, kinds) && (Joins(idx, l, (x, y)) || Joins(idx, l, (y, x)));
    var k := if Joins(idx, l, (x, y)) then (x, y) else (y, x);
    assert Joins(idx, l, k) && l in links;
    var e := Edge(k.0, k.1, m[k]);
    assert e in EdgesOf(m) && Touches(e, x, y);
  }

  lemma LightRouteIsWalk(idx: map<Text, nat>, links: set<Link>, m: map<Pair, int>, kinds: set<string>, w: int,
                         p: seq<nat>, x: nat, y: nat)
    requires Deduped(idx, links, m) && (forall k :: k in kinds <==> EdgeWeight(k) <= w)
    requires Route(idx, Of(links, kinds), p, x, y)
    ensures Connected(Under(EdgesOf(m), w), x, y)
  {
    hide Deduped, Linked, Adjacent, EdgesOf, Of, EdgeWeight, Under;
    forall i | 0 < i < |p| ensures Adjacent(Under(EdgesOf(m), w), p[i - 1], p[i]) {
      LightLinkIsEdge(idx, links, m, kinds, w, p[i - 1], p[i]);
    }
    assert WalkFrom(Under(EdgesOf(m), w), p, x, y);
  }

  lemma UnlinkedIsHeavy(idx: map<Text, nat>, links: set<Link>, m: map<Pair, int>, kinds: set<string>, w: int, e: Edge)
    requires Deduped(idx, links, m) && (forall k :: k in kinds <==> EdgeWeight(k) <= w)
    requires e in EdgesOf(m) && !Linked(idx, Of(links, kinds), e.a, e.b)
    ensures e.w > w
  {
    hide EdgeWeight;
    var k :| k in m && e == Edge(k.0, k.1, m[k]);
    var l :| l in links && Joins(idx, l, k) && m[k] == EdgeWeight(l.kind);
    if l.kind in kinds {
      assert l in Of(links, kinds);
    }
  }

  /**
   Physical links first: where the tree joins two nodes that no uplink or attaches link joins, no
   route of such links connects them; and the same with monitors links added.
   */
  lemma PhysicalLinksFirst(ids: seq<Text>, idx: map<Text, nat>, links: set<Link>, order: seq<Edge>, e: Edge,
                           kinds: set<string>)
    requires IsIndex(ids, idx) && Arranged(ids, links, order) && AllInRange(|ids|, Elems(order))
    requires e in Elems(Greedy(|ids|, order)) && Preferred(kinds) && !Linked(idx, Of(links, kinds), e.a, e.b)
    ensures !exists p :: Route(idx, Of(links, kinds), p, e.a, e.b)
  {
    hide IsIndex, Deduped, Ordered, Linked, Route, Of, EdgeWeight, Preferred, Greedy, Connected, Under, EdgesOf;
    var idx', m :| IsIndex(ids, idx') && Deduped(idx', links, m) && Ordered(ids, order) && Elems(order) == EdgesOf(m);
    IndexUnique(ids, idx, idx');
    ArrangedEdges(ids, links, order);
    var w := LightKinds(kinds);
    assert e in Elems(order);
    UnlinkedIsHeavy(idx, links, m, kinds, w, e);
    HeavyIsNeeded(|ids|, order, e, w);
    forall p | Route(idx, Of(links, kinds), p, e.a, e.b) ensures false {
      LightRouteIsWalk(idx, links, m, kinds, w, p, e.a, e.b);
    }
  }

  /** What the computed depths mean. */
  ghost predicate Answer(ids: seq<Text>, links: set<Link>, root: nat, depth: seq<int>)
  {
    |depth| == |ids| && exists order :: IsAnswer(ids, links, order, root, depth)
  }

  ghost predicate IsAnswer(ids: seq<Text>, links: set<Link>, order: seq<Edge>, root: nat, depth: seq<int>)
  {
    && Arranged(ids, links, order) && AllInRange(|ids|, Elems(order)) && |depth| == |ids|
    && forall v :: 0 <= v < |ids| ==> IsDepth(Elems(Greedy(|ids|, order)), root, v, depth[v])
  }

  /** Depths do not depend on the order or the duplication of the link list. */
  lemma AnswerUnique(ids: seq<Text>, links: seq<Link>, links': seq<Link>, root: nat, depth: seq<int>, depth': seq<int>)
    requires Elems(links) == Elems(links')
    requires Answer(ids, Elems(links), root, depth) && Answer(ids, Elems(links'), root, depth')
    ensures depth == depth'
  {
    hide IsDepth, Arranged, Greedy;
    var order :| IsAnswer(ids, Elems(links), order, root, depth);
    var order' :| IsAnswer(ids, Elems(links), order', root, depth');
    ArrangedUnique(ids, Elems(links), order, order');
    forall v | 0 <= v < |ids| ensures depth[v] == depth'[v] {
      DepthUnique(Elems(Greedy(|ids|, order)), root, v, depth[v], depth'[v]);
    }
  }

  lemma LinkedIffAdjacent(idx: map<Text, nat>, links: set<Link>, m: map<Pair, int>, es: set<Edge>, x: nat, y: nat)
    requires Deduped(idx, links, m) && es == EdgesOf(m)
    ensures Linked(idx, links, x, y) <==> Adjacent(es, x, y)
  {
    hide EdgeWeight;
    if Linked(idx, links, x, y) {
      var l :| l in links && (Joins(idx, l, (x, y)) || Joins(idx, l, (y, x)));
      var k := if Joins(idx, l, (x, y)) then (x, y) else (y, x);
      assert Joins(idx, l, k);
      assert Edge(k.0, k.1, m[k]) in es && Touches(Edge(k.0, k.1, m[k]), x, y);
    }
    if Adjacent(es, x, y) {
      var e :| e in es && Touches(e, x, y);
      var k :| k in m && e == Edge(k.0, k.1, m[k]);
      var l :| l in links && Joins(idx, l, k) && m[k] == EdgeWeight(l.kind);
    }
  }

  lemma RouteIffWalk(idx: map<Text, nat>, links: set<Link>, m: map<Pair, int>, es: set<Edge>, p: seq<nat>, x: nat, y: nat)
    requires Deduped(idx, links, m) && es == EdgesOf(m)
    ensures Route(idx, links, p, x, y) <==> WalkFrom(es, p, x, y)
  {
    hide Deduped, Linked, Adjacent, EdgesOf;
    forall i | 0 < i < |p| ensures Linked(idx, links, p[i - 1], p[i]) <==> Adjacent(es, p[i - 1], p[i]) {
      LinkedIffAdjacent(idx, links, m, es, p[i - 1], p[i]);
    }
  }

  lemma RoutesConnect(ids: seq<Text>, idx: map<Text, nat>, links: set<Link>, order: seq<Edge>, x: nat, y: nat)
    requires IsIndex(ids, idx) && Arranged(ids, links, order)
    ensures (exists p :: Route(idx, links, p, x, y)) <==> Connected(Elems(order), x, y)
  {
    hide IsIndex, Deduped, Ordered, Route, WalkFrom, EdgesOf;
    var idx', m :| IsIndex(ids, idx') && Deduped(idx', links, m) && Ordered(ids, order) && Elems(order) == EdgesOf(m);
    IndexUnique(ids, idx, idx');
    forall p ensures Route(idx, links, p, x, y) <==> WalkFrom(Elems(order), p, x, y) {
      RouteIffWalk(idx, links, m, Elems(order), p, x, y);
    }
  }

  /** A node gets depth -1 exactly when no way along the links leads to it from the root. */
  lemma DisconnectedIsMinusOne(ids: seq<Text>, idx: map<Text, nat>, links: set<Link>, root: nat, depth: seq<int>, v: nat)
    requires IsIndex(ids, idx) && Answer(ids, links, root, depth) && root < |ids| && v < |ids|
    ensures depth[v] == -1 <==> !exists p :: Route(idx, links, p, root, v)
  {
    hide IsIndex, Arranged, Greedy, Route;
    var order :| IsAnswer(ids, links, order, root, depth);
    GreedySpans(|ids|, order);
    RoutesConnect(ids, idx, links, order, root, v);
    var t := Elems(Greedy(|ids|, order));
    assert depth[v] >= 0 ==> Connected(t, root, v);
  }

  lemma {:induction false} FirstEdgeIsKept(n: nat, order: seq<Edge>)
    requires AllInRange(n, Elems(order)) && order != [] && order[0].a != order[0].b
    ensures Greedy(n, order) != []
    decreases |order|
  {
    var k := |order| - 1;
    assert order[k] in Elems(order) && Elems(order[..k]) <= Elems(order);
    if k > 0 {
      FirstEdgeIsKept(n, order[..k]);
    }
  }

  /** Raw links to depths, with the full-graph fallback. */
  method ComputeDepths(ids: seq<Text>, links: seq<Link>, root: nat) returns (depth: array<int>)
    requires root < |ids|
    ensures fresh(depth) && Answer(ids, Elems(links), root, depth[..])
  {
    hide IsIndex, Deduped, Ordered, Lists, IsDepth, Greedy;
    var n := |ids|;
    var idx := IndexNodes(ids);
    var m := Dedup(idx, links);
    forall e | e in EdgesOf(m) ensures Live(ids, idx, e) {
      EdgesLive(ids, idx, Elems(links), m, e);
    }
    var order := OrderEdges(ids, idx, m);
    assert Arranged(ids, Elems(links), order);
    ArrangedEdges(ids, Elems(links), order);
    var full := Adjacency(n, order);
    var tree, adj := SpanningTree(n, order);
    depth := Depths(Elems(tree), adj, root);
    if |tree| == 0 {
      NoTreeNoEdges(n, order);
      depth := Depths(Elems(order), full, root);
    }
    assert IsAnswer(ids, Elems(links), order, root, depth[..]);
  }

  /** With no tree edge there is no edge at all, so the fallback searches the same graph. */
  lemma NoTreeNoEdges(n: nat, order: seq<Edge>)
    requires AllInRange(n, Elems(order)) && (forall e :: e in order ==> e.a != e.b) && Greedy(n, order) == []
    ensures order == []
  {
    if order != [] {
      FirstEdgeIsKept(n, order);
    }
  }
}
