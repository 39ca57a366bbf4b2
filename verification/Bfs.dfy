/** Breadth-first depths over adjacency lists. */
module Bfs {
  import opened Graphs
  import opened Sequences

  /** Adjacency lists of a graph. */
  ghost predicate Lists(adj: seq<seq<nat>>, es: set<Edge>)
  {
    && (forall x, k :: 0 <= x < |adj| && 0 <= k < |adj[x]| ==> adj[x][k] < |adj| && Adjacent(es, x, adj[x][k]))
    && (forall x, y :: 0 <= x < |adj| && 0 <= y && Adjacent(es, x, y) ==> y in adj[x])
  }

  ghost predicate HasWalk(es: set<Edge>, x: nat, y: nat, d: nat)
  {
    exists p :: WalkFrom(es, p, x, y) && |p| == d + 1
  }

  /** d is the distance from the root, or -1 when there is no walk at all. */
  ghost predicate IsDepth(es: set<Edge>, root: nat, v: nat, d: int)
  {
    if d == -1 then !Connected(es, root, v)
    else d >= 0 && HasWalk(es, root, v, d) && forall s: nat :: s < d ==> !HasWalk(es, root, v, s)
  }

  lemma DepthUnique(es: set<Edge>, root: nat, v: nat, d: int, e: int)
    requires IsDepth(es, root, v, d) && IsDepth(es, root, v, e)
    ensures d == e
  {
    assert d >= 0 ==> Connected(es, root, v);
    assert e >= 0 ==> Connected(es, root, v);
  }

  lemma StepWalk(es: set<Edge>, root: nat, x: nat, y: nat, d: nat)
    requires HasWalk(es, root, x, d) && Adjacent(es, x, y)
    ensures HasWalk(es, root, y, d + 1)
  {
    var p :| WalkFrom(es, p, root, x) && |p| == d + 1;
    var q := p + [y];
    forall i | 0 < i < |q| ensures Adjacent(es, q[i - 1], q[i]) {
      assert i < |p| ==> Adjacent(es, p[i - 1], p[i]);
    }
    assert WalkFrom(es, q, root, y);
  }

  /** Discovered vertices are closed under adjacency, and depths grow by at most one along an edge. */
  ghost predicate Settled(es: set<Edge>, depth: seq<int>)
  {
    forall x, y :: 0 <= x < |depth| && 0 <= y < |depth| && depth[x] >= 0 && Adjacent(es, x, y)
      ==> 0 <= depth[y] <= depth[x] + 1
  }

  lemma {:induction false} WalkBoundsDepth(es: set<Edge>, depth: seq<int>, p: seq<nat>)
    requires AllInRange(|depth|, es) && Settled(es, depth)
    requires Walk(es, p) && p[0] < |depth| && depth[p[0]] == 0
    ensures p[|p| - 1] < |depth| && 0 <= depth[p[|p| - 1]] < |p|
    decreases |p|
  {
    if |p| > 1 {
      var n := |p| - 1;
      assert Walk(es, p[..n]);
      WalkBoundsDepth(es, depth, p[..n]);
      assert Adjacent(es, p[n - 1], p[n]);
    }
  }

  lemma SettledIsDepth(es: set<Edge>, root: nat, depth: seq<int>, v: nat)
    requires AllInRange(|depth|, es) && root < |depth| && v < |depth|
    requires depth[root] == 0 && depth[v] >= -1 && Settled(es, depth)
    requires depth[v] >= 0 ==> HasWalk(es, root, v, depth[v])
    ensures IsDepth(es, root, v, depth[v])
  {
    if depth[v] == -1 {
      if Connected(es, root, v) {
        var p :| WalkFrom(es, p, root, v);
        WalkBoundsDepth(es, depth, p);
      }
    } else {
      forall s: nat | s < depth[v] ensures !HasWalk(es, root, v, s) {
        if HasWalk(es, root, v, s) {
          var p :| WalkFrom(es, p, root, v) && |p| == s + 1;
          WalkBoundsDepth(es, depth, p);
        }
      }
    }
  }

  // ---- the queue ----

  /** Everything discovered is queued once, in order of depth, and reached by a walk of its depth. */
  ghost predicate Queued(es: set<Edge>, root: nat, depth: seq<int>, queue: seq<nat>)
  {
    && (forall v :: 0 <= v < |depth| ==> depth[v] >= -1 && (depth[v] >= 0 <==> v in queue))
    && (forall k :: 0 <= k < |queue| ==> queue[k] < |depth| && HasWalk(es, root, queue[k], depth[queue[k]]))
    && (forall j, k :: 0 <= j < k < |queue| ==> queue[j] != queue[k] && depth[queue[j]] <= depth[queue[k]])
  }

  /** Every neighbour of a processed vertex is discovered, at most one deeper. */
  ghost predicate Processed(es: set<Edge>, depth: seq<int>, queue: seq<nat>, head: nat)
  {
    forall k, y :: 0 <= k < head && k < |queue| && queue[k] < |depth| && 0 <= y < |depth| && Adjacent(es, queue[k], y)
      ==> 0 <= depth[y] <= depth[queue[k]] + 1
  }

  /** The queue spans at most two depths. */
  ghost predicate Banded(depth: seq<int>, queue: seq<nat>, low: int)
  {
    forall k :: 0 <= k < |queue| && queue[k] < |depth| ==> depth[queue[k]] <= low + 1
  }

  lemma DiscoverQueued(es: set<Edge>, root: nat, depth: seq<int>, queue: seq<nat>, cur: nat, y: nat)
    requires Queued(es, root, depth, queue)
    requires cur < |depth| && depth[cur] >= 0 && Banded(depth, queue, depth[cur])
    requires y < |depth| && depth[y] == -1 && Adjacent(es, cur, y)
    ensures Queued(es, root, depth[y := depth[cur] + 1], queue + [y])
  {
    hide HasWalk, Adjacent;
    assert cur in queue && y !in queue;
    StepWalk(es, root, cur, y, depth[cur]);
    var d, q := depth[y := depth[cur] + 1], queue + [y];
    assert forall k :: 0 <= k < |queue| ==> q[k] == queue[k] && d[q[k]] == depth[queue[k]];
  }

  lemma DiscoverProcessed(es: set<Edge>, depth: seq<int>, queue: seq<nat>, head: nat, y: nat, dy: int)
    requires Processed(es, depth, queue, head) && head <= |queue|
    requires y < |depth| && depth[y] == -1 && y !in queue && 0 <= dy
    ensures Processed(es, depth[y := dy], queue + [y], head)
  {
    hide Adjacent;
    var d, q := depth[y := dy], queue + [y];
    forall k, z | 0 <= k < head && k < |q| && q[k] < |d| && 0 <= z < |d| && Adjacent(es, q[k], z)
      ensures 0 <= d[z] <= d[q[k]] + 1
    {
      assert q[k] == queue[k] != y;
      assert 0 <= depth[z] <= depth[queue[k]] + 1;
    }
  }

  lemma DiscoverBanded(depth: seq<int>, queue: seq<nat>, low: int, y: nat)
    requires Banded(depth, queue, low) && y < |depth| && y !in queue
    ensures Banded(depth[y := low + 1], queue + [y], low)
  {
    var q := queue + [y];
    assert forall k :: 0 <= k < |queue| ==> q[k] == queue[k] != y;
  }

  /** The state of the search while a vertex of depth `low` is being processed. */
  ghost predicate Searching(es: set<Edge>, root: nat, depth: seq<int>, queue: seq<nat>, head: nat, low: int)
  {
    && head <= |queue| && 0 <= low
    && Queued(es, root, depth, queue) && Processed(es, depth, queue, head) && Banded(depth, queue, low)
  }

  lemma Discover(es: set<Edge>, root: nat, depth: seq<int>, queue: seq<nat>, head: nat, cur: nat, y: nat)
    requires cur < |depth| && Searching(es, root, depth, queue, head, depth[cur])
    requires y < |depth| && depth[y] == -1 && Adjacent(es, cur, y)
    ensures Searching(es, root, depth[y := depth[cur] + 1], queue + [y], head, depth[cur])
  {
    assert y !in queue;
    DiscoverQueued(es, root, depth, queue, cur, y);
    DiscoverProcessed(es, depth, queue, head, y, depth[cur] + 1);
    DiscoverBanded(depth, queue, depth[cur], y);
  }

  lemma SeenIsNear(es: set<Edge>, root: nat, depth: seq<int>, queue: seq<nat>, head: nat, low: int, y: nat)
    requires Searching(es, root, depth, queue, head, low) && y < |depth| && depth[y] != -1
    ensures 0 <= depth[y] <= low + 1
  {
    hide HasWalk, Adjacent;
    assert y in queue;
  }

  /** The scan of one adjacency list. */
  method Visit(ghost es: set<Edge>, ghost root: nat, nbrs: seq<nat>, cur: nat, depth: array<int>, queue: seq<nat>,
               ghost head: nat)
    returns (q: seq<nat>)
    requires cur < depth.Length && Searching(es, root, depth[..], queue, head, depth[cur])
    requires root < depth.Length && depth[root] == 0
    requires forall k :: 0 <= k < |nbrs| ==> nbrs[k] < depth.Length && Adjacent(es, cur, nbrs[k])
    modifies depth
    ensures queue <= q && depth[cur] == old(depth[cur]) && depth[root] == 0
    ensures Searching(es, root, depth[..], q, head, depth[cur])
    ensures forall k :: 0 <= k < |nbrs| ==> 0 <= depth[nbrs[k]] <= depth[cur] + 1
  {
    hide Searching, Adjacent;
    q := queue;
    LowIsNatural(es, root, depth[..], q, head, depth[cur]);
    for t := 0 to |nbrs|
      invariant queue <= q && depth[cur] == old(depth[cur]) && depth[root] == 0
      invariant Searching(es, root, depth[..], q, head, depth[cur])
      invariant forall k :: 0 <= k < t ==> 0 <= depth[nbrs[k]] <= depth[cur] + 1
    {
      var nb := nbrs[t];
      ghost var before := depth[..];
      if depth[nb] == -1 {
        Discover(es, root, before, q, head, cur, nb);
        depth[nb] := depth[cur] + 1;
        assert depth[..] == before[nb := before[cur] + 1];
        q := q + [nb];
      } else {
        SeenIsNear(es, root, before, q, head, depth[cur], nb);
      }
    }
  }

  lemma LowIsNatural(es: set<Edge>, root: nat, depth: seq<int>, queue: seq<nat>, head: nat, low: int)
    requires Searching(es, root, depth, queue, head, low)
    ensures 0 <= low
  {
  }

  lemma VisitedIsProcessed(es: set<Edge>, depth: seq<int>, queue: seq<nat>, head: nat, nbrs: seq<nat>)
    requires Processed(es, depth, queue, head) && head < |queue| && queue[head] < |depth|
    requires forall y :: 0 <= y < |depth| && Adjacent(es, queue[head], y) ==> y in nbrs
    requires forall k :: 0 <= k < |nbrs| ==> nbrs[k] < |depth| && 0 <= depth[nbrs[k]] <= depth[queue[head]] + 1
    ensures Processed(es, depth, queue, head + 1)
  {
    hide Adjacent;
  }

  /** Moving on to the next queued vertex. */
  lemma Advance(es: set<Edge>, root: nat, depth: seq<int>, queue: seq<nat>, head: nat, nbrs: seq<nat>)
    requires head < |queue| && queue[head] < |depth|
    requires Searching(es, root, depth, queue, head, depth[queue[head]])
    requires forall y :: 0 <= y < |depth| && Adjacent(es, queue[head], y) ==> y in nbrs
    requires forall k :: 0 <= k < |nbrs| ==> nbrs[k] < |depth| && 0 <= depth[nbrs[k]] <= depth[queue[head]] + 1
    ensures Search(es, root, depth, queue, head + 1)
  {
    VisitedIsProcessed(es, depth, queue, head, nbrs);
    if head + 1 < |queue| {
      assert depth[queue[head]] <= depth[queue[head + 1]];
    }
  }

  /** Between two turns of the outer loop. */
  ghost predicate Search(es: set<Edge>, root: nat, depth: seq<int>, queue: seq<nat>, head: nat)
  {
    && head <= |queue| && Below(queue, |depth|)
    && Queued(es, root, depth, queue) && Processed(es, depth, queue, head)
    && (head < |queue| ==> Banded(depth, queue, depth[queue[head]]))
  }

  lemma Begin(es: set<Edge>, root: nat, depth: seq<int>, queue: seq<nat>, head: nat)
    requires Search(es, root, depth, queue, head)
    ensures |queue| <= |depth| && Below(queue, |depth|)
    ensures head < |queue| ==> Searching(es, root, depth, queue, head, depth[queue[head]])
  {
    Pigeonhole(queue, |depth|);
    if head < |queue| {
      assert queue[head] in queue;
    }
  }

  lemma Start(es: set<Edge>, root: nat, depth: seq<int>)
    requires root < |depth| && depth[root] == 0
    requires forall v :: 0 <= v < |depth| && v != root ==> depth[v] == -1
    ensures Search(es, root, depth, [root], 0)
  {
    assert WalkFrom(es, [root], root, root);
    assert HasWalk(es, root, root, 0);
  }

  /** The search: every depth is the distance from the root, and -1 exactly where no walk leads. */
  method Depths(ghost es: set<Edge>, adj: seq<seq<nat>>, root: nat) returns (depth: array<int>)
    requires root < |adj| && AllInRange(|adj|, es) && Lists(adj, es)
    ensures depth.Length == |adj| && fresh(depth)
    ensures forall v :: 0 <= v < |adj| ==> IsDepth(es, root, v, depth[v])
  {
    hide Search, Searching, Adjacent, IsDepth;
    var n := |adj|;
    depth := new int[n](_ => -1);
    var queue := [root];
    depth[root] := 0;
    var head := 0;
    Start(es, root, depth[..]);
    while head < |queue|
      invariant depth[root] == 0 && Search(es, root, depth[..], queue, head)
      invariant head <= n
      decreases n - head
    {
      Begin(es, root, depth[..], queue, head);
      var cur := queue[head];
      queue := Visit(es, root, adj[cur], cur, depth, queue, head);
      Advance(es, root, depth[..], queue, head, adj[cur]);
      head := head + 1;
    }
    Conclude(es, root, depth[..], queue, head);
  }

  lemma Conclude(es: set<Edge>, root: nat, depth: seq<int>, queue: seq<nat>, head: nat)
    requires root < |depth| && AllInRange(|depth|, es) && depth[root] == 0
    requires Search(es, root, depth, queue, head) && head >= |queue|
    ensures forall v :: 0 <= v < |depth| ==> IsDepth(es, root, v, depth[v])
  {
    hide HasWalk, Adjacent, IsDepth;
    forall x, y | 0 <= x < |depth| && 0 <= y < |depth| && depth[x] >= 0 && Adjacent(es, x, y)
      ensures 0 <= depth[y] <= depth[x] + 1
    {
      var k :| 0 <= k < |queue| && queue[k] == x;
    }
    forall v | 0 <= v < |depth| ensures IsDepth(es, root, v, depth[v]) {
      if depth[v] >= 0 {
        var k :| 0 <= k < |queue| && queue[k] == v;
      }
      SettledIsDepth(es, root, depth, v);
    }
  }
}
