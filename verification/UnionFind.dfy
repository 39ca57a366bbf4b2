/** Union by rank with path halving, over two arrays. */
module UnionFind {
  import opened Graphs

  /** Ranks are bounded and strictly increase along parent links. */
  ghost predicate Ranked(par: seq<nat>, rk: seq<nat>, top: nat)
  {
    && |par| == |rk|
    && forall x :: 0 <= x < |par| ==>
         par[x] < |par| && rk[x] <= top && (par[x] != x ==> rk[x] < rk[par[x]])
  }

  ghost function Root(par: seq<nat>, rk: seq<nat>, top: nat, x: nat): (r: nat)
    requires Ranked(par, rk, top) && x < |par|
    ensures r < |par| && par[r] == r
    ensures rk[x] <= rk[r] && (par[x] != x ==> rk[x] < rk[r])
    decreases top - rk[x]
  {
    if par[x] == x then x else Root(par, rk, top, par[x])
  }

  /** One path-halving write changes no root. */
  lemma {:induction false} HalvingKeepsRoot(par: seq<nat>, rk: seq<nat>, top: nat, x: nat, y: nat)
    requires Ranked(par, rk, top) && x < |par| && y < |par|
    ensures Ranked(par[x := par[par[x]]], rk, top)
    ensures Root(par[x := par[par[x]]], rk, top, y) == Root(par, rk, top, y)
    decreases top - rk[y]
  {
    var halved := par[x := par[par[x]]];
    assert Ranked(halved, rk, top);
    if halved[y] != y {
      HalvingKeepsRoot(par, rk, top, x, halved[y]);
    }
  }

  /** Hanging one root under another moves exactly its own tree. */
  lemma {:induction false} LinkMovesTree(par: seq<nat>, rk: seq<nat>, top: nat, rk': seq<nat>, top': nat,
                                         child: nat, root: nat, y: nat)
    requires Ranked(par, rk, top) && y < |par|
    requires child < |par| && root < |par| && child != root && par[child] == child && par[root] == root
    requires Ranked(par[child := root], rk', top')
    ensures Root(par[child := root], rk', top', y)
            == if Root(par, rk, top, y) == child then root else Root(par, rk, top, y)
    decreases top - rk[y]
  {
    if par[y] != y {
      LinkMovesTree(par, rk, top, rk', top', child, root, par[y]);
    }
  }

  /** Two labellings that tell the same vertices apart. */
  ghost predicate SamePartition(s: seq<nat>, t: seq<nat>)
  {
    |s| == |t| && forall i, j :: 0 <= i < |s| && 0 <= j < |s| ==> (s[i] == s[j] <==> t[i] == t[j])
  }

  lemma MergeKeepsPartition(s: seq<nat>, t: seq<nat>, e: Edge)
    requires SamePartition(s, t) && InRange(|s|, e)
    ensures SamePartition(Merge(s, e), Merge(t, e))
  {
    var u, v := Merge(s, e), Merge(t, e);
    forall i, j | 0 <= i < |s| && 0 <= j < |s| ensures u[i] == u[j] <==> v[i] == v[j] {
      assert s[i] == s[e.b] <==> t[i] == t[e.b];
      assert s[j] == s[e.b] <==> t[j] == t[e.b];
      assert s[i] == s[e.a] <==> t[i] == t[e.a];
      assert s[j] == s[e.a] <==> t[j] == t[e.a];
      assert s[i] == s[j] <==> t[i] == t[j];
    }
  }

  class Sets {
    const parent: array<nat>
    const rank: array<nat>
    ghost var top: nat

    ghost predicate Valid()
      reads this, parent, rank
    {
      parent != rank && parent.Length == rank.Length && Ranked(parent[..], rank[..], top)
    }

    /** The representative of every vertex. */
    ghost function Reps(): (r: seq<nat>)
      requires Valid()
      reads this, parent, rank
      ensures |r| == parent.Length
      ensures forall y :: 0 <= y < |r| ==> r[y] == Root(parent[..], rank[..], top, y)
    {
      RootsOf(parent[..], rank[..], top)
    }

    constructor (n: nat)
      ensures Valid() && fresh(parent) && fresh(rank)
      ensures parent.Length == n && forall y :: 0 <= y < n ==> Reps()[y] == y
    {
      parent := new nat[n](i => i);
      rank := new nat[n](i => 0);
      top := 0;
    }

    /** Returns the representative; halving the path on the way changes none. */
    method Find(start: nat) returns (x: nat)
      requires Valid() && start < parent.Length
      modifies parent
      ensures Valid() && Reps() == old(Reps())
      ensures x == Reps()[start] && x < parent.Length && parent[x] == x
    {
      x := start;
      ghost var reps := Reps();
      while parent[x] != x
        invariant x < parent.Length && Valid()
        invariant Reps() == reps && reps[x] == reps[start]
        decreases top - rank[x]
      {
        ghost var before := parent[..];
        parent[x] := parent[parent[x]];
        HalvingKeepsReps(before, rank[..], top, x);
        assert parent[..] == before[x := before[before[x]]];
        x := parent[x];
      }
    }

    /** Hang one root under another of at least its rank, raising the rank on a tie. */
    method Hang(child: nat, root: nat, ghost a: nat, ghost b: nat)
      requires Valid() && a < parent.Length && b < parent.Length
      requires child == Reps()[a] && root == Reps()[b] && child != root && rank[child] <= rank[root]
      modifies this, parent, rank
      ensures Valid()
      ensures SamePartition(Reps(), Merge(old(Reps()), Edge(a, b, 0)))
      ensures SamePartition(Reps(), Merge(old(Reps()), Edge(b, a, 0)))
    {
      ghost var par, rk, high := parent[..], rank[..], top;
      parent[child] := root;
      if rank[child] == rank[root] {
        rank[root] := rank[root] + 1;
        top := top + 1;
      }
      assert parent[..] == par[child := root];
      LinkReps(par, rk, high, rank[..], top, child, root, a, b);
    }

    /** Joins two classes; false when they were one already. */
    method Union(a: nat, b: nat) returns (joined: bool)
      requires Valid() && a < parent.Length && b < parent.Length
      modifies this, parent, rank
      ensures Valid()
      ensures joined == (old(Reps())[a] != old(Reps())[b])
      ensures SamePartition(Reps(), Merge(old(Reps()), Edge(a, b, 0)))
    {
      hide Ranked, RootsOf;
      var ra := Find(a);
      var rb := Find(b);
      if ra == rb {
        MergeSame(Reps(), Edge(a, b, 0));
        return false;
      }
      if rank[ra] < rank[rb] {
        Hang(ra, rb, a, b);
      } else {
        Hang(rb, ra, b, a);
      }
      return true;
    }
  }

  ghost function RootsOf(par: seq<nat>, rk: seq<nat>, top: nat): (r: seq<nat>)
    requires Ranked(par, rk, top)
    ensures |r| == |par| && forall y :: 0 <= y < |r| ==> r[y] == Root(par, rk, top, y)
  {
    seq(|par|, y requires 0 <= y < |par| => Root(par, rk, top, y))
  }

  lemma HalvingKeepsReps(par: seq<nat>, rk: seq<nat>, top: nat, x: nat)
    requires Ranked(par, rk, top) && x < |par|
    ensures Ranked(par[x := par[par[x]]], rk, top)
    ensures RootsOf(par[x := par[par[x]]], rk, top) == RootsOf(par, rk, top)
  {
    HalvingKeepsRoot(par, rk, top, x, x);
    forall y | 0 <= y < |par|
      ensures Root(par[x := par[par[x]]], rk, top, y) == Root(par, rk, top, y)
    {
      HalvingKeepsRoot(par, rk, top, x, y);
    }
  }

  lemma MergeSame(reps: seq<nat>, e: Edge)
    requires InRange(|reps|, e) && reps[e.a] == reps[e.b]
    ensures SamePartition(reps, Merge(reps, e))
  {
  }

  lemma LinkReps(par: seq<nat>, rk: seq<nat>, top: nat, rk': seq<nat>, top': nat,
                 child: nat, root: nat, a: nat, b: nat)
    requires Ranked(par, rk, top) && a < |par| && b < |par|
    requires child == Root(par, rk, top, a) && root == Root(par, rk, top, b) && child != root
    requires Ranked(par[child := root], rk', top')
    ensures SamePartition(RootsOf(par[child := root], rk', top'), Merge(RootsOf(par, rk, top), Edge(a, b, 0)))
    ensures SamePartition(RootsOf(par[child := root], rk', top'), Merge(RootsOf(par, rk, top), Edge(b, a, 0)))
  {
    var old', new' := RootsOf(par, rk, top), RootsOf(par[child := root], rk', top');
    forall y | 0 <= y < |par| ensures new'[y] == if old'[y] == child then root else old'[y] {
      LinkMovesTree(par, rk, top, rk', top', child, root, y);
    }
  }
}
