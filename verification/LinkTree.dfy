/**
 The link tree screen: arbitrary parent pointers, cycles included, become a forest laid out in
 preorder on the panel.
 */
module LinkTree {

  import opened Division
  import opened Options
  import opened PanelSize
  import opened Sequences

  /** Each node's stated parent, if any. */
  type Parents = seq<Option<nat>>

  predicate HasParent(a: Parents, i: nat)
    requires i < |a|
  {
    a[i].Some? && a[i].value < |a|
  }

  /** Following parents from i ends, at a node without one, after exactly d steps. */
  ghost predicate Ends(a: Parents, i: nat, d: nat)
    requires i < |a|
    decreases d
  {
    if d == 0 then !HasParent(a, i) else HasParent(a, i) && Ends(a, a[i].value, d - 1)
  }

  ghost predicate Rooted(a: Parents, i: nat)
    requires i < |a|
  {
    exists d: nat :: Ends(a, i, d)
  }

  /** The k-th ancestor, when there is one. */
  function Up(a: Parents, i: nat, k: nat): (u: Option<nat>)
    requires i < |a|
    ensures u.Some? ==> u.value < |a|
    decreases k
  {
    if k == 0 then Some(i)
    else if HasParent(a, i) then Up(a, a[i].value, k - 1)
    else None
  }

  lemma {:induction false} EndsUnique(a: Parents, i: nat, d: nat, e: nat)
    requires i < |a| && Ends(a, i, d) && Ends(a, i, e)
    ensures d == e
    decreases d
  {
    if d > 0 && e > 0 {
      EndsUnique(a, a[i].value, d - 1, e - 1);
    }
  }

  lemma {:induction false} UpEnds(a: Parents, i: nat, d: nat, k: nat)
    requires i < |a| && Ends(a, i, d)
    ensures Up(a, i, k).Some? <==> k <= d
    ensures k <= d ==> Ends(a, Up(a, i, k).value, d - k)
    decreases k
  {
    if k > 0 && d > 0 {
      UpEnds(a, a[i].value, d - 1, k - 1);
    }
  }

  lemma {:induction false} UpMore(a: Parents, i: nat, k: nat)
    requires i < |a| && Up(a, i, k).Some?
    ensures Up(a, i, k + 1) == if HasParent(a, Up(a, i, k).value) then a[Up(a, i, k).value] else None
    decreases k
  {
    if k > 0 {
      UpMore(a, a[i].value, k - 1);
    }
  }

  lemma {:induction false} UpDown(a: Parents, i: nat, j: nat, k: nat)
    requires i < |a| && j <= k && Up(a, i, k).Some?
    ensures Up(a, i, j).Some?
    decreases j
  {
    if j > 0 {
      UpDown(a, a[i].value, j - 1, k - 1);
    }
  }

  /** The first `count` nodes met on the way up. */
  ghost function Trail(a: Parents, i: nat, count: nat): (t: seq<nat>)
    requires i < |a| && (count > 0 ==> Up(a, i, count - 1).Some?)
    ensures |t| == count && Below(t, |a|)
    ensures forall k: nat :: k < count ==> Up(a, i, k) == Some(t[k])
  {
    if count == 0 then [] else
      assert count > 1 ==> Up(a, i, count - 2).Some? by { if count > 1 { UpDown(a, i, count - 2, count - 1); } }
      Trail(a, i, count - 1) + [Up(a, i, count - 1).value]
  }

  lemma TrailDistinct(a: Parents, i: nat, d: nat, j: nat, k: nat)
    requires i < |a| && Ends(a, i, d) && j < k <= d
    ensures Up(a, i, j) != Up(a, i, k)
  {
    UpEnds(a, i, d, j);
    UpEnds(a, i, d, k);
    if Up(a, i, j) == Up(a, i, k) {
      EndsUnique(a, Up(a, i, j).value, d - j, d - k);
    }
  }

  /** A walk that ends visits every node at most once. */
  lemma EndsSoon(a: Parents, i: nat, d: nat)
    requires i < |a| && Ends(a, i, d)
    ensures d < |a|
  {
    UpEnds(a, i, d, d);
    var t := Trail(a, i, d + 1);
    forall j, k | 0 <= j < k < |t|
      ensures t[j] != t[k]
    {
      TrailDistinct(a, i, d, j, k);
    }
    Pigeonhole(t, |a|);
  }

  /** The walk up comes back to a node it has met: i is on a cycle or leads into one. */
  ghost predicate MeetsCycle(a: Parents, i: nat)
    requires i < |a|
  {
    exists j: nat, k: nat :: j < k && Up(a, i, j).Some? && Up(a, i, k) == Up(a, i, j)
  }

  lemma {:induction false} LongWalk(a: Parents, i: nat, k: nat)
    requires i < |a| && Up(a, i, k) == None
    ensures Rooted(a, i)
    decreases k
  {
    if HasParent(a, i) {
      LongWalk(a, a[i].value, k - 1);
      var d: nat :| Ends(a, a[i].value, d);
      assert Ends(a, i, d + 1);
    } else {
      assert Ends(a, i, 0);
    }
  }

  lemma Repeats(t: seq<nat>, n: nat) returns (j: nat, k: nat)
    requires Below(t, n) && |t| > n
    ensures j < k < |t| && t[j] == t[k]
  {
    if forall x, y :: 0 <= x < y < |t| ==> t[x] != t[y] {
      Pigeonhole(t, n);
    }
    j, k :| 0 <= j < k < |t| && t[j] == t[k];
  }

  /** The nodes whose walk never ends are exactly those on a cycle or leading into one. */
  lemma RootedOrCycle(a: Parents, i: nat)
    requires i < |a|
    ensures Rooted(a, i) <==> !MeetsCycle(a, i)
  {
    if Rooted(a, i) {
      var d: nat :| Ends(a, i, d);
      forall j: nat, k: nat | j < k && Up(a, i, j).Some?
        ensures Up(a, i, k) != Up(a, i, j)
      {
        UpEnds(a, i, d, j);
        UpEnds(a, i, d, k);
        if k <= d {
          TrailDistinct(a, i, d, j, k);
        }
      }
    } else {
      if Up(a, i, |a|) == None {
        LongWalk(a, i, |a|);
      }
      var t := Trail(a, i, |a| + 1);
      var j, k := Repeats(t, |a|);
      assert Up(a, i, j) == Some(t[j]) && Up(a, i, k) == Some(t[k]);
    }
  }

  /** The parent the screen draws: the stated one, for nodes that hang off a root. */
  ghost function Drawn(a: Parents, i: nat): (p: int)
    requires i < |a|
    ensures -1 <= p < |a|
  {
    if HasParent(a, i) && Rooted(a, i) then a[i].value else -1
  }

  /** The distance the screen draws: to the root, or none for nodes that never reach one. */
  ghost predicate DrawnDepth(a: Parents, i: nat, d: nat)
    requires i < |a|
  {
    if Rooted(a, i) then Ends(a, i, d) else d == 0
  }

  /** After more steps than nodes, the walk cannot end. */
  lemma TooLong(a: Parents, i: nat, k: nat)
    requires i < |a| && Up(a, i, k).Some? && k > |a|
    ensures !Rooted(a, i)
  {
    if Rooted(a, i) {
      var d: nat :| Ends(a, i, d);
      EndsSoon(a, i, d);
      UpEnds(a, i, d, k);
    }
  }

  lemma {:induction false} WalkDone(a: Parents, i: nat, k: nat)
    requires i < |a| && Up(a, i, k).Some? && !HasParent(a, Up(a, i, k).value)
    ensures Ends(a, i, k)
    decreases k
  {
    if k > 0 {
      WalkDone(a, a[i].value, k - 1);
    }
  }

  method ParentOf(a: Parents, i: nat) returns (p: int)
    requires i < |a|
    ensures p == Drawn(a, i)
  {
    if !HasParent(a, i) {
      return -1;
    }
    var at, steps := i, 0;
    while HasParent(a, at)
      invariant at < |a| && 0 <= steps <= |a| && Up(a, i, steps) == Some(at)
      decreases |a| - steps
    {
      UpMore(a, i, steps);
      at, steps := a[at].value, steps + 1;
      if steps > |a| {
        TooLong(a, i, steps);
        return -1;
      }
    }
    WalkDone(a, i, steps);
    return if at == i then -1 else a[i].value;
  }

  method Depth(a: Parents, i: nat) returns (d: nat)
    requires i < |a|
    ensures DrawnDepth(a, i, d)
  {
    d := 0;
    var at := i;
    while HasParent(a, at)
      invariant at < |a| && d <= |a| && Up(a, i, d) == Some(at)
      decreases |a| - d
    {
      UpMore(a, i, d);
      at, d := a[at].value, d + 1;
      if d > |a| {
        TooLong(a, i, d);
        return 0;
      }
    }
    WalkDone(a, i, d);
  }

  // ---- in the stated parents themselves ----

  /** Each node states the next as its parent, from i to a node that states none of these nodes. */
  predicate LeadsOut(a: Parents, chain: seq<nat>, i: nat)
  {
    && |chain| > 0 && chain[0] == i && Below(chain, |a|)
    && (forall t :: 0 < t < |chain| ==> a[chain[t - 1]] == Some(chain[t]))
    && (a[chain[|chain| - 1]] == None || a[chain[|chain| - 1]].value >= |a|)
  }

  lemma {:induction false} EndsLeadsOut(a: Parents, i: nat, d: nat) returns (chain: seq<nat>)
    requires i < |a| && Ends(a, i, d)
    ensures LeadsOut(a, chain, i)
    decreases d
  {
    if d == 0 {
      chain := [i];
    } else {
      var rest := EndsLeadsOut(a, a[i].value, d - 1);
      chain := [i] + rest;
      forall t | 0 < t < |chain| ensures a[chain[t - 1]] == Some(chain[t]) {
        assert t > 1 ==> a[rest[t - 2]] == Some(rest[t - 1]);
      }
    }
  }

  lemma {:induction false} LeadsOutEnds(a: Parents, i: nat, chain: seq<nat>)
    requires i < |a| && LeadsOut(a, chain, i)
    ensures Rooted(a, i)
    decreases |chain|
  {
    if |chain| == 1 {
      assert Ends(a, i, 0);
    } else {
      var rest := chain[1..];
      assert a[chain[0]] == Some(chain[1]);
      assert forall t :: 0 < t < |rest| ==> rest[t - 1] == chain[t] && rest[t] == chain[t + 1];
      LeadsOutEnds(a, chain[1], rest);
      var d: nat :| Ends(a, chain[1], d);
      assert Ends(a, i, d + 1);
    }
  }

  /** A node is drawn under its stated parent exactly when that is a node and its chain of parents leads out. */
  lemma DrawnIff(a: Parents, i: nat, p: nat)
    requires i < |a|
    ensures Drawn(a, i) == p <==> a[i] == Some(p) && p < |a| && exists chain :: LeadsOut(a, chain, i)
  {
    hide LeadsOut;
    if Rooted(a, i) {
      var d: nat :| Ends(a, i, d);
      var chain := EndsLeadsOut(a, i, d);
    }
    forall chain | LeadsOut(a, chain, i) ensures Rooted(a, i) {
      LeadsOutEnds(a, i, chain);
    }
  }

  // ---- the forest and its preorder ----

  /** Drawn parents (-1 for none) and depths: each child one below its parent, so no cycle. */
  ghost predicate Forest(par: seq<int>, dep: seq<nat>)
  {
    && |par| == |dep|
    && forall i :: 0 <= i < |par| ==>
      && -1 <= par[i] < |par| && dep[i] < |par|
      && dep[i] == if par[i] < 0 then 0 else dep[par[i]] + 1
  }

  ghost predicate DrawnFrom(a: Parents, par: seq<int>, dep: seq<nat>)
  {
    && |par| == |dep| == |a|
    && forall i :: 0 <= i < |a| ==> par[i] == Drawn(a, i) && DrawnDepth(a, i, dep[i])
  }

  lemma ParentDepth(a: Parents, i: nat, d: nat, e: nat)
    requires i < |a| && DrawnDepth(a, i, d)
    requires Drawn(a, i) >= 0 ==> DrawnDepth(a, Drawn(a, i), e)
    ensures d < |a|
    ensures d == if Drawn(a, i) < 0 then 0 else e + 1
  {
    if Rooted(a, i) {
      EndsSoon(a, i, d);
      if HasParent(a, i) {
        assert Ends(a, a[i].value, d - 1);
        EndsUnique(a, a[i].value, d - 1, e);
      }
    }
  }

  /** Whatever the stated parents, the drawn ones form a forest. */
  lemma DrawnIsForest(a: Parents, par: seq<int>, dep: seq<nat>)
    requires DrawnFrom(a, par, dep)
    ensures Forest(par, dep)
  {
    forall i | 0 <= i < |par|
      ensures -1 <= par[i] < |par| && dep[i] < |par| && dep[i] == if par[i] < 0 then 0 else dep[par[i]] + 1
    {
      ParentDepth(a, i, dep[i], if par[i] < 0 then 0 else dep[par[i]]);
    }
  }

  /** The nodes from c on whose drawn parent is p, in increasing order. */
  function Kids(par: seq<int>, p: int, c: nat): seq<nat>
    requires c <= |par|
    decreases |par| - c
  {
    if c == |par| then [] else (if par[c] == p then [c] else []) + Kids(par, p, c + 1)
  }

  lemma {:induction false} KidsAre(par: seq<int>, p: int, c: nat, x: int)
    requires c <= |par|
    ensures x in Kids(par, p, c) <==> c <= x < |par| && par[x] == p
    decreases |par| - c
  {
    if c < |par| {
      KidsAre(par, p, c + 1, x);
    }
  }

  ghost predicate Deep(dep: seq<nat>, level: nat, list: seq<nat>)
  {
    level <= |dep| && forall k :: 0 <= k < |list| ==> list[k] < |dep| && dep[list[k]] >= level
  }

  lemma KidsDeep(par: seq<int>, dep: seq<nat>, p: int)
    requires Forest(par, dep) && -1 <= p < |par|
    ensures 0 <= p ==> dep[p] < |dep| && Deep(dep, dep[p] + 1, Kids(par, p, 0))
    ensures Deep(dep, 0, Kids(par, p, 0))
  {
    hide Kids;
    var kids := Kids(par, p, 0);
    forall k | 0 <= k < |kids|
      ensures kids[k] < |dep| && (0 <= p ==> dep[kids[k]] >= dep[p] + 1)
    {
      KidsAre(par, p, 0, kids[k]);
    }
  }

  /** A node, then the subtrees of its children in order. */
  ghost function Visit(par: seq<int>, dep: seq<nat>, i: nat): seq<nat>
    requires Forest(par, dep) && i < |par|
    decreases |par| - dep[i], 0
  {
    KidsDeep(par, dep, i);
    [i] + VisitAll(par, dep, Kids(par, i, 0), dep[i] + 1)
  }

  ghost function VisitAll(par: seq<int>, dep: seq<nat>, list: seq<nat>, level: nat): seq<nat>
    requires Forest(par, dep) && Deep(dep, level, list)
    decreases |par| - level, |list| + 1
  {
    if list == [] then [] else Visit(par, dep, list[0]) + VisitAll(par, dep, list[1..], level)
  }

  /** The forest in preorder, roots and siblings by increasing number. */
  ghost function Preorder(par: seq<int>, dep: seq<nat>): seq<nat>
    requires Forest(par, dep)
  {
    KidsDeep(par, dep, -1);
    VisitAll(par, dep, Kids(par, -1, 0), 0)
  }

  lemma {:induction false} LevelIgnored(par: seq<int>, dep: seq<nat>, list: seq<nat>, level: nat)
    requires Forest(par, dep) && Deep(dep, level, list)
    ensures VisitAll(par, dep, list, level) == VisitAll(par, dep, list, 0)
    decreases |list|
  {
    if list != [] {
      LevelIgnored(par, dep, list[1..], level);
    }
  }

  lemma {:induction false} VisitAppend(par: seq<int>, dep: seq<nat>, xs: seq<nat>, ys: seq<nat>)
    requires Forest(par, dep) && Deep(dep, 0, xs) && Deep(dep, 0, ys)
    ensures VisitAll(par, dep, xs + ys, 0) == VisitAll(par, dep, xs, 0) + VisitAll(par, dep, ys, 0)
    decreases |xs|
  {
    if xs == [] {
      assert xs + ys == ys;
    } else {
      assert (xs + ys)[1..] == xs[1..] + ys;
      VisitAppend(par, dep, xs[1..], ys);
    }
  }

  /** Taking a node off the front and putting its children there is one step of the preorder. */
  lemma VisitPop(par: seq<int>, dep: seq<nat>, at: nat, rest: seq<nat>)
    requires Forest(par, dep) && at < |par| && Deep(dep, 0, rest)
    ensures Deep(dep, 0, Kids(par, at, 0)) && Deep(dep, 0, Kids(par, at, 0) + rest) && Deep(dep, 0, [at] + rest)
    ensures VisitAll(par, dep, [at] + rest, 0) == [at] + VisitAll(par, dep, Kids(par, at, 0) + rest, 0)
  {
    var kids := Kids(par, at, 0);
    KidsDeep(par, dep, at);
    VisitFirst(par, dep, at, rest);
    hide Kids, Forest, VisitAll, Deep;
    LevelIgnored(par, dep, kids, dep[at] + 1);
    VisitAppend(par, dep, kids, rest);
    var v, w := VisitAll(par, dep, kids, 0), VisitAll(par, dep, rest, 0);
    assert ([at] + v) + w == [at] + (v + w);
  }

  lemma VisitFirst(par: seq<int>, dep: seq<nat>, at: nat, rest: seq<nat>)
    requires Forest(par, dep) && at < |par| && Deep(dep, 0, rest)
    ensures Deep(dep, 0, [at] + rest) && Deep(dep, dep[at] + 1, Kids(par, at, 0))
    ensures VisitAll(par, dep, [at] + rest, 0)
         == [at] + VisitAll(par, dep, Kids(par, at, 0), dep[at] + 1) + VisitAll(par, dep, rest, 0)
  {
    hide Kids;
    KidsDeep(par, dep, at);
    assert ([at] + rest)[1..] == rest;
  }

  /** A stack read from its top. */
  function Rev(s: seq<nat>): seq<nat>
  {
    if s == [] then [] else [s[|s| - 1]] + Rev(s[..|s| - 1])
  }

  /** The pushed nodes are the children of p numbered c or more, each once. */
  ghost predicate Pushed(par: seq<int>, p: int, c: nat, pushed: seq<nat>)
  {
    NoDuplicates(pushed) && forall x :: x in pushed <==> c <= x < |par| && par[x] == p
  }

  lemma PushedOne(par: seq<int>, p: int, c: nat, pushed: seq<nat>)
    requires c < |par| && Pushed(par, p, c + 1, pushed)
    ensures Pushed(par, p, c, if par[c] == p then pushed + [c] else pushed)
  {
    if par[c] == p {
      NoDuplicatesConcat(pushed, [c]);
    }
  }

  lemma Assoc(a: seq<nat>, b: seq<nat>, c: seq<nat>)
    ensures (a + b) + c == a + (b + c)
  {
  }

  lemma RevPush(s: seq<nat>, x: nat)
    ensures Rev(s + [x]) == [x] + Rev(s)
  {
    assert (s + [x])[..|s|] == s;
  }

  lemma StackOne(par: seq<int>, p: int, c: nat, s: seq<nat>, stack: seq<nat>)
    requires c < |par| && Rev(s) == Kids(par, p, c + 1) + Rev(stack)
    ensures Rev(if par[c] == p then s + [c] else s) == Kids(par, p, c) + Rev(stack)
  {
    if par[c] == p {
      RevPush(s, c);
      Assoc([c], Kids(par, p, c + 1), Rev(stack));
    }
  }

  /** The children of p (or the roots, for -1) go on the stack, the smallest on top. */
  method PushKids(par: seq<int>, p: int, stack: seq<nat>) returns (s: seq<nat>, ghost pushed: seq<nat>)
    ensures s == stack + pushed && Pushed(par, p, 0, pushed)
    ensures Rev(s) == Kids(par, p, 0) + Rev(stack)
  {
    s, pushed := stack, [];
    var c := |par|;
    PushNone(par, p, stack);
    hide Pushed, Rev, Kids;
    while c > 0
      invariant 0 <= c <= |par| && s == stack + pushed && Pushed(par, p, c, pushed)
      invariant Rev(s) == Kids(par, p, c) + Rev(stack)
    {
      c := c - 1;
      PushedOne(par, p, c, pushed);
      StackOne(par, p, c, s, stack);
      if par[c] == p {
        Assoc(stack, pushed, [c]);
        s, pushed := s + [c], pushed + [c];
      }
    }
  }

  lemma PushNone(par: seq<int>, p: int, stack: seq<nat>)
    ensures Pushed(par, p, |par|, []) && Rev(stack) == Kids(par, p, |par|) + Rev(stack)
  {
  }

  /** Between two turns: exactly the roots and the children of placed nodes are placed or waiting. */
  ghost predicate Placed(par: seq<int>, order: seq<nat>, stack: seq<nat>)
  {
    && NoDuplicates(order + stack) && Below(order + stack, |par|)
    && (forall x :: 0 <= x < |par| ==> (x in order + stack <==> par[x] < 0 || par[x] in order))
    && ParentsFirst(par, order)
  }

  ghost predicate ParentsFirst(par: seq<int>, order: seq<nat>)
  {
    Below(order, |par|) && forall k :: 0 <= k < |order| ==> par[order[k]] < 0 || par[order[k]] in order[..k]
  }

  lemma NoDuplicatesSwap(a: seq<nat>, b: seq<nat>, x: nat)
    requires NoDuplicates(a + (b + [x]))
    ensures NoDuplicates(a + [x] + b)
  {
    var was, now := a + (b + [x]), a + [x] + b;
    forall j, k | 0 <= j < k < |now|
      ensures now[j] != now[k]
    {
      var f := (i: int) => if i < |a| then i else if i == |a| then |was| - 1 else i - 1;
      assert now[j] == was[f(j)] && now[k] == was[f(k)];
    }
  }

  lemma NoDuplicatesConcat(p: seq<nat>, q: seq<nat>)
    requires NoDuplicates(p) && NoDuplicates(q) && forall x :: x in q ==> x !in p
    ensures NoDuplicates(p + q)
  {
    forall j, k | 0 <= j < k < |p + q|
      ensures (p + q)[j] != (p + q)[k]
    {
      if j < |p| <= k {
        assert p[j] in p && q[k - |p|] in q;
      }
    }
  }

  /** A turn: the top of the stack is placed and its children wait in its stead. */
  lemma PlaceOne(par: seq<int>, order: seq<nat>, stack: seq<nat>, pushed: seq<nat>)
    requires Placed(par, order, stack) && stack != []
    requires Pushed(par, stack[|stack| - 1], 0, pushed)
    ensures Placed(par, order + [stack[|stack| - 1]], stack[..|stack| - 1] + pushed)
  {
    var at, rest := stack[|stack| - 1], stack[..|stack| - 1];
    var more, all := order + [at] + rest, (order + [at]) + (rest + pushed);
    assert stack == rest + [at];
    NoDuplicatesSwap(order, rest, at);
    NotYet(order, stack);
    assert forall x :: x in more <==> x in order + stack;
    NoDuplicatesConcat(more, pushed);
    assert all == more + pushed;
    PlacedParents(par, order, stack);
    hide NoDuplicates;
    forall k | 0 <= k < |all|
      ensures all[k] < |par|
    {
      assert all[k] in more || all[k] in pushed;
      if all[k] in more {
        var j :| 0 <= j < |order + stack| && (order + stack)[j] == all[k];
      }
    }
  }

  lemma NotYet(order: seq<nat>, stack: seq<nat>)
    requires NoDuplicates(order + stack) && stack != []
    ensures stack[|stack| - 1] !in order
  {
    var all := order + stack;
    assert all[|all| - 1] == stack[|stack| - 1];
    assert forall k :: 0 <= k < |order| ==> all[k] == order[k];
  }

  lemma PlacedParents(par: seq<int>, order: seq<nat>, stack: seq<nat>)
    requires Placed(par, order, stack) && stack != []
    ensures ParentsFirst(par, order + [stack[|stack| - 1]])
  {
    var at := stack[|stack| - 1];
    var more := order + [at];
    assert (order + stack)[|order| + |stack| - 1] == at;
    assert at in order + stack;
    forall k | 0 <= k < |more|
      ensures par[more[k]] < 0 || par[more[k]] in more[..k]
    {
      assert more[..k] == order[..k];
    }
  }

  /** At the end every node is placed: its ancestors were, from the root down. */
  lemma {:induction false} AllPlaced(par: seq<int>, dep: seq<nat>, order: seq<nat>, i: nat)
    requires Forest(par, dep) && Placed(par, order, []) && i < |par|
    ensures i in order
    decreases dep[i]
  {
    assert order + [] == order;
    if par[i] >= 0 {
      AllPlaced(par, dep, order, par[i]);
    }
  }

  lemma {:induction false} Covers(q: seq<nat>, n: nat)
    requires forall i: nat :: i < n ==> i in q
    ensures |q| >= n
    decreases n
  {
    if n > 0 {
      assert n - 1 in q;
      var k :| 0 <= k < |q| && q[k] == n - 1;
      var rest := q[..k] + q[k + 1..];
      forall i: nat | i < n - 1
        ensures i in rest
      {
        assert i in q;
        var j :| 0 <= j < |q| && q[j] == i;
        assert rest[if j < k then j else j - 1] == i;
      }
      Covers(rest, n - 1);
    }
  }

  /** Every node exactly once, each after its parent. */
  ghost predicate Ordered(par: seq<int>, order: seq<nat>)
  {
    && |order| == |par| && NoDuplicates(order) && ParentsFirst(par, order)
    && forall i: nat :: i < |par| ==> i in order
  }

  lemma OrderDone(par: seq<int>, dep: seq<nat>, order: seq<nat>, stack: seq<nat>)
    requires Forest(par, dep) && Placed(par, order, stack)
    requires stack == [] || |order| >= |par|
    ensures stack == [] && Ordered(par, order)
  {
    Pigeonhole(order + stack, |par|);
    assert order + [] == order;
    forall i: nat | i < |par|
      ensures i in order
    {
      AllPlaced(par, dep, order, i);
    }
    Covers(order, |par|);
  }

  lemma RootsPlaced(par: seq<int>, dep: seq<nat>, stack: seq<nat>)
    requires Forest(par, dep) && Pushed(par, -1, 0, stack)
    ensures Placed(par, [], stack)
  {
    assert [] + stack == stack;
    forall k | 0 <= k < |stack|
      ensures stack[k] < |par|
    {
      assert stack[k] in stack;
    }
  }

  /** The screen's drawing order: the preorder of the forest, which lists every node after its parent. */
  method Order(par: seq<int>, ghost dep: seq<nat>) returns (order: seq<nat>)
    requires Forest(par, dep)
    ensures order == Preorder(par, dep) && Ordered(par, order)
  {
    hide Forest, Placed, Pushed, Ordered, Kids, VisitAll, Deep, NoDuplicates;
    order := [];
    var stack;
    ghost var pushed;
    stack, pushed := PushKids(par, -1, []);
    assert stack == pushed;
    RootsPlaced(par, dep, stack);
    KidsDeep(par, dep, -1);
    assert Rev(stack) == Kids(par, -1, 0);
    while stack != [] && |order| < |par|
      invariant Placed(par, order, stack) && Deep(dep, 0, Rev(stack))
      invariant order + VisitAll(par, dep, Rev(stack), 0) == Preorder(par, dep)
      decreases |par| - |order|
    {
      var at, rest := stack[|stack| - 1], stack[..|stack| - 1];
      TopFits(par, dep, order, stack);
      VisitPop(par, dep, at, Rev(rest));
      order := order + [at];
      ghost var was := stack;
      stack, pushed := PushKids(par, at, rest);
      PlaceOne(par, order[..|order| - 1], was, pushed);
      assert order[..|order| - 1] + [at] == order;
    }
    OrderDone(par, dep, order, stack);
    NothingLeft(par, dep);
  }

  lemma TopFits(par: seq<int>, dep: seq<nat>, order: seq<nat>, stack: seq<nat>)
    requires Forest(par, dep) && Placed(par, order, stack) && stack != [] && Deep(dep, 0, Rev(stack))
    ensures
      var at, rest := stack[|stack| - 1], stack[..|stack| - 1];
      at < |par| && Deep(dep, 0, Rev(rest)) && Rev(stack) == [at] + Rev(rest)
  {
    var r := Rev(stack[..|stack| - 1]);
    assert forall k :: 0 <= k < |r| ==> r[k] == Rev(stack)[k + 1];
    assert (order + stack)[|order + stack| - 1] == stack[|stack| - 1];
  }

  lemma NothingLeft(par: seq<int>, dep: seq<nat>)
    requires Forest(par, dep)
    ensures Deep(dep, 0, []) && VisitAll(par, dep, [], 0) == [] && Rev([]) == []
  {
  }

  // ---- what the preorder is like ----

  /** y is x or hangs below it. */
  ghost predicate Descends(par: seq<int>, dep: seq<nat>, y: nat, x: nat)
    requires Forest(par, dep) && y < |par|
    decreases dep[y]
  {
    y == x || (par[y] >= 0 && Descends(par, dep, par[y], x))
  }

  lemma {:induction false} DescendsUp(par: seq<int>, dep: seq<nat>, y: nat, c: nat)
    requires Forest(par, dep) && y < |par| && c < |par| && par[c] >= 0 && Descends(par, dep, y, c)
    ensures Descends(par, dep, y, par[c])
    decreases dep[y]
  {
    if y != c {
      DescendsUp(par, dep, par[y], c);
    }
  }

  /** The subtree of a listed node stands in the list's visit as one block. */
  lemma {:induction false} ListBlock(par: seq<int>, dep: seq<nat>, list: seq<nat>, level: nat, i: nat)
    returns (before: seq<nat>, after: seq<nat>)
    requires Forest(par, dep) && Deep(dep, level, list) && i < |list|
    ensures list[i] < |par| && VisitAll(par, dep, list, level) == before + Visit(par, dep, list[i]) + after
    decreases |list|
  {
    hide Visit, Kids;
    if i == 0 {
      before, after := [], VisitAll(par, dep, list[1..], level);
    } else {
      var b, a := ListBlock(par, dep, list[1..], level, i - 1);
      before, after := Visit(par, dep, list[0]) + b, a;
      var v := Visit(par, dep, list[i]);
      assert Visit(par, dep, list[0]) + (b + v + a) == before + v + after;
    }
  }

  lemma VisitHead(par: seq<int>, dep: seq<nat>, x: nat)
    requires Forest(par, dep) && x < |par|
    ensures dep[x] < |dep| && Deep(dep, dep[x] + 1, Kids(par, x, 0))
    ensures Visit(par, dep, x) == [x] + VisitAll(par, dep, Kids(par, x, 0), dep[x] + 1)
  {
    hide VisitAll, Kids;
    KidsDeep(par, dep, x);
  }

  /** Every subtree is one block of the preorder. */
  lemma {:induction false} Block(par: seq<int>, dep: seq<nat>, x: nat) returns (before: seq<nat>, after: seq<nat>)
    requires Forest(par, dep) && x < |par|
    ensures Preorder(par, dep) == before + Visit(par, dep, x) + after
    decreases dep[x]
  {
    hide Visit, VisitAll, Kids;
    var p := par[x];
    KidsAre(par, p, 0, x);
    KidsDeep(par, dep, p);
    var kids := Kids(par, p, 0);
    var i :| 0 <= i < |kids| && kids[i] == x;
    if p < 0 {
      before, after := ListBlock(par, dep, kids, 0, i);
    } else {
      var b, a := Block(par, dep, p);
      VisitHead(par, dep, p);
      var c, d := ListBlock(par, dep, kids, dep[p] + 1, i);
      before, after := b + [p] + c, d + a;
      var v := Visit(par, dep, x);
      assert b + ([p] + (c + v + d)) + a == before + v + after;
    }
  }

  /** Anything in a list's visit is in the visit of one of its nodes. */
  lemma {:induction false} FromList(par: seq<int>, dep: seq<nat>, list: seq<nat>, level: nat, y: nat) returns (i: nat)
    requires Forest(par, dep) && Deep(dep, level, list) && y in VisitAll(par, dep, list, level)
    ensures i < |list| && list[i] < |par| && y in Visit(par, dep, list[i])
    decreases |list|
  {
    hide Visit, Kids;
    if y in Visit(par, dep, list[0]) {
      i := 0;
    } else {
      var j := FromList(par, dep, list[1..], level, y);
      i := j + 1;
    }
  }

  lemma {:induction false} VisitedDescends(par: seq<int>, dep: seq<nat>, x: nat, y: nat)
    requires Forest(par, dep) && x < |par| && y in Visit(par, dep, x)
    ensures y < |par| && Descends(par, dep, y, x)
    decreases |par| - dep[x]
  {
    hide Visit, VisitAll, Kids, Deep;
    VisitHead(par, dep, x);
    if y != x {
      var kids := Kids(par, x, 0);
      var i := FromList(par, dep, kids, dep[x] + 1, y);
      KidsAre(par, x, 0, kids[i]);
      VisitedDescends(par, dep, kids[i], y);
      DescendsUp(par, dep, y, kids[i]);
    }
  }

  lemma {:induction false} DescendantVisited(par: seq<int>, dep: seq<nat>, x: nat, y: nat)
    requires Forest(par, dep) && x < |par| && y < |par| && Descends(par, dep, y, x)
    ensures exists before, after :: Visit(par, dep, x) == before + Visit(par, dep, y) + after
    decreases dep[y]
  {
    hide Visit, VisitAll, Kids, Deep;
    var v := Visit(par, dep, y);
    if y == x {
      assert Visit(par, dep, x) == [] + v + [];
    } else {
      var p := par[y];
      DescendantVisited(par, dep, x, p);
      var b, a :| Visit(par, dep, x) == b + Visit(par, dep, p) + a;
      VisitHead(par, dep, p);
      KidsAre(par, p, 0, y);
      var kids := Kids(par, p, 0);
      var i :| 0 <= i < |kids| && kids[i] == y;
      var c, d := ListBlock(par, dep, kids, dep[p] + 1, i);
      assert b + ([p] + (c + v + d)) + a == (b + [p] + c) + v + (d + a);
    }
  }

  lemma VisitedIffDescends(par: seq<int>, dep: seq<nat>, x: nat, y: nat)
    requires Forest(par, dep) && x < |par| && y < |par|
    ensures y in Visit(par, dep, x) <==> Descends(par, dep, y, x)
  {
    hide VisitAll, Kids, Visit;
    if y in Visit(par, dep, x) {
      VisitedDescends(par, dep, x, y);
    }
    if Descends(par, dep, y, x) {
      DescendantVisited(par, dep, x, y);
      var b, a :| Visit(par, dep, x) == b + Visit(par, dep, y) + a;
      VisitHead(par, dep, y);
      assert Visit(par, dep, x)[|b|] == y;
    }
  }

  /** A node and everything below it stand together, without anything else between. */
  lemma SubtreesTogether(par: seq<int>, dep: seq<nat>, order: seq<nat>, x: nat, i: nat, j: nat, k: nat)
    requires Forest(par, dep) && order == Preorder(par, dep) && Ordered(par, order) && x < |par|
    requires i < j < k < |order| && Below(order, |par|)
    requires Descends(par, dep, order[i], x) && Descends(par, dep, order[k], x)
    ensures Descends(par, dep, order[j], x)
  {
    hide Visit, Preorder, Descends, Forest;
    var before, after := Block(par, dep, x);
    var v := Visit(par, dep, x);
    assert forall y: nat :: y < |par| ==> (y in v <==> Descends(par, dep, y, x)) by {
      forall y: nat | y < |par| ensures y in v <==> Descends(par, dep, y, x) {
        VisitedIffDescends(par, dep, x, y);
      }
    }
    InBlock(order, before, v, after, i);
    InBlock(order, before, v, after, k);
    assert order[j] == v[j - |before|];
  }

  lemma InBlock(order: seq<nat>, before: seq<nat>, v: seq<nat>, after: seq<nat>, i: nat)
    requires order == before + v + after && NoDuplicates(order) && i < |order| && order[i] in v
    ensures |before| <= i < |before| + |v|
  {
    var m :| 0 <= m < |v| && v[m] == order[i];
    assert order[|before| + m] == v[m];
  }

  /** Siblings, and roots, are drawn by increasing number. */
  lemma SiblingsInOrder(par: seq<int>, dep: seq<nat>, x: nat, y: nat) returns (i: nat, j: nat)
    requires Forest(par, dep) && x < y < |par| && par[x] == par[y]
    ensures i < j < |Preorder(par, dep)| && Preorder(par, dep)[i] == x && Preorder(par, dep)[j] == y
  {
    hide Visit, VisitAll, Kids;
    var p := par[x];
    KidsAre(par, p, 0, x);
    KidsAre(par, p, 0, y);
    KidsRise(par, p, 0);
    KidsDeep(par, dep, p);
    var kids := Kids(par, p, 0);
    var a :| 0 <= a < |kids| && kids[a] == x;
    var b :| 0 <= b < |kids| && kids[b] == y;
    if p < 0 {
      i, j := ListInOrder(par, dep, kids, 0, a, b);
    } else {
      var before, after := Block(par, dep, p);
      VisitHead(par, dep, p);
      var m, n := ListInOrder(par, dep, kids, dep[p] + 1, a, b);
      i, j := |before| + 1 + m, |before| + 1 + n;
    }
  }

  lemma {:induction false} KidsRise(par: seq<int>, p: int, c: nat)
    requires c <= |par|
    ensures forall i, j :: 0 <= i < j < |Kids(par, p, c)| ==> Kids(par, p, c)[i] < Kids(par, p, c)[j]
    decreases |par| - c
  {
    if c < |par| {
      KidsRise(par, p, c + 1);
      var rest := Kids(par, p, c + 1);
      forall i | 0 <= i < |rest| ensures c < rest[i] {
        KidsAre(par, p, c + 1, rest[i]);
      }
    }
  }

  lemma {:induction false} ListInOrder(par: seq<int>, dep: seq<nat>, list: seq<nat>, level: nat, a: nat, b: nat)
    returns (i: nat, j: nat)
    requires Forest(par, dep) && Deep(dep, level, list) && a < b < |list|
    ensures
      var v := VisitAll(par, dep, list, level);
      i < j < |v| && v[i] == list[a] && v[j] == list[b]
    decreases |list|
  {
    hide Visit, Kids;
    VisitHead(par, dep, list[0]);
    var first := |Visit(par, dep, list[0])|;
    if a == 0 {
      var before, after := ListBlock(par, dep, list[1..], level, b - 1);
      VisitHead(par, dep, list[b]);
      i, j := 0, first + |before|;
    } else {
      var m, n := ListInOrder(par, dep, list[1..], level, a - 1, b - 1);
      i, j := first + m, first + n;
    }
  }

  // ---- coordinates ----

  predicate IsLeaf(par: seq<int>, i: nat)
  {
    forall x :: 0 <= x < |par| ==> par[x] != i
  }

  /** How many of the listed nodes have no child. */
  function Leaves(par: seq<int>, list: seq<nat>): nat
  {
    if list == [] then 0
    else Leaves(par, list[..|list| - 1]) + if IsLeaf(par, list[|list| - 1]) then 1 else 0
  }

  lemma {:induction false} LeavesGrow(par: seq<int>, list: seq<nat>, k: nat)
    requires k <= |list|
    ensures Leaves(par, list[..k]) <= Leaves(par, list)
    decreases |list|
  {
    if k == |list| {
      assert list[..k] == list;
    } else {
      assert list[..|list| - 1][..k] == list[..k];
      LeavesGrow(par, list[..|list| - 1], k);
    }
  }

  /** The last node drawn has no child, since a child would come after it. */
  lemma LastIsLeaf(par: seq<int>, order: seq<nat>)
    requires Ordered(par, order) && order != []
    ensures IsLeaf(par, order[|order| - 1])
  {
    var last := order[|order| - 1];
    forall x: nat | x < |par|
      ensures par[x] != last
    {
      assert x in order;
      var k :| 0 <= k < |order| && order[k] == x;
      assert last !in order[..k];
    }
  }

  /** So whenever a node is placed, some leaf is still to come. */
  lemma LeafToCome(par: seq<int>, order: seq<nat>, k: nat)
    requires Ordered(par, order) && k < |order|
    ensures Leaves(par, order[..k]) < Leaves(par, order)
  {
    LastIsLeaf(par, order);
    assert order[..|order| - 1][..k] == order[..k];
    LeavesGrow(par, order[..|order| - 1], k);
  }

  function Column(d: nat, deepest: nat): int
  {
    5 + d * 45 / (if deepest == 0 then 1 else deepest)
  }

  function RowOf(leaf: nat, leaves: nat): int
    requires leaves > 0
  {
    1 + (2 * leaf + 1) * 9 / (2 * leaves)
  }

  /** A larger numerator, by at least the divisor, gives a larger quotient. */
  lemma QuotientsRise(x: int, y: int, c: nat)
    requires c > 0 && x <= y
    ensures x / c <= y / c && (x + c <= y ==> x / c < y / c)
  {
    DivMonotone(x, y, c);
    if x + c <= y {
      DivShift(x, 1, c);
      DivMonotone(x + 1 * c, y, c);
    }
  }

  /** Columns rise with depth, each its own while there are few. */
  lemma ColumnsRise(d: nat, e: nat, deepest: nat)
    requires d < e <= deepest
    ensures Column(d, deepest) <= Column(e, deepest) && (deepest <= 45 ==> Column(d, deepest) < Column(e, deepest))
  {
    QuotientsRise(d * 45, e * 45, deepest);
  }

  /** Roots stand in column 5, the deepest nodes in column 50. */
  lemma ColumnEnds(deepest: nat)
    ensures Column(0, deepest) == 5 && (deepest > 0 ==> Column(deepest, deepest) == 50)
  {
    if deepest > 0 {
      DivExact(45, deepest);
      assert deepest * 45 == 45 * deepest;
    }
  }

  /** Rows rise with the leaves passed, between 1 and 9; up to nine leaves each have their own. */
  lemma RowsRise(leaf: nat, later: nat, leaves: nat)
    requires leaf < later < leaves
    ensures RowOf(leaf, leaves) <= RowOf(later, leaves) && (leaves <= 9 ==> RowOf(leaf, leaves) < RowOf(later, leaves))
    ensures 1 <= RowOf(leaf, leaves) && RowOf(later, leaves) <= 9
  {
    var c := 2 * leaves;
    QuotientsRise((2 * leaf + 1) * 9, (2 * later + 1) * 9, c);
    DivAtLeast((2 * leaf + 1) * 9, c, 0);
    DivBelow((2 * later + 1) * 9, c, 9);
  }

  /** The rows are centred: mirrored leaves stand equally far, up to one row, from the middle. */
  lemma RowsCentred(leaf: nat, leaves: nat)
    requires leaf < leaves
    ensures 10 <= RowOf(leaf, leaves) + RowOf(leaves - 1 - leaf, leaves) <= 11
  {
    var c, x, y := 2 * leaves, (2 * leaf + 1) * 9, (2 * (leaves - 1 - leaf) + 1) * 9;
    assert x + y == 9 * c;
    DivExact(9, c);
    DivAdds(x, y, c);
    DivAddsAtMost(x, y, c);
  }

  /** A two-by-two glyph at this place lies inside the panel. */
  predicate GlyphFits(x: int, y: int)
  {
    0 <= x && x + 1 < PANEL_WIDTH && 0 <= y && y + 1 < PANEL_HEIGHT
  }

  lemma ScreenFits(d: nat, deepest: nat, leaf: nat, leaves: nat)
    requires d <= deepest && leaf < leaves
    ensures GlyphFits(Column(d, deepest), RowOf(leaf, leaves))
  {
    DivBelow((2 * leaf + 1) * 9, 2 * leaves, 9);
    if deepest > 0 {
      DivBelow(d * 45, deepest, 46);
    }
  }

  /** The drawn parents and depths of every node. */
  method Derive(a: Parents) returns (par: seq<int>, dep: seq<nat>)
    ensures DrawnFrom(a, par, dep)
  {
    hide Drawn, DrawnDepth;
    par, dep := [], [];
    for i := 0 to |a|
      invariant |par| == i && forall j :: 0 <= j < i ==> par[j] == Drawn(a, j)
    {
      var p := ParentOf(a, i);
      par := par + [p];
    }
    for i := 0 to |a|
      invariant |dep| == i && forall j :: 0 <= j < i ==> DrawnDepth(a, j, dep[j])
    {
      var d := 0;
      if par[i] < 0 {
        RootDepth(a, i);
      } else {
        d := Depth(a, i);
      }
      dep := dep + [d];
    }
  }

  lemma RootDepth(a: Parents, i: nat)
    requires i < |a| && Drawn(a, i) < 0
    ensures DrawnDepth(a, i, 0)
  {
  }

  method Deepest(dep: seq<nat>) returns (m: nat)
    requires dep != []
    ensures m in dep && forall i :: 0 <= i < |dep| ==> dep[i] <= m
  {
    m := dep[0];
    for i := 0 to |dep|
      invariant m in dep && forall j :: 0 <= j < i ==> dep[j] <= m
    {
      m := if dep[i] > m then dep[i] else m;
    }
  }

  method CountLeaves(par: seq<int>, order: seq<nat>) returns (leaves: nat)
    ensures leaves == Leaves(par, order)
  {
    leaves := 0;
    for k := 0 to |order|
      invariant leaves == Leaves(par, order[..k])
    {
      assert order[..k + 1][..k] == order[..k];
      if IsLeaf(par, order[k]) {
        leaves := leaves + 1;
      }
    }
    assert order[..|order|] == order;
  }

  /** Node k of the order stands at its depth's column, in the row of the next leaf. */
  ghost predicate Stands(par: seq<int>, dep: seq<nat>, deepest: nat, order: seq<nat>, k: nat, x: int, y: int)
    requires k < |order|
  {
    && order[k] < |dep| && x == Column(dep[order[k]], deepest)
    && Leaves(par, order) > 0 && y == RowOf(Leaves(par, order[..k]), Leaves(par, order))
  }

  method PlaceNodes(par: seq<int>, dep: seq<nat>, deepest: nat, order: seq<nat>) returns (nx: seq<int>, ny: seq<int>)
    requires |par| == |dep| > 0 && Ordered(par, order) && forall i :: 0 <= i < |dep| ==> dep[i] <= deepest
    ensures |nx| == |ny| == |par|
    ensures forall k :: 0 <= k < |order| ==> order[k] < |par| && Stands(par, dep, deepest, order, k, nx[order[k]], ny[order[k]])
  {
    hide Leaves, Column, RowOf, Stands, Ordered, IsLeaf;
    var leaves := CountLeaves(par, order);
    OneTurnEach(par, order);
    LeafToCome(par, order, 0);
    var leaf := 0;
    NoLeaves(par);
    nx, ny := seq(|par|, _ => 0), seq(|par|, _ => 0);
    for k := 0 to |order|
      invariant |nx| == |ny| == |par| && leaf == Leaves(par, order[..k])
      invariant forall j :: 0 <= j < k ==> Stands(par, dep, deepest, order, j, nx[order[j]], ny[order[j]])
    {
      var i := order[k];
      nx := nx[i := Column(dep[i], deepest)];
      ny := ny[i := RowOf(leaf, leaves)];
      assert Stands(par, dep, deepest, order, k, nx[i], ny[i]) by { StandsHere(par, dep, deepest, order, k); }
      LeavesStep(par, order, k);
      if IsLeaf(par, i) {
        leaf := leaf + 1;
      }
    }
  }

  lemma OneTurnEach(par: seq<int>, order: seq<nat>)
    requires Ordered(par, order)
    ensures |order| == |par| && Below(order, |par|) && NoDuplicates(order)
  {
  }

  lemma StandsHere(par: seq<int>, dep: seq<nat>, deepest: nat, order: seq<nat>, k: nat)
    requires k < |order| && order[k] < |dep| && Leaves(par, order) > 0
    ensures Stands(par, dep, deepest, order, k, Column(dep[order[k]], deepest), RowOf(Leaves(par, order[..k]), Leaves(par, order)))
  {
  }

  lemma NoLeaves(par: seq<int>)
    ensures Leaves(par, []) == 0
  {
  }

  lemma LeavesStep(par: seq<int>, order: seq<nat>, k: nat)
    requires k < |order|
    ensures Leaves(par, order[..k + 1]) == Leaves(par, order[..k]) + if IsLeaf(par, order[k]) then 1 else 0
  {
    assert order[..k + 1][..k] == order[..k];
  }

  /**
   The whole arrangement, for every array of stated parents: the drawn parents form a forest, the
   order is its preorder, and every node's glyph lies inside the panel.
   */
  method Arrange(a: Parents)
    returns (par: seq<int>, dep: seq<nat>, order: seq<nat>, deepest: nat, nx: seq<int>, ny: seq<int>)
    ensures DrawnFrom(a, par, dep) && Forest(par, dep)
    ensures order == Preorder(par, dep) && Ordered(par, order)
    ensures |nx| == |ny| == |a| && forall i :: 0 <= i < |a| ==> GlyphFits(nx[i], ny[i])
    ensures forall i :: 0 <= i < |a| ==> dep[i] <= deepest
    ensures forall k :: 0 <= k < |order| ==>
      order[k] < |a| && Stands(par, dep, deepest, order, k, nx[order[k]], ny[order[k]])
  {
    hide DrawnFrom, Ordered, Preorder, Stands, GlyphFits;
    par, dep := Derive(a);
    DrawnIsForest(a, par, dep);
    order := Order(par, dep);
    deepest, nx, ny := 0, [], [];
    DrawnSize(a, par, dep);
    OneTurnEach(par, order);
    if |a| > 0 {
      deepest := Deepest(dep);
      nx, ny := PlaceNodes(par, dep, deepest, order);
      forall i | 0 <= i < |a|
        ensures GlyphFits(nx[i], ny[i])
      {
        var k := Turn(par, order, i);
        StandsInside(par, dep, deepest, order, k, nx[i], ny[i]);
      }
    }
  }

  lemma DrawnSize(a: Parents, par: seq<int>, dep: seq<nat>)
    requires DrawnFrom(a, par, dep)
    ensures |par| == |dep| == |a|
  {
  }

  lemma Turn(par: seq<int>, order: seq<nat>, i: nat) returns (k: nat)
    requires Ordered(par, order) && i < |par|
    ensures k < |order| && order[k] == i
  {
    assert i in order;
    k :| 0 <= k < |order| && order[k] == i;
  }

  lemma StandsInside(par: seq<int>, dep: seq<nat>, deepest: nat, order: seq<nat>, k: nat, x: int, y: int)
    requires Ordered(par, order) && k < |order| && Stands(par, dep, deepest, order, k, x, y)
    requires forall i :: 0 <= i < |dep| ==> dep[i] <= deepest
    ensures GlyphFits(x, y)
  {
    hide GlyphFits, Column, RowOf;
    LeafToCome(par, order, k);
    ScreenFits(dep[order[k]], deepest, Leaves(par, order[..k]), Leaves(par, order));
  }
}
