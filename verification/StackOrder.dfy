/** Closure and install order of stacks. */
module StackOrder {
  import opened Strings
  import opened Sequences

  datatype Stack = Stack(slug: Text, locked: bool, sortOrder: int, dependsOn: seq<Text>)
  type Catalog = map<Text, Stack>

  // ---- the catalogue ----

  /** Each slug stands for its last stack. */
  function CatalogOf(stacks: seq<Stack>): Catalog
  {
    if stacks == [] then map[] else
      var x := stacks[|stacks| - 1];
      CatalogOf(stacks[..|stacks| - 1])[x.slug := x]
  }

  /** The last stack with its slug. */
  predicate Last(stacks: seq<Stack>, i: nat)
  {
    i < |stacks| && forall j :: i < j < |stacks| ==> stacks[j].slug != stacks[i].slug
  }

  function LockedSlugs(stacks: seq<Stack>): set<Text>
  {
    set i | 0 <= i < |stacks| && stacks[i].locked :: stacks[i].slug
  }

  method Index(stacks: seq<Stack>) returns (cat: Catalog)
    ensures cat == CatalogOf(stacks)
  {
    cat := map[];
    for k := 0 to |stacks|
      invariant cat == CatalogOf(stacks[..k])
    {
      assert stacks[..k + 1][..k] == stacks[..k];
      cat := cat[stacks[k].slug := stacks[k]];
    }
    assert stacks[..|stacks|] == stacks;
  }

  /** The catalogue holds the last stack of each slug … */
  lemma {:induction false} LastIsCatalogued(stacks: seq<Stack>, i: nat)
    requires Last(stacks, i)
    ensures stacks[i].slug in CatalogOf(stacks) && CatalogOf(stacks)[stacks[i].slug] == stacks[i]
    decreases |stacks|
  {
    var n := |stacks| - 1;
    if i < n {
      LastIsCatalogued(stacks[..n], i);
    }
  }

  /** … and nothing else. */
  lemma {:induction false} CataloguedIsLast(stacks: seq<Stack>, s: Text) returns (i: nat)
    requires s in CatalogOf(stacks)
    ensures Last(stacks, i) && stacks[i] == CatalogOf(stacks)[s] && stacks[i].slug == s
    decreases |stacks|
  {
    i := |stacks| - 1;
    if s != stacks[i].slug {
      i := CataloguedIsLast(stacks[..i], s);
    }
  }

  // ---- the closure ----

  /** A set of known stacks that holds the known seeds and everything its members depend on. */
  ghost predicate Closes(cat: Catalog, seeds: set<Text>, t: set<Text>)
  {
    && (forall s :: s in seeds && s in cat ==> s in t)
    && (forall s, d :: s in t && s in cat && d in cat[s].dependsOn && d in cat ==> d in t)
  }

  ghost predicate IsClosure(cat: Catalog, seeds: set<Text>, c: set<Text>)
  {
    && c <= cat.Keys && Closes(cat, seeds, c)
    && forall t :: Closes(cat, seeds, t) ==> c <= t
  }

  lemma ClosureUnique(cat: Catalog, seeds: set<Text>, c: set<Text>, d: set<Text>)
    requires IsClosure(cat, seeds, c) && IsClosure(cat, seeds, d)
    ensures c == d
  {
  }

  /** Everything still to be looked at or already in. */
  ghost predicate Draining(cat: Catalog, seeds: set<Text>, todo: seq<Text>, c: set<Text>)
  {
    && c <= cat.Keys
    && (forall s :: s in seeds && s in cat ==> s in c || s in todo)
    && (forall s, d :: s in c && d in cat[s].dependsOn && d in cat ==> d in c || d in todo)
    && (forall t :: Closes(cat, seeds, t) ==> c <= t)
    && (forall t, s :: Closes(cat, seeds, t) && s in todo && s in cat ==> s in t)
  }

  lemma DrainSkip(cat: Catalog, seeds: set<Text>, todo: seq<Text>, c: set<Text>)
    requires todo != [] && Draining(cat, seeds, todo, c)
    requires todo[|todo| - 1] in c || todo[|todo| - 1] !in cat
    ensures Draining(cat, seeds, todo[..|todo| - 1], c)
  {
    var n := |todo| - 1;
    assert todo == todo[..n] + [todo[n]];
  }

  lemma DrainTake(cat: Catalog, seeds: set<Text>, todo: seq<Text>, c: set<Text>)
    requires todo != [] && Draining(cat, seeds, todo, c)
    requires todo[|todo| - 1] !in c && todo[|todo| - 1] in cat
    ensures
      var s := todo[|todo| - 1];
      Draining(cat, seeds, todo[..|todo| - 1] + cat[s].dependsOn, c + {s})
  {
    var n := |todo| - 1;
    var s, rest := todo[n], todo[..n];
    assert todo == rest + [s];
    var next := rest + cat[s].dependsOn;
    forall x | x in todo ensures x == s || x in next {
    }
    forall t, x | Closes(cat, seeds, t) && x in next && x in cat ensures x in t {
      assert s in todo && s in t;
      assert x in rest || x in cat[s].dependsOn;
    }
  }

  lemma DrainStart(cat: Catalog, seeds: seq<Text>)
    ensures Draining(cat, Elems(seeds), seeds, {})
  {
  }

  lemma DrainEnd(cat: Catalog, seeds: set<Text>, c: set<Text>)
    requires Draining(cat, seeds, [], c)
    ensures IsClosure(cat, seeds, c)
  {
  }

  /** The selected slugs and everything they need, depth first. */
  method Closure(cat: Catalog, seeds: seq<Text>) returns (c: set<Text>)
    ensures IsClosure(cat, Elems(seeds), c)
  {
    hide Draining, IsClosure, Elems;
    c := {};
    var todo := seeds;
    DrainStart(cat, seeds);
    while todo != []
      invariant Draining(cat, Elems(seeds), todo, c)
      decreases |cat.Keys - c|, |todo|
    {
      var n := |todo| - 1;
      var slug := todo[n];
      if slug in c || slug !in cat {
        DrainSkip(cat, Elems(seeds), todo, c);
        todo := todo[..n];
        continue;
      }
      DrainTake(cat, Elems(seeds), todo, c);
      assert cat.Keys - (c + {slug}) == cat.Keys - c - {slug};
      todo := todo[..n] + cat[slug].dependsOn;
      c := c + {slug};
    }
    DrainEnd(cat, Elems(seeds), c);
  }

  // ---- what must come first ----

  function Deps(cat: Catalog, locked: set<Text>, c: set<Text>, s: Text): set<Text>
    requires s in cat
  {
    (set d | d in cat[s].dependsOn && d in c) + if cat[s].locked then {} else locked * c
  }

  /** Locked first, then sort order, then slug. */
  predicate KeyLess(cat: Catalog, a: Text, b: Text)
    requires a in cat && b in cat
  {
    var x, y := cat[a], cat[b];
    if x.locked != y.locked then x.locked
    else x.sortOrder < y.sortOrder || (x.sortOrder == y.sortOrder && Less(a, b))
  }

  lemma KeyLessTotal(cat: Catalog, a: Text, b: Text)
    requires a in cat && b in cat
    ensures KeyLess(cat, a, b) || a == b || KeyLess(cat, b, a)
    ensures !(KeyLess(cat, a, b) && KeyLess(cat, b, a)) && !KeyLess(cat, a, a)
  {
    LessTotal(a, b);
    LessTotal(a, a);
  }

  lemma KeyLessTransitive(cat: Catalog, a: Text, b: Text, c: Text)
    requires a in cat && b in cat && c in cat && KeyLess(cat, a, b) && KeyLess(cat, b, c)
    ensures KeyLess(cat, a, c)
  {
    if Less(a, b) && Less(b, c) {
      LessTransitive(a, b, c);
    }
  }

  predicate Ready(cat: Catalog, locked: set<Text>, c: set<Text>, done: set<Text>, s: Text)
    requires c <= cat.Keys
  {
    s in c && s !in done && Deps(cat, locked, c, s) <= done
  }

  /** s is the ready slug with the least key. */
  ghost predicate IsPick(cat: Catalog, locked: set<Text>, c: set<Text>, done: set<Text>, s: Text)
    requires c <= cat.Keys
  {
    && Ready(cat, locked, c, done, s)
    && forall t :: Ready(cat, locked, c, done, t) ==> t == s || KeyLess(cat, s, t)
  }

  lemma PickUnique(cat: Catalog, locked: set<Text>, c: set<Text>, done: set<Text>, s: Text, t: Text)
    requires c <= cat.Keys && IsPick(cat, locked, c, done, s) && IsPick(cat, locked, c, done, t)
    ensures s == t
  {
    KeyLessTotal(cat, s, t);
  }

  /** Every element was the pick when its turn came. */
  ghost predicate Greedy(cat: Catalog, locked: set<Text>, c: set<Text>, order: seq<Text>)
    requires c <= cat.Keys
  {
    forall i :: 0 <= i < |order| ==> IsPick(cat, locked, c, Elems(order[..i]), order[i])
  }

  ghost predicate Stuck(cat: Catalog, locked: set<Text>, c: set<Text>, done: set<Text>)
    requires c <= cat.Keys
  {
    forall s :: s in c ==> !Ready(cat, locked, c, done, s)
  }

  /** The result of the loop: greedy, and going on as long as anything is ready. */
  ghost predicate Resolved(cat: Catalog, locked: set<Text>, c: set<Text>, order: seq<Text>)
    requires c <= cat.Keys
  {
    Greedy(cat, locked, c, order) && Stuck(cat, locked, c, Elems(order))
  }

  lemma {:induction false} SamePrefix(cat: Catalog, locked: set<Text>, c: set<Text>, p: seq<Text>, q: seq<Text>, n: nat)
    requires c <= cat.Keys && Greedy(cat, locked, c, p) && Greedy(cat, locked, c, q) && n <= |p| && n <= |q|
    ensures p[..n] == q[..n]
    decreases n
  {
    hide IsPick, Elems;
    if n > 0 {
      SamePrefix(cat, locked, c, p, q, n - 1);
      assert IsPick(cat, locked, c, Elems(p[..n - 1]), p[n - 1]);
      assert IsPick(cat, locked, c, Elems(q[..n - 1]), q[n - 1]);
      PickUnique(cat, locked, c, Elems(p[..n - 1]), p[n - 1], q[n - 1]);
      assert p[..n] == p[..n - 1] + [p[n - 1]] && q[..n] == q[..n - 1] + [q[n - 1]];
    }
  }

  /** The order is determined by catalogue, locked slugs and closure. */
  lemma ResolvedUnique(cat: Catalog, locked: set<Text>, c: set<Text>, p: seq<Text>, q: seq<Text>)
    requires c <= cat.Keys && Resolved(cat, locked, c, p) && Resolved(cat, locked, c, q)
    ensures p == q
  {
    hide IsPick;
    var n := if |p| < |q| then |p| else |q|;
    SamePrefix(cat, locked, c, p, q, n);
    if |p| < |q| {
      StopsAtEnd(cat, locked, c, p, q);
    } else if |q| < |p| {
      StopsAtEnd(cat, locked, c, q, p);
    }
    assert p[..n] == p && q[..n] == q;
  }

  lemma StopsAtEnd(cat: Catalog, locked: set<Text>, c: set<Text>, p: seq<Text>, q: seq<Text>)
    requires c <= cat.Keys && Resolved(cat, locked, c, p) && Greedy(cat, locked, c, q)
    ensures !(|p| < |q| && p == q[..|p|])
  {
    if |p| < |q| {
      assert IsPick(cat, locked, c, Elems(q[..|p|]), q[|p|]);
    }
  }

  // ---- what the order is good for ----

  /** A sequence in which everything comes after what it needs. */
  ghost predicate DepsFirst(cat: Catalog, locked: set<Text>, c: set<Text>, order: seq<Text>)
    requires c <= cat.Keys
  {
    forall i :: 0 <= i < |order| ==> order[i] in c && Deps(cat, locked, c, order[i]) <= Elems(order[..i])
  }

  /** An install order of the whole closure. */
  ghost predicate InstallOrder(cat: Catalog, locked: set<Text>, c: set<Text>, order: seq<Text>)
    requires c <= cat.Keys
  {
    NoDuplicates(order) && Elems(order) == c && DepsFirst(cat, locked, c, order)
  }

  lemma GreedyIsOrdered(cat: Catalog, locked: set<Text>, c: set<Text>, order: seq<Text>)
    requires c <= cat.Keys && Greedy(cat, locked, c, order)
    ensures NoDuplicates(order) && Elems(order) <= c && DepsFirst(cat, locked, c, order)
  {
    hide Deps;
    forall i | 0 <= i < |order| ensures order[i] in c && Deps(cat, locked, c, order[i]) <= Elems(order[..i]) {
      assert IsPick(cat, locked, c, Elems(order[..i]), order[i]);
    }
    forall i, j | 0 <= i < j < |order| ensures order[i] != order[j] {
      assert order[i] == order[..j][i];
      assert order[i] in Elems(order[..j]);
      assert IsPick(cat, locked, c, Elems(order[..j]), order[j]);
    }
  }

  /** As long as an install order exists, something outside `done` is ready. */
  lemma SomethingReady(cat: Catalog, locked: set<Text>, c: set<Text>, done: set<Text>, order: seq<Text>, k: nat)
    returns (s: Text)
    requires c <= cat.Keys && InstallOrder(cat, locked, c, order)
    requires k < |order| && order[k] !in done
    ensures Ready(cat, locked, c, done, s)
    decreases k
  {
    if Elems(order[..k]) <= done {
      s := order[k];
    } else {
      var x :| x in order[..k] && x !in done;
      var j :| 0 <= j < k && order[j] == x;
      s := SomethingReady(cat, locked, c, done, order, j);
    }
  }

  /** The loop completes exactly when an install order exists, and then has found one. */
  lemma CompleteIffPossible(cat: Catalog, locked: set<Text>, c: set<Text>, order: seq<Text>)
    requires c <= cat.Keys && Resolved(cat, locked, c, order)
    ensures Elems(order) == c ==> InstallOrder(cat, locked, c, order)
    ensures Elems(order) != c ==> !exists o :: InstallOrder(cat, locked, c, o)
  {
    GreedyIsOrdered(cat, locked, c, order);
    if Elems(order) != c {
      forall o | InstallOrder(cat, locked, c, o) ensures false {
        var x :| x in c && x !in Elems(order);
        assert x in Elems(o);
        var k :| 0 <= k < |o| && o[k] == x;
        var s := SomethingReady(cat, locked, c, Elems(order), o, k);
      }
    }
  }

  /** Every slug reported as part of a cycle waits for another reported one. */
  lemma ReportedAreBlocked(cat: Catalog, locked: set<Text>, c: set<Text>, order: seq<Text>, s: Text)
    requires c <= cat.Keys && Resolved(cat, locked, c, order) && s in c - Elems(order)
    ensures Deps(cat, locked, c, s) * (c - Elems(order)) != {}
  {
    assert !Ready(cat, locked, c, Elems(order), s);
    var d :| d in Deps(cat, locked, c, s) && d !in Elems(order);
    assert d in Deps(cat, locked, c, s) * (c - Elems(order));
  }

  /** All locked stacks precede all unlocked ones. */
  lemma LockedFirst(stacks: seq<Stack>, c: set<Text>, order: seq<Text>, i: nat, j: nat)
    requires c <= CatalogOf(stacks).Keys
    requires InstallOrder(CatalogOf(stacks), LockedSlugs(stacks), c, order) && i < j < |order|
    ensures CatalogOf(stacks)[order[j]].locked ==> CatalogOf(stacks)[order[i]].locked
  {
    hide CatalogOf;
    var cat := CatalogOf(stacks);
    if cat[order[j]].locked {
      LockedListed(stacks, order[j]);
    }
    assert order[j] !in Elems(order[..i]);
    assert Deps(cat, LockedSlugs(stacks), c, order[i]) <= Elems(order[..i]);
  }

  lemma LockedListed(stacks: seq<Stack>, s: Text)
    requires s in CatalogOf(stacks) && CatalogOf(stacks)[s].locked
    ensures s in LockedSlugs(stacks)
  {
    var k := CataloguedIsLast(stacks, s);
    assert stacks[k].locked;
  }

  // ---- the same in the stacks' own fields ----

  /** s waits for d: it names it, or is unlocked while d is locked. */
  predicate Needs(cat: Catalog, locked: set<Text>, s: Text, d: Text)
    requires s in cat
  {
    d in cat[s].dependsOn || (!cat[s].locked && d in locked)
  }

  /** Everything is placed once, after all it needs. */
  ghost predicate Plan(cat: Catalog, locked: set<Text>, c: set<Text>, order: seq<Text>)
    requires c <= cat.Keys
  {
    && NoDuplicates(order) && Elems(order) == c
    && forall i, d :: 0 <= i < |order| && d in c && order[i] in cat && Needs(cat, locked, order[i], d) ==> d in order[..i]
  }

  lemma DepsAreNeeds(cat: Catalog, locked: set<Text>, c: set<Text>, s: Text, d: Text)
    requires s in cat
    ensures d in Deps(cat, locked, c, s) <==> d in c && Needs(cat, locked, s, d)
  {
  }

  lemma PlanIffInstallOrder(cat: Catalog, locked: set<Text>, c: set<Text>, order: seq<Text>)
    requires c <= cat.Keys
    ensures Plan(cat, locked, c, order) <==> InstallOrder(cat, locked, c, order)
  {
    hide Deps, Needs, NoDuplicates;
    forall i, d | 0 <= i < |order| && order[i] in cat
      ensures d in Deps(cat, locked, c, order[i]) <==> d in c && Needs(cat, locked, order[i], d)
    {
      DepsAreNeeds(cat, locked, c, order[i], d);
    }
    if Plan(cat, locked, c, order) {
      forall i | 0 <= i < |order| ensures order[i] in c && Deps(cat, locked, c, order[i]) <= Elems(order[..i]) {
        assert order[i] in Elems(order);
        forall d | d in Deps(cat, locked, c, order[i]) ensures d in order[..i] {
          DepsAreNeeds(cat, locked, c, order[i], d);
        }
      }
    }
  }

  /** A cycle is reported exactly when no plan exists; otherwise the result is one. */
  lemma NoCycleIffPlan(cat: Catalog, locked: set<Text>, c: set<Text>, order: seq<Text>)
    requires c <= cat.Keys && Resolved(cat, locked, c, order)
    ensures c - Elems(order) == {} <==> exists o :: Plan(cat, locked, c, o)
    ensures c - Elems(order) == {} ==> Plan(cat, locked, c, order)
  {
    hide Plan, InstallOrder, Resolved;
    CompleteIffPossible(cat, locked, c, order);
    PlanIffInstallOrder(cat, locked, c, order);
    WithinClosure(cat, locked, c, order);
    forall o | Plan(cat, locked, c, o) ensures InstallOrder(cat, locked, c, o) {
      PlanIffInstallOrder(cat, locked, c, o);
    }
  }

  lemma WithinClosure(cat: Catalog, locked: set<Text>, c: set<Text>, order: seq<Text>)
    requires c <= cat.Keys && Resolved(cat, locked, c, order)
    ensures Elems(order) <= c && (c - Elems(order) == {} <==> Elems(order) == c)
  {
    GreedyIsOrdered(cat, locked, c, order);
    var done := Elems(order);
    if c - done == {} {
      forall x | x in c ensures x in done {
        assert x !in c - done;
      }
    }
  }

  /** Everything needed is placed before. */
  lemma NeedsFirst(cat: Catalog, locked: set<Text>, c: set<Text>, order: seq<Text>, i: nat, d: Text)
    requires c <= cat.Keys && Resolved(cat, locked, c, order) && i < |order|
    ensures order[i] in c && (d in c && Needs(cat, locked, order[i], d) ==> d in order[..i])
  {
    hide Needs, Deps;
    GreedyIsOrdered(cat, locked, c, order);
    assert order[i] in c;
    DepsAreNeeds(cat, locked, c, order[i], d);
  }

  /** Every reported slug waits for a reported one. */
  lemma ReportedWaits(cat: Catalog, locked: set<Text>, c: set<Text>, order: seq<Text>, s: Text) returns (d: Text)
    requires c <= cat.Keys && Resolved(cat, locked, c, order) && s in c - Elems(order)
    ensures d in c - Elems(order) && Needs(cat, locked, s, d)
  {
    hide Needs, Deps;
    ReportedAreBlocked(cat, locked, c, order, s);
    d :| d in Deps(cat, locked, c, s) * (c - Elems(order));
    DepsAreNeeds(cat, locked, c, s, d);
  }

  /** Locked before unlocked, then the smaller sort order, then the slug that comes first. */
  ghost predicate ComesFirst(cat: Catalog, a: Text, b: Text)
    requires a in cat && b in cat
  {
    || (cat[a].locked && !cat[b].locked)
    || (cat[a].locked == cat[b].locked && cat[a].sortOrder < cat[b].sortOrder)
    || (cat[a].locked == cat[b].locked && cat[a].sortOrder == cat[b].sortOrder && Precedes(a, b))
  }

  lemma KeyLessIsFirst(cat: Catalog, a: Text, b: Text)
    requires a in cat && b in cat && KeyLess(cat, a, b)
    ensures ComesFirst(cat, a, b)
  {
    hide Less, Precedes;
    LessIsPrecedes(a, b);
  }

  /** A slug placed while another could have been placed as well comes first by the key. */
  lemma ResolvedIsSorted(cat: Catalog, locked: set<Text>, c: set<Text>, order: seq<Text>, i: nat, j: nat)
    requires c <= cat.Keys && Resolved(cat, locked, c, order) && i < j < |order|
    requires order[j] in cat && forall d :: d in c && Needs(cat, locked, order[j], d) ==> d in order[..i]
    ensures order[i] in cat && ComesFirst(cat, order[i], order[j])
  {
    hide KeyLess, Deps, Needs, ComesFirst;
    GreedyIsOrdered(cat, locked, c, order);
    var done := Elems(order[..i]);
    assert IsPick(cat, locked, c, done, order[i]);
    forall d | d in Deps(cat, locked, c, order[j]) ensures d in done {
      DepsAreNeeds(cat, locked, c, order[j], d);
    }
    assert order[j] in Elems(order) && order[j] !in order[..i];
    assert Ready(cat, locked, c, done, order[j]);
    KeyLessIsFirst(cat, order[i], order[j]);
  }

  /** Without dependencies inside the closure the whole result is sorted by the key. */
  lemma IndependentIsSorted(cat: Catalog, locked: set<Text>, c: set<Text>, order: seq<Text>, i: nat, j: nat)
    requires c <= cat.Keys && Resolved(cat, locked, c, order) && i < j < |order|
    requires forall s, d :: s in c && d in c ==> d !in cat[s].dependsOn
    ensures order[i] in cat && order[j] in cat && ComesFirst(cat, order[i], order[j])
  {
    hide Resolved;
    NeedsFirst(cat, locked, c, order, i, order[i]);
    NeedsFirst(cat, locked, c, order, j, order[j]);
    if !(cat[order[i]].locked && !cat[order[j]].locked) {
      forall d | d in c && Needs(cat, locked, order[j], d) ensures d in order[..i] {
        NeedsFirst(cat, locked, c, order, i, d);
      }
      ResolvedIsSorted(cat, locked, c, order, i, j);
    }
  }

  /** The slug is listed as locked, but the stack it stands for is not. */
  ghost predicate Mixed(stacks: seq<Stack>, s: Text)
  {
    && (exists i :: 0 <= i < |stacks| && stacks[i].slug == s && stacks[i].locked)
    && (exists i: nat :: Last(stacks, i) && stacks[i].slug == s && !stacks[i].locked)
  }

  /** A slug waits for itself exactly when it depends on itself or is listed both ways. */
  lemma WaitsForItself(stacks: seq<Stack>, c: set<Text>, s: Text)
    requires c <= CatalogOf(stacks).Keys && s in c
    ensures s in Deps(CatalogOf(stacks), LockedSlugs(stacks), c, s)
            <==> s in CatalogOf(stacks)[s].dependsOn || Mixed(stacks, s)
  {
    hide CatalogOf;
    var cat := CatalogOf(stacks);
    var k := CataloguedIsLast(stacks, s);
    if !cat[s].locked && s in LockedSlugs(stacks) {
      var i :| 0 <= i < |stacks| && stacks[i].locked && stacks[i].slug == s;
      assert Mixed(stacks, s);
    }
  }

  /** And then the resolution always reports it. */
  lemma MixedDuplicateBlocks(stacks: seq<Stack>, c: set<Text>, order: seq<Text>, s: Text)
    requires c <= CatalogOf(stacks).Keys && Resolved(CatalogOf(stacks), LockedSlugs(stacks), c, order)
    requires s in c && (s in CatalogOf(stacks)[s].dependsOn || Mixed(stacks, s))
    ensures s in c - Elems(order)
  {
    hide CatalogOf, Mixed, Deps;
    WaitsForItself(stacks, c, s);
    var cat, locked := CatalogOf(stacks), LockedSlugs(stacks);
    forall i | 0 <= i < |order| ensures order[i] != s {
      assert IsPick(cat, locked, c, Elems(order[..i]), order[i]);
    }
  }

  // ---- the loops ----

  /** The ready slugs, and the first of them in key order. */
  method PickReady(cat: Catalog, locked: set<Text>, c: set<Text>, done: set<Text>) returns (found: bool, s: Text)
    requires c <= cat.Keys
    ensures found ==> IsPick(cat, locked, c, done, s)
    ensures !found ==> Stuck(cat, locked, c, done)
  {
    hide KeyLess, Deps;
    found, s := false, [];
    var rest := c;
    while rest != {}
      invariant rest <= c
      invariant found ==> Ready(cat, locked, c, done, s)
      invariant forall t :: t in c && t !in rest && Ready(cat, locked, c, done, t) ==> found && (t == s || KeyLess(cat, s, t))
    {
      var t :| t in rest;
      rest := rest - {t};
      if t !in done && Deps(cat, locked, c, t) <= done {
        if found {
          KeyLessTotal(cat, s, t);
          if KeyLess(cat, t, s) {
            Displace(cat, t, s);
            s := t;
          }
        } else {
          found, s := true, t;
        }
      }
    }
  }

  lemma Displace(cat: Catalog, t: Text, s: Text)
    requires t in cat && s in cat && KeyLess(cat, t, s)
    ensures forall u :: u in cat && KeyLess(cat, s, u) ==> KeyLess(cat, t, u)
  {
    forall u | u in cat && KeyLess(cat, s, u) ensures KeyLess(cat, t, u) {
      KeyLessTransitive(cat, t, s, u);
    }
  }

  lemma GreedyNext(cat: Catalog, locked: set<Text>, c: set<Text>, order: seq<Text>, s: Text)
    requires c <= cat.Keys && Greedy(cat, locked, c, order) && IsPick(cat, locked, c, Elems(order), s)
    ensures Greedy(cat, locked, c, order + [s]) && Elems(order + [s]) == Elems(order) + {s}
  {
    hide IsPick;
    var longer := order + [s];
    forall i | 0 <= i < |longer| ensures IsPick(cat, locked, c, Elems(longer[..i]), longer[i]) {
      if i < |order| {
        assert longer[..i] == order[..i];
      } else {
        assert longer[..i] == order;
      }
    }
  }

  lemma {:induction false} ElemsSize(q: seq<Text>)
    requires NoDuplicates(q)
    ensures |Elems(q)| == |q|
    decreases |q|
  {
    if q != [] {
      var n := |q| - 1;
      ElemsSize(q[..n]);
      assert Elems(q) == Elems(q[..n]) + {q[n]} by {
        assert q == q[..n] + [q[n]];
      }
      assert q[n] !in q[..n];
    }
  }

  /** resolveOrder: the greedy order, and whatever is left over when it gets stuck. */
  method ResolveOrder(stacks: seq<Stack>, selected: seq<Text>)
    returns (order: seq<Text>, cycle: set<Text>, ghost c: set<Text>)
    ensures IsClosure(CatalogOf(stacks), Elems(selected) + LockedSlugs(stacks), c)
    ensures c <= CatalogOf(stacks).Keys && Resolved(CatalogOf(stacks), LockedSlugs(stacks), c, order)
    ensures cycle == c - Elems(order)
  {
    hide Greedy, Stuck, IsPick, CatalogOf, IsClosure;
    var cat := Index(stacks);
    var lockedList := ListLocked(stacks);
    var locked := Elems(lockedList);
    var closure := Closure(cat, selected + lockedList);
    c := closure;
    assert Elems(selected + lockedList) == Elems(selected) + LockedSlugs(stacks);
    ClosureKnown(cat, Elems(selected + lockedList), closure);
    order := [];
    cycle := {};
    NothingYet(cat, locked, closure);
    while |order| < |closure|
      invariant Greedy(cat, locked, closure, order)
      decreases |closure| - |order|
    {
      var found, s := PickReady(cat, locked, closure, Elems(order));
      if !found {
        cycle := closure - Elems(order);
        return;
      }
      GreedyNext(cat, locked, closure, order, s);
      order := order + [s];
    }
    AllPlaced(cat, locked, closure, order);
  }

  lemma ClosureKnown(cat: Catalog, seeds: set<Text>, c: set<Text>)
    requires IsClosure(cat, seeds, c)
    ensures c <= cat.Keys
  {
  }

  lemma NothingYet(cat: Catalog, locked: set<Text>, c: set<Text>)
    requires c <= cat.Keys
    ensures Greedy(cat, locked, c, [])
  {
  }

  lemma AllPlaced(cat: Catalog, locked: set<Text>, c: set<Text>, order: seq<Text>)
    requires c <= cat.Keys && Greedy(cat, locked, c, order) && |order| >= |c|
    ensures Elems(order) == c && Stuck(cat, locked, c, Elems(order))
  {
    GreedyIsOrdered(cat, locked, c, order);
    ElemsSize(order);
    SameSize(Elems(order), c);
  }

  lemma SameSize(a: set<Text>, b: set<Text>)
    requires a <= b && |a| >= |b|
    ensures a == b
  {
    if a != b {
      var x :| x in b && x !in a;
      assert a <= b - {x};
      SubsetSize(a, b - {x});
    }
  }

  method ListLocked(stacks: seq<Stack>) returns (l: seq<Text>)
    ensures Elems(l) == LockedSlugs(stacks)
  {
    l := [];
    for i := 0 to |stacks|
      invariant forall s :: s in l <==> exists k :: 0 <= k < i && stacks[k].locked && stacks[k].slug == s
    {
      if stacks[i].locked {
        l := l + [stacks[i].slug];
      }
    }
  }

  // ---- when the input's order matters ----

  /** Every slug's last stack is among the other list's last stacks. */
  ghost predicate LastIn(stacks: seq<Stack>, other: seq<Stack>)
  {
    forall i: nat :: Last(stacks, i) ==> exists j: nat :: Last(other, j) && other[j] == stacks[i]
  }

  lemma CatalogIn(stacks: seq<Stack>, other: seq<Stack>, s: Text)
    requires LastIn(stacks, other) && s in CatalogOf(stacks)
    ensures s in CatalogOf(other) && CatalogOf(other)[s] == CatalogOf(stacks)[s]
  {
    hide CatalogOf;
    var i := CataloguedIsLast(stacks, s);
    var j: nat :| Last(other, j) && other[j] == stacks[i];
    LastIsCatalogued(other, j);
  }

  lemma SameCatalog(stacks: seq<Stack>, other: seq<Stack>)
    requires LastIn(stacks, other) && LastIn(other, stacks)
    ensures CatalogOf(stacks) == CatalogOf(other)
  {
    hide CatalogOf, LastIn;
    forall s | s in CatalogOf(stacks) ensures s in CatalogOf(other) && CatalogOf(other)[s] == CatalogOf(stacks)[s] {
      CatalogIn(stacks, other, s);
    }
    forall s | s in CatalogOf(other) ensures s in CatalogOf(stacks) {
      CatalogIn(other, stacks, s);
    }
  }

  lemma SameLocked(stacks: seq<Stack>, other: seq<Stack>)
    requires forall x :: x in stacks ==> x in other
    ensures LockedSlugs(stacks) <= LockedSlugs(other)
  {
    forall s | s in LockedSlugs(stacks) ensures s in LockedSlugs(other) {
      var i :| 0 <= i < |stacks| && stacks[i].locked && stacks[i].slug == s;
      assert stacks[i] in other;
    }
  }

  /**
   As long as the last stack of each slug is the same, the result depends only on which stacks
   there are and which are selected.
   */
  lemma InputOrderIgnored(stacks: seq<Stack>, other: seq<Stack>, selected: seq<Text>, selected': seq<Text>,
                          c: set<Text>, c': set<Text>, order: seq<Text>, order': seq<Text>)
    requires LastIn(stacks, other) && LastIn(other, stacks)
    requires (forall x :: x in stacks <==> x in other) && Elems(selected) == Elems(selected')
    requires IsClosure(CatalogOf(stacks), Elems(selected) + LockedSlugs(stacks), c) && c <= CatalogOf(stacks).Keys
    requires IsClosure(CatalogOf(other), Elems(selected') + LockedSlugs(other), c') && c' <= CatalogOf(other).Keys
    requires Resolved(CatalogOf(stacks), LockedSlugs(stacks), c, order)
    requires Resolved(CatalogOf(other), LockedSlugs(other), c', order')
    ensures order == order' && c == c'
  {
    hide CatalogOf, LastIn;
    SameCatalog(stacks, other);
    SameLocked(stacks, other);
    SameLocked(other, stacks);
    ClosureUnique(CatalogOf(stacks), Elems(selected) + LockedSlugs(stacks), c, c');
    ResolvedUnique(CatalogOf(stacks), LockedSlugs(stacks), c, order, order');
  }

  predicate UniqueSlugs(stacks: seq<Stack>)
  {
    forall i, j :: 0 <= i < j < |stacks| ==> stacks[i].slug != stacks[j].slug
  }

  /** With unique slugs every stack is the last of its slug, so nothing but the set of stacks matters. */
  lemma UniqueSlugsAgree(stacks: seq<Stack>, other: seq<Stack>)
    requires UniqueSlugs(stacks) && UniqueSlugs(other) && forall x :: x in stacks ==> x in other
    ensures LastIn(stacks, other)
  {
    forall i: nat | Last(stacks, i)
      ensures exists j: nat :: Last(other, j) && other[j] == stacks[i]
    {
      assert stacks[i] in other;
      var j :| 0 <= j < |other| && other[j] == stacks[i];
      assert Last(other, j);
    }
  }

  /** One slug, listed locked and unlocked: resolved when the locked stack is last, a cycle when it is first. */
  lemma OrderMatters(slug: Text)
    ensures
      var on, off := Stack(slug, true, 0, []), Stack(slug, false, 0, []);
      var kept, lost := [off, on], [on, off];
      && IsClosure(CatalogOf(kept), LockedSlugs(kept), {slug}) && IsClosure(CatalogOf(lost), LockedSlugs(lost), {slug})
      && {slug} <= CatalogOf(kept).Keys && Resolved(CatalogOf(kept), LockedSlugs(kept), {slug}, [slug])
      && {slug} <= CatalogOf(lost).Keys && Resolved(CatalogOf(lost), LockedSlugs(lost), {slug}, [])
  {
    var on, off := Stack(slug, true, 0, []), Stack(slug, false, 0, []);
    TwoListed(off, on);
    TwoListed(on, off);
    hide CatalogOf, LockedSlugs;
    LoneClosure(on, {slug});
    LoneClosure(off, {slug});
    LoneLocked(on);
    LoneBlocked(off);
  }

  lemma TwoListed(x: Stack, y: Stack)
    requires x.slug == y.slug && x.locked != y.locked
    ensures CatalogOf([x, y]) == map[y.slug := y] && LockedSlugs([x, y]) == {y.slug}
  {
    var stacks := [x, y];
    assert stacks[..1] == [x] && [x][..0] == [];
    assert CatalogOf([x]) == map[x.slug := x];
    var k := if x.locked then 0 else 1;
    assert stacks[k].locked && stacks[k].slug == y.slug;
  }

  lemma LoneClosure(x: Stack, seeds: set<Text>)
    requires x.dependsOn == [] && seeds == {x.slug}
    ensures IsClosure(map[x.slug := x], seeds, {x.slug})
  {
  }

  lemma LoneLocked(x: Stack)
    requires x.locked && x.dependsOn == []
    ensures Resolved(map[x.slug := x], {x.slug}, {x.slug}, [x.slug])
  {
    var order := [x.slug];
    assert order[..0] == [];
    assert Deps(map[x.slug := x], {x.slug}, {x.slug}, x.slug) == {};
    assert IsPick(map[x.slug := x], {x.slug}, {x.slug}, Elems(order[..0]), order[0]);
    assert x.slug in Elems(order);
  }

  lemma LoneBlocked(x: Stack)
    requires !x.locked
    ensures Resolved(map[x.slug := x], {x.slug}, {x.slug}, [])
  {
    assert x.slug in Deps(map[x.slug := x], {x.slug}, {x.slug}, x.slug);
  }
}
