/** The inventory snapshot cache and the paged reads behind it. */
module Inventory {

  import opened Options

  // ---- the cache ----

  /** A started load: when, under which generation, and whether it has settled. */
  datatype Load = Load(start: nat, generation: nat, settled: bool)

  /** The promise handed to a caller: a load still running, or one that has been cached. */
  datatype Answer = Pending(l: nat) | Cached(l: nat)

  datatype Cache = Cache(
    clock: nat,
    generation: nat,
    snapshot: Option<nat>,
    snapshotAt: int,
    load: Option<nat>,
    loads: seq<Load>,
    invalidatedAt: nat)

  const COLD: Cache := Cache(0, 0, None, 0, None, [], 0)

  datatype Event =
    | Fetch(force: bool, now: int)
    | Succeed(l: nat, now: int)
    | Fail(l: nat)
    | Invalidate

  /** What fetchInventorySnapshot returns. */
  function AnswerOf(c: Cache, force: bool, now: int): Answer
  {
    if c.load.Some? then Pending(c.load.value)
    else if !force && c.snapshot.Some? && now - c.snapshotAt < 5000 then Cached(c.snapshot.value)
    else Pending(|c.loads|)
  }

  function Settled(c: Cache, l: nat): Cache
    requires l < |c.loads|
  {
    c.(loads := c.loads[l := c.loads[l].(settled := true)])
  }

  function Next(c: Cache, e: Event): Cache
  {
    var t := c.(clock := c.clock + 1);
    match e
    case Fetch(force, now) =>
      if AnswerOf(c, force, now) == Pending(|c.loads|)
      then t.(loads := c.loads + [Load(c.clock, c.generation, false)], load := Some(|c.loads|))
      else t
    case Succeed(l, now) =>
      if l >= |c.loads| || c.loads[l].settled then t
      else if c.loads[l].generation == c.generation
      then Settled(t, l).(snapshot := Some(l), snapshotAt := now, load := None)
      else Settled(t, l)
    case Fail(l) =>
      if l >= |c.loads| || c.loads[l].settled then t
      else if c.loads[l].generation == c.generation then Settled(t, l).(load := None)
      else Settled(t, l)
    case Invalidate =>
      t.(generation := c.generation + 1, snapshot := None, snapshotAt := 0, load := None, invalidatedAt := c.clock)
  }

  function Run(events: seq<Event>): Cache
  {
    if events == [] then COLD else Next(Run(events[..|events| - 1]), events[|events| - 1])
  }

  /** Began under the present generation. */
  predicate Current(c: Cache, l: nat)
  {
    l < |c.loads| && c.loads[l].generation == c.generation
  }

  ghost predicate Inv(c: Cache)
  {
    && (forall l :: 0 <= l < |c.loads| ==> c.loads[l].start < c.clock && c.loads[l].generation <= c.generation)
    && (forall l :: 0 <= l < |c.loads| ==> (c.loads[l].generation == c.generation <==> Began(c, l)))
    && (c.generation > 0 ==> c.invalidatedAt < c.clock)
    && (c.snapshot.Some? ==> Current(c, c.snapshot.value) && c.loads[c.snapshot.value].settled)
    && (c.load.Some? ==> Current(c, c.load.value) && !c.loads[c.load.value].settled)
    && (forall l :: 0 <= l < |c.loads| && Current(c, l) && !c.loads[l].settled ==> c.load == Some(l))
  }

  /** The load began after the latest invalidation. */
  predicate Began(c: Cache, l: nat)
    requires l < |c.loads|
  {
    c.generation == 0 || c.loads[l].start > c.invalidatedAt
  }

  /** What both ways of settling do to a load that is still running. */
  lemma SettleKeeps(c: Cache, l: nat, cached: bool, now: int)
    requires Inv(c) && l < |c.loads| && !c.loads[l].settled
    ensures Inv(Next(c, if cached then Succeed(l, now) else Fail(l)))
  {
    var e := if cached then Succeed(l, now) else Fail(l);
    var t := Next(c, e);
    forall m | 0 <= m < |t.loads|
      ensures t.loads[m].start == c.loads[m].start && t.loads[m].generation == c.loads[m].generation
      ensures t.loads[m].settled == (m == l || c.loads[m].settled)
    {
    }
  }

  lemma FetchKeeps(c: Cache, force: bool, now: int)
    requires Inv(c)
    ensures Inv(Next(c, Fetch(force, now)))
  {
    var t := Next(c, Fetch(force, now));
    assert forall m :: 0 <= m < |c.loads| ==> t.loads[m] == c.loads[m] && Current(t, m) == Current(c, m);
  }

  lemma StepKeeps(c: Cache, e: Event)
    requires Inv(c)
    ensures Inv(Next(c, e))
  {
    match e
    case Fetch(force, now) => FetchKeeps(c, force, now);
    case Succeed(l, now) => if l < |c.loads| && !c.loads[l].settled { SettleKeeps(c, l, true, now); }
    case Fail(l) => if l < |c.loads| && !c.loads[l].settled { SettleKeeps(c, l, false, 0); }
    case Invalidate =>
  }

  lemma {:induction false} RunKeeps(events: seq<Event>)
    ensures Inv(Run(events))
    decreases |events|
  {
    if events != [] {
      RunKeeps(events[..|events| - 1]);
      StepKeeps(Run(events[..|events| - 1]), events[|events| - 1]);
    }
  }

  /**
   In every run the cached snapshot and the shared load both began after the latest invalidation,
   and a caller is only ever handed such a load.
   */
  lemma NothingStale(events: seq<Event>, force: bool, now: int)
    ensures
      var c := Run(events);
      && (c.snapshot.Some? ==> c.snapshot.value < |c.loads| && Began(c, c.snapshot.value))
      && (c.load.Some? ==> c.load.value < |c.loads| && Began(c, c.load.value) && !c.loads[c.load.value].settled)
      && var a, d := AnswerOf(c, force, now), Next(c, Fetch(force, now));
         && a.l < |d.loads| && Began(d, a.l) && d.invalidatedAt == c.invalidatedAt
         && (a.Pending? ==> d.load == Some(a.l)) && (a.Cached? ==> d.loads[a.l].settled)
  {
    RunKeeps(events);
    StepKeeps(Run(events), Fetch(force, now));
  }

  /** A load overtaken by an invalidation settles without touching what came after. */
  lemma SupersededIsInert(events: seq<Event>, l: nat, now: int)
    requires
      var c := Run(events);
      l < |c.loads| && !c.loads[l].settled && !Began(c, l)
    ensures
      var c := Run(events);
      forall e :: e == Succeed(l, now) || e == Fail(l) ==>
        var d := Next(c, e);
        d.snapshot == c.snapshot && d.snapshotAt == c.snapshotAt && d.load == c.load && d.generation == c.generation
  {
    RunKeeps(events);
  }

  /** Two callers never run two loads side by side for one state of the data. */
  lemma OneLoadPerGeneration(events: seq<Event>, l: nat, m: nat)
    requires
      var c := Run(events);
      l < |c.loads| && m < |c.loads| && !c.loads[l].settled && !c.loads[m].settled && Began(c, l) && Began(c, m)
    ensures l == m
  {
    RunKeeps(events);
    assert Current(Run(events), l) && Current(Run(events), m);
  }

  // ---- the cache, told by the events alone ----

  lemma {:induction false} ClockCounts(events: seq<Event>)
    ensures Run(events).clock == |events|
    decreases |events|
  {
    if events != [] {
      ClockCounts(events[..|events| - 1]);
    }
  }

  /** No write since event k. */
  predicate Undisturbed(events: seq<Event>, k: nat)
  {
    forall j :: k <= j < |events| ==> events[j] != Invalidate
  }

  lemma {:induction false} InvalidationIsLatest(events: seq<Event>)
    ensures
      var c := Run(events);
      if c.generation == 0 then Undisturbed(events, 0)
      else c.invalidatedAt < |events| && events[c.invalidatedAt] == Invalidate && Undisturbed(events, c.invalidatedAt + 1)
    decreases |events|
  {
    if events != [] {
      InvalidationIsLatest(events[..|events| - 1]);
      ClockCounts(events[..|events| - 1]);
    }
  }

  /** Having begun after the latest invalidation means that no write came since the load was started. */
  lemma BeganIff(events: seq<Event>, l: nat)
    requires l < |Run(events).loads|
    ensures Began(Run(events), l) <==> Undisturbed(events, Run(events).loads[l].start)
  {
    hide Run;
    InvalidationIsLatest(events);
    RunKeeps(events);
    ClockCounts(events);
  }

  predicate Settles(e: Event, l: nat)
  {
    (e.Succeed? || e.Fail?) && e.l == l
  }

  lemma NextLoads(c: Cache, e: Event, l: nat)
    requires l < |Next(c, e).loads|
    ensures
      var load := Next(c, e).loads[l];
      if l < |c.loads| then load.start == c.loads[l].start && (load.settled <==> c.loads[l].settled || Settles(e, l))
      else e.Fetch? && load.start == c.clock && !load.settled
  {
  }

  /** Some event from j on settles the load. */
  ghost predicate SettledSince(events: seq<Event>, from: nat, l: nat)
  {
    exists j :: from < j < |events| && Settles(events[j], l)
  }

  lemma SettledSinceNext(events: seq<Event>, from: nat, l: nat)
    requires events != [] && from < |events| - 1
    ensures
      var n := |events| - 1;
      SettledSince(events, from, l) <==> SettledSince(events[..n], from, l) || Settles(events[n], l)
  {
    var n := |events| - 1;
    var before := events[..n];
    if SettledSince(before, from, l) {
      var j :| from < j < |before| && Settles(before[j], l);
      assert Settles(events[j], l);
    }
    if SettledSince(events, from, l) {
      var j :| from < j < |events| && Settles(events[j], l);
      assert j < n ==> Settles(before[j], l);
    }
  }

  /** A load starts with a fetch and is settled exactly by its success or failure. */
  lemma {:induction false} LoadHistory(events: seq<Event>, l: nat)
    requires l < |Run(events).loads|
    ensures
      var load := Run(events).loads[l];
      && load.start < |events| && events[load.start].Fetch?
      && (load.settled <==> SettledSince(events, load.start, l))
    decreases |events|
  {
    hide Next, SettledSince;
    var n := |events| - 1;
    ClockCounts(events[..n]);
    NextLoads(Run(events[..n]), events[n], l);
    if l < |Run(events[..n]).loads| {
      LoadHistory(events[..n], l);
      SettledSinceNext(events, Run(events).loads[l].start, l);
    } else {
      NotYetSettled(events, l);
    }
  }

  lemma NotYetSettled(events: seq<Event>, l: nat)
    requires events != []
    ensures !SettledSince(events, |events| - 1, l)
  {
  }

  /** Event k is the success of a load that no write has overtaken. */
  ghost predicate Success(events: seq<Event>, k: nat)
  {
    && k < |events| && events[k].Succeed?
    && var c, l := Run(events[..k]), events[k].l;
       l < |c.loads| && !c.loads[l].settled && Undisturbed(events[..k], c.loads[l].start)
  }

  /** The latest such success, if no write came since. */
  ghost predicate Latest(events: seq<Event>, k: nat)
  {
    Success(events, k) && Undisturbed(events, k) && forall j: nat :: k < j ==> !Success(events, j)
  }

  lemma SuccessBefore(events: seq<Event>, k: nat)
    requires k + 1 < |events|
    ensures Success(events, k) <==> Success(events[..|events| - 1], k)
  {
    assert events[..|events| - 1][..k] == events[..k];
  }

  lemma LatestBefore(events: seq<Event>, k: nat)
    requires k + 1 < |events| && events[|events| - 1] != Invalidate && !Success(events, |events| - 1)
    ensures Latest(events, k) <==> Latest(events[..|events| - 1], k)
  {
    hide Success;
    var before := events[..|events| - 1];
    SuccessBefore(events, k);
    forall j: nat | k < j ensures Success(events, j) <==> Success(before, j) {
      if j + 1 < |events| {
        SuccessBefore(events, j);
      } else {
        SuccessInside(events, j);
        SuccessInside(before, j);
      }
    }
    assert forall j :: k <= j < |before| ==> before[j] == events[j];
  }

  lemma SuccessInside(events: seq<Event>, j: nat)
    ensures Success(events, j) ==> j < |events|
  {
  }

  /** What one more event does to the cached snapshot. */
  lemma SnapshotStep(events: seq<Event>)
    requires events != []
    ensures
      var n := |events| - 1;
      var b, c := Run(events[..n]), Run(events);
      if events[n] == Invalidate then c.snapshot == None
      else if Success(events, n) then c.snapshot == Some(events[n].l) && c.snapshotAt == events[n].now
      else c.snapshot == b.snapshot && c.snapshotAt == b.snapshotAt
  {
    var n := |events| - 1;
    RunKeeps(events[..n]);
    if events[n].Succeed? && events[n].l < |Run(events[..n]).loads| {
      BeganIff(events[..n], events[n].l);
    }
  }

  /** In every run the cached snapshot is that of the latest success, if no write came since. */
  lemma {:induction false} SnapshotIsLatest(events: seq<Event>)
    ensures Run(events).snapshot.Some? ==> exists k: nat :: Latest(events, k)
    ensures forall k: nat :: Latest(events, k) ==>
              Run(events).snapshot == Some(events[k].l) && Run(events).snapshotAt == events[k].now
    decreases |events|
  {
    hide Latest, Success, Next;
    if events == [] {
      NothingCached();
    } else {
      var n := |events| - 1;
      SnapshotIsLatest(events[..n]);
      SnapshotStep(events);
      LatestLast(events);
      if events[n] != Invalidate && !Success(events, n) {
        forall k: nat | k < n ensures Latest(events, k) <==> Latest(events[..n], k) {
          LatestBefore(events, k);
        }
        forall k: nat ensures Latest(events[..n], k) ==> k < n {
          LatestInside(events[..n], k);
        }
      }
    }
  }

  lemma NothingCached()
    ensures Run([]).snapshot == None && forall k: nat :: !Latest([], k)
  {
  }

  lemma LatestInside(events: seq<Event>, k: nat)
    ensures Latest(events, k) ==> k < |events| && events[k].Succeed?
  {
  }

  lemma LatestLast(events: seq<Event>)
    requires events != []
    ensures
      var n := |events| - 1;
      && (forall k: nat :: Latest(events, k) ==> k <= n && events[k].Succeed?)
      && (events[n] == Invalidate ==> forall k: nat :: !Latest(events, k))
      && (Success(events, n) ==> Latest(events, n) && forall k: nat :: Latest(events, k) ==> k == n)
      && (!Success(events, n) ==> !Latest(events, n))
  {
  }

  /** A load that no write has overtaken is still running. */
  ghost predicate Sharing(events: seq<Event>)
  {
    var c := Run(events);
    exists l: nat :: l < |c.loads| && !c.loads[l].settled && Undisturbed(events, c.loads[l].start)
  }

  lemma SharingIff(events: seq<Event>)
    ensures Sharing(events) <==> Run(events).load.Some?
  {
    hide Run;
    var c := Run(events);
    RunKeeps(events);
    forall l: nat | l < |c.loads| ensures Began(c, l) <==> Undisturbed(events, c.loads[l].start) {
      BeganIff(events, l);
    }
    if c.load.Some? {
      assert Current(c, c.load.value);
    }
    if Sharing(events) {
      var l: nat :| l < |c.loads| && !c.loads[l].settled && Undisturbed(events, c.loads[l].start);
      assert Current(c, l);
    }
  }

  /**
   What a caller is handed, after any events. A running load is shared, even by force. Otherwise a
   cached one is handed over if and only if the caller does not force and the latest success, with
   no write since, is less than 5000 ms old; and then it is that one. In all other cases the load
   begins with this very call.
   */
  lemma FetchHandsOver(events: seq<Event>, force: bool, now: int)
    ensures
      var c, a, d := Run(events), AnswerOf(Run(events), force, now), Run(events + [Fetch(force, now)]);
      && (Sharing(events) ==> a.Pending? && a.l < |c.loads| && !c.loads[a.l].settled && Undisturbed(events, c.loads[a.l].start))
      && (!Sharing(events) ==> (a.Cached? <==> !force && exists k: nat :: Latest(events, k) && now - events[k].now < 5000))
      && (a.Cached? ==> forall k: nat :: Latest(events, k) ==> a.l == events[k].l)
      && (!Sharing(events) && a.Pending? ==> a.l < |d.loads| && d.loads[a.l].start == |events| && !d.loads[a.l].settled)
  {
    hide Latest, Run;
    var c := Run(events);
    SharingIff(events);
    SnapshotIsLatest(events);
    ClockCounts(events);
    RunKeeps(events);
    RunNext(events, Fetch(force, now));
    if c.load.Some? {
      BeganIff(events, c.load.value);
    }
  }

  lemma RunNext(events: seq<Event>, e: Event)
    ensures Run(events + [e]) == Next(Run(events), e)
  {
    assert (events + [e])[..|events|] == events;
  }

  // ---- paging ----

  const PAGE_SIZE: nat := 1000
  const MAX_ROWS: nat := 100000
  const MAX_PAGES: nat := 100

  /** A row; rows without an id are let through. */
  datatype Item = Item(id: Option<string>, body: string)

  datatype Page = Page(limit: int, offset: int, total: int, hasMore: bool, nextOffset: Option<int>, items: seq<Item>)

  datatype Error = TooLarge | BadPage | Changed
  datatype Result = Ok(rows: seq<Item>) | Err(error: Error)

  predicate DistinctIds(rows: seq<Item>)
  {
    forall i, j :: 0 <= i < j < |rows| && rows[i].id.Some? && rows[j].id.Some? ==> rows[i].id != rows[j].id
  }

  /** The checks a page must pass at an offset. */
  predicate Consistent(p: Page, offset: nat)
  {
    && p.limit == PAGE_SIZE && p.offset == offset && p.total >= 0
    && |p.items| <= PAGE_SIZE
    && p.hasMore == (offset + |p.items| < p.total)
    && p.nextOffset == (if p.hasMore then Some(offset + |p.items|) else None)
    && !(p.hasMore && |p.items| == 0)
  }

  /** The ids met so far. */
  ghost predicate Seen(seen: set<string>, rows: seq<Item>)
  {
    forall s :: s in seen <==> exists i :: 0 <= i < |rows| && rows[i].id == Some(s)
  }

  /** Append one page, or notice a repeated id. */
  method AppendPage(rows: seq<Item>, seen: set<string>, items: seq<Item>) returns (ok: bool, all: seq<Item>, seen': set<string>)
    requires DistinctIds(rows) && Seen(seen, rows)
    ensures ok <==> DistinctIds(rows + items)
    ensures ok ==> all == rows + items && Seen(seen', all)
  {
    ok, all, seen' := true, rows, seen;
    for k := 0 to |items|
      invariant all == rows + items[..k] && DistinctIds(all)
      invariant Seen(seen', all)
    {
      var item := items[k];
      assert rows + items[..k + 1] == all + [item];
      if item.id.Some? {
        if item.id.value in seen' {
          RepeatShows(rows, items, k);
          return false, rows, seen;
        }
        seen' := seen' + {item.id.value};
      }
      GrowsSeen(all, item);
      all := all + [item];
    }
    assert items[..|items|] == items;
  }

  lemma RepeatShows(rows: seq<Item>, items: seq<Item>, k: nat)
    requires k < |items| && items[k].id.Some?
    requires exists i :: 0 <= i < |rows + items[..k]| && (rows + items[..k])[i].id == items[k].id
    ensures !DistinctIds(rows + items)
  {
    var some, all := rows + items[..k], rows + items;
    var i :| 0 <= i < |some| && some[i].id == items[k].id;
    assert all[i] == some[i] && all[|rows| + k] == items[k];
  }

  lemma GrowsSeen(all: seq<Item>, item: Item)
    ensures forall s :: (exists i :: 0 <= i < |all + [item]| && (all + [item])[i].id == Some(s))
                        <==> (exists i :: 0 <= i < |all| && all[i].id == Some(s)) || item.id == Some(s)
  {
    var more := all + [item];
    forall s | exists i :: 0 <= i < |all| && all[i].id == Some(s)
      ensures exists i :: 0 <= i < |more| && more[i].id == Some(s)
    {
      var i :| 0 <= i < |all| && all[i].id == Some(s);
      assert more[i].id == Some(s);
    }
    assert more[|all|] == item;
  }

  /** Page k of a reading cut at the given offsets: exactly the rows between two cuts. */
  ghost predicate PageIs(server: (nat, nat) -> Page, cuts: seq<nat>, rows: seq<Item>, total: int, last: bool, k: nat)
    requires k + 1 < |cuts|
  {
    && cuts[k] <= cuts[k + 1] <= |rows| && cuts[k + 1] - cuts[k] <= PAGE_SIZE
    && (!last ==> cuts[k] < cuts[k + 1] < total)
    && server(k, cuts[k]) == Page(PAGE_SIZE, cuts[k], total, !last, if last then None else Some(cuts[k + 1]),
                                  rows[cuts[k]..cuts[k + 1]])
  }

  /** The server's pages, cut at the given offsets, are exactly these rows. */
  ghost predicate Reading(server: (nat, nat) -> Page, cuts: seq<nat>, rows: seq<Item>)
  {
    && 2 <= |cuts| <= MAX_PAGES + 1 && cuts[0] == 0 && cuts[|cuts| - 1] == |rows|
    && |rows| <= MAX_ROWS && DistinctIds(rows)
    && PageIs(server, cuts, rows, |rows|, true, |cuts| - 2)
    && forall k: nat :: k + 2 < |cuts| ==> PageIs(server, cuts, rows, |rows|, false, k)
  }

  /** Every reading the server allows begins with what has been read so far. */
  ghost predicate Ahead(server: (nat, nat) -> Page, cuts: seq<nat>, rows: seq<Item>, expected: Option<int>)
  {
    forall cuts', rows' :: Reading(server, cuts', rows') ==>
      |cuts| < |cuts'| && cuts <= cuts' && rows <= rows' && (expected == None || expected == Some(|rows'|))
  }

  /** The pages read so far, each announcing the same total and more to come. */
  ghost predicate SoFar(server: (nat, nat) -> Page, cuts: seq<nat>, rows: seq<Item>, expected: Option<int>)
  {
    && 1 <= |cuts| && cuts[0] == 0 && cuts[|cuts| - 1] == |rows|
    && (expected == None <==> |cuts| == 1)
    && (expected.Some? ==> |rows| < expected.value <= MAX_ROWS)
    && forall k: nat :: k + 1 < |cuts| ==> PageIs(server, cuts, rows, expected.value, false, k)
  }

  /** The next page passes every check. */
  ghost predicate NextOk(server: (nat, nat) -> Page, cuts: seq<nat>, rows: seq<Item>, expected: Option<int>)
    requires |cuts| > 0
  {
    var page := server(|cuts| - 1, |rows|);
    && |cuts| <= MAX_PAGES && page.total <= MAX_ROWS && (expected == None || expected == Some(page.total))
    && Consistent(page, |rows|) && DistinctIds(rows + page.items)
    && (!page.hasMore ==> |rows + page.items| == page.total)
  }

  lemma Aligned(server: (nat, nat) -> Page, cuts: seq<nat>, rows: seq<Item>, expected: Option<int>,
                cuts': seq<nat>, rows': seq<Item>)
    requires SoFar(server, cuts, rows, expected) && Ahead(server, cuts, rows, expected) && Reading(server, cuts', rows')
    ensures 0 < |cuts| < |cuts'| <= MAX_PAGES + 1 && cuts <= cuts' && rows <= rows' && cuts'[|cuts| - 1] == |rows|
    ensures expected == None || expected == Some(|rows'|)
    ensures |rows'| <= MAX_ROWS && DistinctIds(rows') && cuts'[|cuts'| - 1] == |rows'|
    ensures PageIs(server, cuts', rows', |rows'|, |cuts| + 1 == |cuts'|, |cuts| - 1)
  {
    hide PageIs, DistinctIds;
  }

  /** Whenever some reading exists, the next page passes every check and follows that reading. */
  lemma NextPage(server: (nat, nat) -> Page, cuts: seq<nat>, rows: seq<Item>, expected: Option<int>,
                 cuts': seq<nat>, rows': seq<Item>)
    requires |cuts| > 0
    requires SoFar(server, cuts, rows, expected) && Ahead(server, cuts, rows, expected) && Reading(server, cuts', rows')
    ensures NextOk(server, cuts, rows, expected)
    ensures
      var page := server(|cuts| - 1, |rows|);
      && |cuts| < |cuts'| && cuts <= cuts' && cuts'[|cuts|] == |rows + page.items| && rows + page.items <= rows'
      && page.total == |rows'| && (page.hasMore <==> |cuts| + 1 < |cuts'|)
      && (!page.hasMore ==> rows' == rows + page.items)
  {
    hide SoFar, Ahead, Reading;
    Aligned(server, cuts, rows, expected, cuts', rows');
    var page := server(|cuts| - 1, |rows|);
    assert rows + page.items == rows'[..|rows| + |page.items|];
    assert DistinctIds(rows'[..|rows| + |page.items|]);
  }

  lemma NextAhead(server: (nat, nat) -> Page, cuts: seq<nat>, rows: seq<Item>, expected: Option<int>)
    requires |cuts| > 0 && SoFar(server, cuts, rows, expected) && Ahead(server, cuts, rows, expected)
    ensures
      var page := server(|cuts| - 1, |rows|);
      && (page.hasMore ==> Ahead(server, cuts + [|rows| + |page.items|], rows + page.items, Some(page.total)))
      && (!page.hasMore ==> forall cuts', rows' :: Reading(server, cuts', rows') ==> rows' == rows + page.items)
  {
    hide Reading, SoFar, Ahead, NextOk;
    forall cuts', rows' | Reading(server, cuts', rows')
      ensures
        var page := server(|cuts| - 1, |rows|);
        var more := cuts + [|rows| + |page.items|];
        && (page.hasMore ==> |more| < |cuts'| && more <= cuts' && rows + page.items <= rows' && page.total == |rows'|)
        && (!page.hasMore ==> rows' == rows + page.items)
    {
      NextPage(server, cuts, rows, expected, cuts', rows');
    }
    NowAhead(server, cuts, rows);
  }

  lemma NowAhead(server: (nat, nat) -> Page, cuts: seq<nat>, rows: seq<Item>)
    requires |cuts| > 0
    requires
      var page := server(|cuts| - 1, |rows|);
      var more := cuts + [|rows| + |page.items|];
      page.hasMore ==> forall cuts', rows' :: Reading(server, cuts', rows') ==>
        |more| < |cuts'| && more <= cuts' && rows + page.items <= rows' && page.total == |rows'|
    ensures
      var page := server(|cuts| - 1, |rows|);
      page.hasMore ==> Ahead(server, cuts + [|rows| + |page.items|], rows + page.items, Some(page.total))
  {
    hide Reading;
  }

  lemma PageStays(server: (nat, nat) -> Page, cuts: seq<nat>, rows: seq<Item>, total: int, k: nat, cut: nat, items: seq<Item>)
    requires k + 1 < |cuts| && PageIs(server, cuts, rows, total, false, k)
    ensures PageIs(server, cuts + [cut], rows + items, total, false, k)
  {
    assert (rows + items)[cuts[k]..cuts[k + 1]] == rows[cuts[k]..cuts[k + 1]];
  }

  /** One more consistent page. */
  lemma PageAdds(server: (nat, nat) -> Page, cuts: seq<nat>, rows: seq<Item>, expected: Option<int>)
    requires SoFar(server, cuts, rows, expected)
    requires
      var page := server(|cuts| - 1, |rows|);
      Consistent(page, |rows|) && (expected == None || expected.value == page.total)
    ensures
      var page := server(|cuts| - 1, |rows|);
      var more := cuts + [|rows| + |page.items|];
      && (forall k: nat :: k + 1 < |cuts| ==> PageIs(server, more, rows + page.items, page.total, false, k))
      && PageIs(server, more, rows + page.items, page.total, !page.hasMore, |cuts| - 1)
  {
    var page := server(|cuts| - 1, |rows|);
    var more, all := cuts + [|rows| + |page.items|], rows + page.items;
    forall k: nat | k + 1 < |cuts|
      ensures PageIs(server, more, all, page.total, false, k)
    {
      PageStays(server, cuts, rows, page.total, k, |rows| + |page.items|, page.items);
    }
    assert (rows + page.items)[|rows|..|rows| + |page.items|] == page.items;
  }

  lemma MoreSoFar(server: (nat, nat) -> Page, cuts: seq<nat>, rows: seq<Item>, expected: Option<int>)
    requires SoFar(server, cuts, rows, expected)
    requires
      var page := server(|cuts| - 1, |rows|);
      Consistent(page, |rows|) && page.total <= MAX_ROWS && (expected == None || expected.value == page.total) && page.hasMore
    ensures
      var page := server(|cuts| - 1, |rows|);
      SoFar(server, cuts + [|rows| + |page.items|], rows + page.items, Some(page.total))
  {
    hide PageIs;
    PageAdds(server, cuts, rows, expected);
  }

  /** The last page completes a reading. */
  lemma Complete(server: (nat, nat) -> Page, cuts: seq<nat>, rows: seq<Item>, expected: Option<int>)
    requires SoFar(server, cuts, rows, expected) && |cuts| <= MAX_PAGES
    requires
      var page := server(|cuts| - 1, |rows|);
      && Consistent(page, |rows|) && page.total <= MAX_ROWS && (expected == None || expected.value == page.total)
      && !page.hasMore && |rows + page.items| == page.total && DistinctIds(rows + page.items)
    ensures
      var page := server(|cuts| - 1, |rows|);
      Reading(server, cuts + [|rows| + |page.items|], rows + page.items)
  {
    hide PageIs, DistinctIds;
    PageAdds(server, cuts, rows, expected);
  }

  /** What the next page must be like for each error. */
  ghost predicate Fails(server: (nat, nat) -> Page, cuts: seq<nat>, rows: seq<Item>, expected: Option<int>, e: Error)
    requires |cuts| > 0
  {
    var page := server(|cuts| - 1, |rows|);
    && SoFar(server, cuts, rows, expected)
    && match e
       case TooLarge => |cuts| > MAX_PAGES || page.total > MAX_ROWS
       case BadPage => !Consistent(page, |rows|)
       case Changed =>
         || (expected.Some? && expected.value != page.total)
         || !DistinctIds(rows + page.items)
         || (!page.hasMore && |rows + page.items| != page.total)
  }

  /**
   getInventoryList: it succeeds with some rows exactly when the server's pages read as those rows.
   An error says what was wrong after the pages read so far. The server is asked for page k at an
   offset; it may answer differently every time.
   */
  method GetList(server: (nat, nat) -> Page) returns (r: Result)
    ensures r.Ok? ==> exists cuts :: Reading(server, cuts, r.rows)
    ensures forall cuts, rows :: Reading(server, cuts, rows) ==> r == Ok(rows)
    ensures r.Err? ==> exists cuts, rows, expected :: |cuts| > 0 && Fails(server, cuts, rows, expected, r.error)
  {
    hide Reading, SoFar, Ahead, Consistent, DistinctIds, Seen;
    var rows: seq<Item>, seen: set<string> := [], {};
    var expected: Option<int> := None;
    var offset, pages := 0, 0;
    ghost var cuts: seq<nat> := [0];
    Start(server);
    while true
      invariant offset == |rows| && pages == |cuts| - 1
      invariant SoFar(server, cuts, rows, expected) && Ahead(server, cuts, rows, expected)
      invariant DistinctIds(rows) && Seen(seen, rows)
      decreases MAX_PAGES - pages
    {
      Follow(server, cuts, rows, expected);
      pages := pages + 1;
      if pages > MAX_PAGES {
        assert Fails(server, cuts, rows, expected, TooLarge);
        return Err(TooLarge);
      }
      var page := server(pages - 1, offset);
      if page.limit != PAGE_SIZE || page.offset != offset || page.total < 0 {
        assert Fails(server, cuts, rows, expected, BadPage);
        return Err(BadPage);
      }
      if page.total > MAX_ROWS {
        assert Fails(server, cuts, rows, expected, TooLarge);
        return Err(TooLarge);
      }
      if expected.Some? && expected.value != page.total {
        assert Fails(server, cuts, rows, expected, Changed);
        return Err(Changed);
      }
      if !Consistent(page, offset) {
        assert Fails(server, cuts, rows, expected, BadPage);
        return Err(BadPage);
      }
      var ok, more, seen' := AppendPage(rows, seen, page.items);
      if !ok {
        assert Fails(server, cuts, rows, expected, Changed);
        return Err(Changed);
      }
      if !page.hasMore {
        if |more| != page.total {
          assert Fails(server, cuts, rows, expected, Changed);
          return Err(Changed);
        }
        Complete(server, cuts, rows, expected);
        return Ok(more);
      }
      MoreSoFar(server, cuts, rows, expected);
      cuts := cuts + [|rows| + |page.items|];
      rows, seen, offset, expected := more, seen', offset + |page.items|, Some(page.total);
    }
  }

  lemma Start(server: (nat, nat) -> Page)
    ensures SoFar(server, [0], [], None) && Ahead(server, [0], [], None) && DistinctIds([]) && Seen({}, [])
  {
  }

  /** What every reading the server allows says of the next page. */
  lemma Follow(server: (nat, nat) -> Page, cuts: seq<nat>, rows: seq<Item>, expected: Option<int>)
    requires SoFar(server, cuts, rows, expected) && Ahead(server, cuts, rows, expected)
    ensures |cuts| > 0
    ensures
      var page := server(|cuts| - 1, |rows|);
      && (Consistent(page, |rows|) ==> page.limit == PAGE_SIZE && page.offset == |rows| && page.total >= 0)
      && (page.hasMore ==> Ahead(server, cuts + [|rows| + |page.items|], rows + page.items, Some(page.total)))
      && forall cuts', rows' :: Reading(server, cuts', rows') ==>
        NextOk(server, cuts, rows, expected) && (!page.hasMore ==> rows' == rows + page.items)
  {
    hide Reading, Ahead, NextOk;
    forall cuts', rows' | Reading(server, cuts', rows')
      ensures NextOk(server, cuts, rows, expected)
    {
      NextPage(server, cuts, rows, expected, cuts', rows');
    }
    NextAhead(server, cuts, rows, expected);
  }

  /** What an unchanging collection answers for an offset. */
  function Serve(all: seq<Item>, offset: nat): Page
    requires offset <= |all|
  {
    var end := if offset + PAGE_SIZE < |all| then offset + PAGE_SIZE else |all|;
    Page(PAGE_SIZE, offset, |all|, end < |all|, if end < |all| then Some(end) else None, all[offset..end])
  }

  function Cuts(size: nat, k: nat): (cuts: seq<nat>)
    requires k == 0 || (k - 1) * PAGE_SIZE < size
    ensures |cuts| == k + 1
    ensures forall i :: 0 <= i <= k ==> cuts[i] == if i * PAGE_SIZE < size then i * PAGE_SIZE else size
  {
    if k == 0 then [0] else Cuts(size, k - 1) + [if k * PAGE_SIZE < size then k * PAGE_SIZE else size]
  }

  /** A collection within the limits that does not change while it is read has a reading: itself. */
  lemma UnchangedIsRead(server: (nat, nat) -> Page, all: seq<Item>)
    requires forall k: nat, offset: nat :: offset <= |all| ==> server(k, offset) == Serve(all, offset)
    requires |all| <= MAX_ROWS && DistinctIds(all)
    ensures exists cuts :: Reading(server, cuts, all)
  {
    if |all| == 0 {
      assert all[0..0] == all;
      assert Reading(server, [0, 0], all);
    } else {
      var pages := (|all| + PAGE_SIZE - 1) / PAGE_SIZE;
      var cuts := Cuts(|all|, pages);
      forall k: nat | k + 2 < |cuts|
        ensures PageIs(server, cuts, all, |all|, false, k)
      {
        assert server(k, cuts[k]) == Serve(all, cuts[k]);
      }
      assert server(pages - 1, cuts[pages - 1]) == Serve(all, cuts[pages - 1]);
      assert Reading(server, cuts, all);
    }
  }
}
