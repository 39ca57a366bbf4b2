/** The migration ledger: any number of runners, crashing anywhere, over one table. */
module Migrations {

  import opened Options

  datatype File = File(id: string, checksum: string)
  datatype RowState = Applying | Applied
  datatype Row = Row(checksum: string, state: RowState)
  type Ledger = map<string, Row>

  predicate DistinctIds(files: seq<File>)
  {
    forall i, j :: 0 <= i < j < |files| ==> files[i].id != files[j].id
  }

  // ---- the history check ----

  /** Every row is an applied file with its own checksum, and no file is recorded after an unrecorded one. */
  ghost predicate HistoryOk(files: seq<File>, rows: Ledger)
  {
    && (forall id :: id in rows ==> exists i :: 0 <= i < |files| && files[i].id == id && rows[id] == Row(files[i].checksum, Applied))
    && (forall i, j :: 0 <= i < j < |files| && files[j].id in rows ==> files[i].id in rows)
  }

  /** Exactly the first m files are recorded. */
  ghost predicate Recorded(files: seq<File>, rows: Ledger, m: nat)
  {
    m <= |files| && forall i :: 0 <= i < |files| ==> (files[i].id in rows <==> i < m)
  }

  datatype Checked = Unclean | Pending(files: seq<File>)

  method Lookup(files: seq<File>, id: string) returns (i: nat)
    ensures i <= |files| && (i < |files| ==> files[i].id == id)
    ensures forall j :: 0 <= j < i ==> files[j].id != id
  {
    i := 0;
    while i < |files| && files[i].id != id
      invariant i <= |files| && forall j :: 0 <= j < i ==> files[j].id != id
    {
      i := i + 1;
    }
  }

  /** Accepts exactly the histories that are a clean prefix, and returns the rest of the files. */
  method CheckHistory(files: seq<File>, rows: Ledger) returns (r: Checked)
    requires DistinctIds(files)
    ensures r.Pending? <==> HistoryOk(files, rows)
    ensures r.Pending? ==> exists m: nat :: Recorded(files, rows, m) && r.files == files[m..]
  {
    var rest := rows.Keys;
    while rest != {}
      invariant rest <= rows.Keys
      invariant forall id :: id in rows && id !in rest ==>
                  exists i :: 0 <= i < |files| && files[i].id == id && rows[id] == Row(files[i].checksum, Applied)
    {
      var id :| id in rest;
      var i := Lookup(files, id);
      if i == |files| || rows[id].checksum != files[i].checksum || rows[id].state != Applied {
        RowRefused(files, rows, id, i);
        return Unclean;
      }
      rest := rest - {id};
    }
    var pending, seen := [], false;
    ghost var m := 0;
    for k := 0 to |files|
      invariant m <= k && pending == files[m..k] && (seen <==> m < k)
      invariant forall i :: 0 <= i < k ==> (files[i].id in rows <==> i < m)
    {
      if files[k].id in rows {
        if seen {
          assert files[m].id !in rows;
          return Unclean;
        }
        m := k + 1;
        assert pending == [] == files[m..k + 1];
      } else {
        seen := true;
        assert files[m..k] + [files[k]] == files[m..k + 1];
        pending := pending + [files[k]];
      }
    }
    assert Recorded(files, rows, m) && pending == files[m..];
    return Pending(pending);
  }

  lemma RowRefused(files: seq<File>, rows: Ledger, id: string, i: nat)
    requires DistinctIds(files) && id in rows && i <= |files|
    requires forall j :: 0 <= j < i ==> files[j].id != id
    requires i < |files| ==> files[i].id == id && rows[id] != Row(files[i].checksum, Applied)
    ensures !HistoryOk(files, rows)
  {
  }

  // ---- the protocol ----

  /** Where a runner is in `migrate`. `seen` is what it read from the ledger. */
  datatype Pc =
    | Starting
    | Creating
    | Reading
    | Looping(seen: set<string>, k: nat)
    | Inserted(seen: set<string>, k: nat)
    | Running(seen: set<string>, k: nat)
    | Ran(seen: set<string>, k: nat)
    | Stopped

  /** `ledger` is None until the table exists; `others` says whether any other object does. */
  datatype World = World(ledger: Option<Ledger>, others: bool, runners: map<nat, Pc>, started: seq<nat>)

  datatype Action = Spawn(r: nat) | Inspect(r: nat) | Create(r: nat) | Read(r: nat) | Skip(r: nat) | Insert(r: nat)
                  | StartSql(r: nat) | FinishSql(r: nat) | Mark(r: nat) | Stop(r: nat)

  function Move(w: World, r: nat, pc: Pc): World
  {
    w.(runners := w.runners[r := pc])
  }

  /** One statement of one runner. A runner may also stop, by error or crash, at any point. */
  ghost predicate Step(files: seq<File>, w: World, a: Action, v: World)
  {
    match a
    case Spawn(r) => r !in w.runners && v == Move(w, r, Starting)
    case Inspect(r) =>
      && r in w.runners && w.runners[r] == Starting
      && v == Move(w, r, if w.ledger.Some? then Reading else if w.others then Stopped else Creating)
    case Create(r) =>
      && r in w.runners && w.runners[r] == Creating
      && v == if w.ledger.Some? then Move(w, r, Stopped) else Move(w, r, Reading).(ledger := Some(map[]))
    case Read(r) =>
      && r in w.runners && w.runners[r] == Reading && w.ledger.Some?
      && v == Move(w, r, if HistoryOk(files, w.ledger.value) then Looping(w.ledger.value.Keys, 0) else Stopped)
    case Skip(r) =>
      && r in w.runners && w.runners[r].Looping?
      && var pc := w.runners[r];
         pc.k < |files| && files[pc.k].id in pc.seen && v == Move(w, r, Looping(pc.seen, pc.k + 1))
    case Insert(r) =>
      && r in w.runners && w.runners[r].Looping? && w.ledger.Some?
      && var pc := w.runners[r];
         && pc.k < |files| && files[pc.k].id !in pc.seen
         && v == if files[pc.k].id in w.ledger.value then Move(w, r, Stopped)
                 else Move(w, r, Inserted(pc.seen, pc.k)).(
                        ledger := Some(w.ledger.value[files[pc.k].id := Row(files[pc.k].checksum, Applying)]))
    case StartSql(r) =>
      && r in w.runners && w.runners[r].Inserted?
      && v == Move(w, r, Running(w.runners[r].seen, w.runners[r].k)).(others := true, started := w.started + [w.runners[r].k])
    case FinishSql(r) =>
      && r in w.runners && w.runners[r].Running?
      && v == Move(w, r, Ran(w.runners[r].seen, w.runners[r].k))
    case Mark(r) =>
      && r in w.runners && w.runners[r].Ran? && w.ledger.Some?
      && var pc := w.runners[r];
         && pc.k < |files|
         && v == Move(w, r, Looping(pc.seen, pc.k + 1)).(ledger := Some(Marked(w.ledger.value, files[pc.k].id)))
    case Stop(r) => r in w.runners && v == Move(w, r, Stopped)
  }

  /** UPDATE … SET state='applied' WHERE migration_id = id AND state = 'applying' */
  function Marked(rows: Ledger, id: string): Ledger
  {
    if id in rows && rows[id].state == Applying then rows[id := rows[id].(state := Applied)] else rows
  }

  const FRESH: World := World(None, false, map[], [])

  // ---- the invariant ----

  /** Rows are the first m files with their checksums, all applied but perhaps the last. */
  ghost predicate Prefix(files: seq<File>, rows: Ledger, m: nat)
  {
    && m <= |files|
    && (forall i :: 0 <= i < |files| ==> (files[i].id in rows <==> i < m))
    && (forall id :: id in rows ==> exists i :: 0 <= i < m && files[i].id == id)
    && (forall i :: 0 <= i < m ==> rows[files[i].id].checksum == files[i].checksum)
    && (forall i :: 0 <= i < m - 1 ==> rows[files[i].id].state == Applied)
  }

  predicate LastApplying(files: seq<File>, rows: Ledger, m: nat)
    requires m <= |files|
  {
    m > 0 && files[m - 1].id in rows && rows[files[m - 1].id].state == Applying
  }

  /** How many leading files are applied. */
  function Settled(files: seq<File>, rows: Ledger, m: nat): nat
    requires m <= |files|
  {
    if LastApplying(files, rows, m) then m - 1 else m
  }

  predicate Busy(pc: Pc)
  {
    pc.Inserted? || pc.Running? || pc.Ran?
  }

  ghost predicate PcOk(files: seq<File>, rows: Ledger, m: nat, pc: Pc)
    requires m <= |files|
  {
    match pc
    case Looping(seen, k) => k <= Settled(files, rows, m) && SeenOk(files, seen, Settled(files, rows, m))
    case Inserted(seen, k) => k == m - 1 && LastApplying(files, rows, m) && SeenOk(files, seen, k)
    case Running(seen, k) => k == m - 1 && LastApplying(files, rows, m) && SeenOk(files, seen, k)
    case Ran(seen, k) => k == m - 1 && LastApplying(files, rows, m) && SeenOk(files, seen, k)
    case _ => true
  }

  /** What a runner remembers as recorded is applied. */
  ghost predicate SeenOk(files: seq<File>, seen: set<string>, settled: nat)
  {
    forall i :: 0 <= i < |files| && files[i].id in seen ==> i < settled
  }

  /** SQL files have been started once each, in order; the last row's may still be due. */
  ghost predicate StartedOk(w: World, files: seq<File>, rows: Ledger, m: nat)
    requires m <= |files|
  {
    && (forall i :: 0 <= i < |w.started| ==> w.started[i] == i)
    && (|w.started| == m || (|w.started| == m - 1 && LastApplying(files, rows, m)))
    && (forall r :: r in w.runners && w.runners[r].Inserted? ==> |w.started| == m - 1)
    && (forall r :: r in w.runners && (w.runners[r].Running? || w.runners[r].Ran?) ==> |w.started| == m)
  }

  ghost predicate Inv(files: seq<File>, w: World)
  {
    match w.ledger
    case None =>
      && w.started == [] && !w.others
      && forall r :: r in w.runners ==> w.runners[r].Starting? || w.runners[r].Creating? || w.runners[r].Stopped?
    case Some(rows) => exists m :: InvAt(files, w, rows, m)
  }

  ghost predicate InvAt(files: seq<File>, w: World, rows: Ledger, m: nat)
  {
    && m <= |files| && Prefix(files, rows, m)
    && (forall r :: r in w.runners ==> PcOk(files, rows, m, w.runners[r]))
    && (forall r, q :: r in w.runners && q in w.runners && Busy(w.runners[r]) && Busy(w.runners[q]) ==> r == q)
    && StartedOk(w, files, rows, m)
  }

  // ---- it is kept ----

  /** Moving a runner that is not busy into a harmless place. */
  lemma MoveKeeps(files: seq<File>, w: World, rows: Ledger, m: nat, r: nat, pc: Pc)
    requires InvAt(files, w, rows, m) && !Busy(pc) && PcOk(files, rows, m, pc)
    ensures InvAt(files, Move(w, r, pc), rows, m)
  {
  }

  lemma HistoryIsSettled(files: seq<File>, rows: Ledger, m: nat)
    requires DistinctIds(files) && Prefix(files, rows, m) && HistoryOk(files, rows)
    ensures !LastApplying(files, rows, m) && SeenOk(files, rows.Keys, m)
  {
  }

  lemma InsertKeeps(files: seq<File>, w: World, rows: Ledger, m: nat, r: nat)
    requires DistinctIds(files) && InvAt(files, w, rows, m) && r in w.runners && w.runners[r].Looping?
    requires var k := w.runners[r].k; k < |files| && files[k].id !in w.runners[r].seen && files[k].id !in rows
    ensures
      var pc := w.runners[r];
      var more := rows[files[pc.k].id := Row(files[pc.k].checksum, Applying)];
      InvAt(files, Move(w, r, Inserted(pc.seen, pc.k)).(ledger := Some(more)), more, m + 1)
  {
    hide Prefix, PcOk, LastApplying, StartedOk;
    var pc := w.runners[r];
    InsertAtEnd(files, w, rows, m, r);
    var more := rows[files[m].id := Row(files[m].checksum, Applying)];
    InsertPrefix(files, rows, m);
    var v := Move(w, r, Inserted(pc.seen, pc.k)).(ledger := Some(more));
    InsertFits(files, w, rows, m, r, v, more);
    forall q | q in v.runners ensures PcOk(files, more, m + 1, v.runners[q]) {
      if q != r {
        assert PcOk(files, rows, m, w.runners[q]);
        IdlePcOk(files, rows, m, more, m + 1, w.runners[q]);
      }
    }
  }

  lemma InsertFits(files: seq<File>, w: World, rows: Ledger, m: nat, r: nat, v: World, more: Ledger)
    requires InvAt(files, w, rows, m) && r in w.runners && w.runners[r].Looping? && w.runners[r].k == m < |files|
    requires !LastApplying(files, rows, m) && LastApplying(files, more, m + 1)
    requires v == Move(w, r, Inserted(w.runners[r].seen, m)).(ledger := Some(more))
    ensures StartedOk(v, files, more, m + 1) && PcOk(files, more, m + 1, v.runners[r])
    ensures forall q :: q in w.runners ==> !Busy(w.runners[q])
    ensures Settled(files, rows, m) <= Settled(files, more, m + 1)
  {
    hide Prefix, LastApplying;
    assert PcOk(files, rows, m, w.runners[r]);
    forall q | q in w.runners ensures !Busy(w.runners[q]) {
      assert PcOk(files, rows, m, w.runners[q]);
    }
  }

  /** Idle runners only depend on how many files are applied. */
  lemma IdlePcOk(files: seq<File>, rows: Ledger, m: nat, rows': Ledger, m': nat, pc: Pc)
    requires m <= |files| && m' <= |files| && PcOk(files, rows, m, pc) && !Busy(pc)
    requires Settled(files, rows, m) <= Settled(files, rows', m')
    ensures PcOk(files, rows', m', pc)
  {
  }

  /** An insert that succeeds is of the first unrecorded file, with nothing in progress. */
  lemma InsertAtEnd(files: seq<File>, w: World, rows: Ledger, m: nat, r: nat)
    requires InvAt(files, w, rows, m) && r in w.runners && w.runners[r].Looping?
    requires w.runners[r].k < |files| && files[w.runners[r].k].id !in rows
    ensures w.runners[r].k == m && !LastApplying(files, rows, m)
  {
  }

  lemma InsertPrefix(files: seq<File>, rows: Ledger, m: nat)
    requires DistinctIds(files) && Prefix(files, rows, m) && m < |files| && !LastApplying(files, rows, m)
    ensures
      var more := rows[files[m].id := Row(files[m].checksum, Applying)];
      Prefix(files, more, m + 1) && LastApplying(files, more, m + 1)
  {
    var more := rows[files[m].id := Row(files[m].checksum, Applying)];
    forall i | 0 <= i < |files| && i != m
      ensures files[i].id != files[m].id && (files[i].id in more <==> i < m)
      ensures i < m ==> more[files[i].id] == rows[files[i].id] && rows[files[i].id].state == Applied
    {
    }
    forall id | id in more ensures exists i :: 0 <= i < m + 1 && files[i].id == id {
      if id != files[m].id {
        var i :| 0 <= i < m && files[i].id == id;
        assert i < m + 1;
      } else {
        assert m < m + 1;
      }
    }
  }

  lemma StartKeeps(files: seq<File>, w: World, rows: Ledger, m: nat, r: nat)
    requires InvAt(files, w, rows, m) && r in w.runners && w.runners[r].Inserted?
    ensures
      InvAt(files, Move(w, r, Running(w.runners[r].seen, w.runners[r].k)).(
              others := true, started := w.started + [w.runners[r].k]), rows, m)
  {
    hide Prefix, LastApplying, SeenOk;
    assert PcOk(files, rows, m, w.runners[r]);
  }

  lemma FinishKeeps(files: seq<File>, w: World, rows: Ledger, m: nat, r: nat)
    requires InvAt(files, w, rows, m) && r in w.runners && w.runners[r].Running?
    ensures InvAt(files, Move(w, r, Ran(w.runners[r].seen, w.runners[r].k)), rows, m)
  {
    hide Prefix, LastApplying, SeenOk;
    assert PcOk(files, rows, m, w.runners[r]);
  }

  lemma MarkPrefix(files: seq<File>, rows: Ledger, m: nat)
    requires DistinctIds(files) && Prefix(files, rows, m) && LastApplying(files, rows, m)
    ensures Prefix(files, Marked(rows, files[m - 1].id), m) && !LastApplying(files, Marked(rows, files[m - 1].id), m)
  {
  }

  lemma MarkKeeps(files: seq<File>, w: World, rows: Ledger, m: nat, r: nat)
    requires DistinctIds(files) && InvAt(files, w, rows, m) && r in w.runners && w.runners[r].Ran?
    ensures
      var pc := w.runners[r];
      pc.k < |files| &&
      var after := Marked(rows, files[pc.k].id);
      InvAt(files, Move(w, r, Looping(pc.seen, pc.k + 1)).(ledger := Some(after)), after, m)
  {
    hide Prefix;
    var pc := w.runners[r];
    assert PcOk(files, rows, m, pc);
    assert m <= |files|;
    MarkPrefix(files, rows, m);
    var after := Marked(rows, files[pc.k].id);
    var v := Move(w, r, Looping(pc.seen, pc.k + 1)).(ledger := Some(after));
    forall q | q in v.runners ensures PcOk(files, after, m, v.runners[q]) {
      if q != r {
        assert PcOk(files, rows, m, w.runners[q]) && !Busy(w.runners[q]);
        IdlePcOk(files, rows, m, after, m, w.runners[q]);
      }
    }
  }

  lemma ReadKeeps(files: seq<File>, w: World, rows: Ledger, m: nat, r: nat)
    requires DistinctIds(files) && InvAt(files, w, rows, m)
    ensures HistoryOk(files, rows) ==> InvAt(files, Move(w, r, Looping(rows.Keys, 0)), rows, m)
  {
    if HistoryOk(files, rows) {
      HistoryIsSettled(files, rows, m);
      MoveKeeps(files, w, rows, m, r, Looping(rows.Keys, 0));
    }
  }

  lemma SkipKeeps(files: seq<File>, w: World, rows: Ledger, m: nat, r: nat)
    requires InvAt(files, w, rows, m) && r in w.runners && w.runners[r].Looping?
    requires w.runners[r].k < |files| && files[w.runners[r].k].id in w.runners[r].seen
    ensures InvAt(files, Move(w, r, Looping(w.runners[r].seen, w.runners[r].k + 1)), rows, m)
  {
    hide Prefix;
    assert PcOk(files, rows, m, w.runners[r]);
    MoveKeeps(files, w, rows, m, r, Looping(w.runners[r].seen, w.runners[r].k + 1));
  }

  lemma InRange(files: seq<File>, w: World, rows: Ledger, m: nat)
    requires InvAt(files, w, rows, m)
    ensures m <= |files|
  {
  }

  lemma StepKeepsAt(files: seq<File>, w: World, rows: Ledger, m: nat, a: Action, v: World)
    requires DistinctIds(files) && w.ledger == Some(rows) && InvAt(files, w, rows, m) && Step(files, w, a, v)
    ensures Inv(files, v)
  {
    hide InvAt, HistoryOk, Marked;
    InRange(files, w, rows, m);
    match a
    case Spawn(r) => MoveKeeps(files, w, rows, m, r, Starting);
    case Inspect(r) => MoveKeeps(files, w, rows, m, r, Reading);
    case Create(r) => MoveKeeps(files, w, rows, m, r, Stopped);
    case Read(r) =>
      ReadKeeps(files, w, rows, m, r);
      MoveKeeps(files, w, rows, m, r, Stopped);
    case Skip(r) => SkipKeeps(files, w, rows, m, r);
    case Insert(r) =>
      MoveKeeps(files, w, rows, m, r, Stopped);
      if files[w.runners[r].k].id !in rows {
        InsertKeeps(files, w, rows, m, r);
      }
    case StartSql(r) => StartKeeps(files, w, rows, m, r);
    case FinishSql(r) => FinishKeeps(files, w, rows, m, r);
    case Mark(r) => MarkKeeps(files, w, rows, m, r);
    case Stop(r) => MoveKeeps(files, w, rows, m, r, Stopped);
  }

  lemma StepKeepsBare(files: seq<File>, w: World, a: Action, v: World)
    requires w.ledger.None? && Inv(files, w) && Step(files, w, a, v)
    ensures Inv(files, v)
  {
    hide HistoryOk;
    if v.ledger.Some? {
      var rows: Ledger := map[];
      assert Prefix(files, rows, 0);
      assert InvAt(files, v, rows, 0);
    }
  }

  lemma StepKeeps(files: seq<File>, w: World, a: Action, v: World)
    requires DistinctIds(files) && Inv(files, w) && Step(files, w, a, v)
    ensures Inv(files, v)
  {
    hide InvAt, Step;
    match w.ledger
    case None => StepKeepsBare(files, w, a, v);
    case Some(rows) =>
      var m :| InvAt(files, w, rows, m);
      StepKeepsAt(files, w, rows, m, a, v);
  }

  // ---- theorems about whole runs ----

  ghost predicate Next(files: seq<File>, w: World, v: World)
  {
    exists a :: Step(files, w, a, v)
  }

  /** Consecutive worlds are one step apart. */
  ghost predicate Run(files: seq<File>, trace: seq<World>)
  {
    |trace| > 0 && forall i :: 0 < i < |trace| ==> Next(files, trace[i - 1], trace[i])
  }

  ghost predicate Reachable(files: seq<File>, from: World, w: World)
  {
    exists trace :: Run(files, trace) && trace[0] == from && trace[|trace| - 1] == w
  }

  lemma {:induction false} RunKeeps(files: seq<File>, trace: seq<World>)
    requires DistinctIds(files) && Run(files, trace) && Inv(files, trace[0])
    ensures Inv(files, trace[|trace| - 1])
    decreases |trace|
  {
    hide Inv, Step;
    var n := |trace| - 1;
    if n > 0 {
      var before := trace[..n];
      assert Run(files, before);
      RunKeeps(files, before);
      assert Next(files, trace[n - 1], trace[n]);
      var a :| Step(files, trace[n - 1], a, trace[n]);
      StepKeeps(files, trace[n - 1], a, trace[n]);
    }
  }

  lemma ReachableInv(files: seq<File>, w: World)
    requires DistinctIds(files) && Reachable(files, FRESH, w)
    ensures Inv(files, w)
  {
    var trace :| Run(files, trace) && trace[0] == FRESH && trace[|trace| - 1] == w;
    assert Inv(files, FRESH);
    RunKeeps(files, trace);
  }

  /**
   In every reachable world the rows are a prefix of the files in order, only the last of them
   possibly still applying, and the SQL files started are 0, 1, 2, … once each.
   */
  lemma LedgerIsPrefix(files: seq<File>, w: World)
    requires DistinctIds(files) && Reachable(files, FRESH, w)
    ensures forall i :: 0 <= i < |w.started| ==> w.started[i] == i
    ensures w.ledger.None? ==> w.started == [] && !w.others
    ensures w.ledger.Some? ==> exists m: nat :: Prefix(files, w.ledger.value, m) && m - 1 <= |w.started| <= m
  {
    hide Reachable, Prefix;
    ReachableInv(files, w);
    if w.ledger.Some? {
      var m: nat :| InvAt(files, w, w.ledger.value, m);
      assert Prefix(files, w.ledger.value, m) && m - 1 <= |w.started| <= m;
    }
  }

  lemma InsertedIsLast(files: seq<File>, w: World, rows: Ledger, m: nat, r: nat)
    requires InvAt(files, w, rows, m) && r in w.runners && w.runners[r].Inserted?
    ensures w.runners[r].k == m - 1 < |files| && m - 1 !in w.started
  {
    hide Prefix, SeenOk, LastApplying;
    assert PcOk(files, rows, m, w.runners[r]);
  }

  lemma EarlierApplied(files: seq<File>, rows: Ledger, m: nat, i: nat)
    requires Prefix(files, rows, m) && i < m - 1
    ensures files[i].id in rows && rows[files[i].id].state == Applied
  {
  }

  /** No SQL file starts twice, nor before every earlier file is recorded as applied. */
  lemma StartsInOrder(files: seq<File>, w: World, r: nat, v: World)
    requires DistinctIds(files) && Reachable(files, FRESH, w) && Step(files, w, StartSql(r), v)
    ensures
      var k := w.runners[r].k;
      && w.ledger.Some? && k < |files| && k !in w.started
      && (forall i :: 0 <= i < k ==> files[i].id in w.ledger.value && w.ledger.value[files[i].id].state == Applied)
  {
    hide Reachable, HistoryOk, Prefix, PcOk, StartedOk;
    ReachableInv(files, w);
    var m: nat :| InvAt(files, w, w.ledger.value, m);
    InsertedIsLast(files, w, w.ledger.value, m, r);
    forall i | 0 <= i < m - 1 ensures files[i].id in w.ledger.value && w.ledger.value[files[i].id].state == Applied {
      EarlierApplied(files, w.ledger.value, m, i);
    }
  }

  // ---- an interrupted migration blocks everything ----

  /** The last row is applying and no runner is working on it. */
  ghost predicate Interrupted(files: seq<File>, w: World)
  {
    && w.ledger.Some?
    && (exists m :: InvAt(files, w, w.ledger.value, m) && LastApplying(files, w.ledger.value, m))
    && forall r :: r in w.runners ==> !Busy(w.runners[r])
  }

  /** A runner that stops between recording a file and marking it applied leaves it interrupted. */
  lemma CrashInterrupts(files: seq<File>, w: World, r: nat, v: World)
    requires DistinctIds(files) && Reachable(files, FRESH, w)
    requires r in w.runners && Busy(w.runners[r]) && Step(files, w, Stop(r), v)
    ensures Interrupted(files, v)
  {
    hide Reachable, HistoryOk, Prefix, StartedOk, LastApplying;
    ReachableInv(files, w);
    var m: nat :| InvAt(files, w, w.ledger.value, m);
    assert PcOk(files, w.ledger.value, m, w.runners[r]);
    MoveKeeps(files, w, w.ledger.value, m, r, Stopped);
    assert InvAt(files, v, v.ledger.value, m) && LastApplying(files, v.ledger.value, m);
  }

  lemma InterruptedRefused(files: seq<File>, rows: Ledger, m: nat)
    requires DistinctIds(files) && Prefix(files, rows, m) && LastApplying(files, rows, m)
    ensures !HistoryOk(files, rows)
  {
    if HistoryOk(files, rows) {
      HistoryIsSettled(files, rows, m);
    }
  }

  lemma InterruptedAt(files: seq<File>, w: World) returns (m: nat)
    requires DistinctIds(files) && Interrupted(files, w)
    ensures InvAt(files, w, w.ledger.value, m) && m <= |files| && LastApplying(files, w.ledger.value, m)
    ensures !HistoryOk(files, w.ledger.value)
  {
    hide HistoryOk, PcOk, StartedOk;
    m :| InvAt(files, w, w.ledger.value, m) && LastApplying(files, w.ledger.value, m);
    InterruptedRefused(files, w.ledger.value, m);
  }

  /** Every further step of any runner, old or new, leaves ledger and SQL alone. */
  lemma InterruptedStays(files: seq<File>, w: World, a: Action, v: World)
    requires DistinctIds(files) && Interrupted(files, w) && Step(files, w, a, v)
    ensures Interrupted(files, v) && v.ledger == w.ledger && v.started == w.started
    ensures a.Read? ==> v.runners[a.r] == Stopped
  {
    hide HistoryOk, InvAt, LastApplying, Marked;
    var rows := w.ledger.value;
    var m := InterruptedAt(files, w);
    match a
    case Spawn(r) => MoveKeeps(files, w, rows, m, r, Starting);
    case Inspect(r) => MoveKeeps(files, w, rows, m, r, Reading);
    case Skip(r) => SkipKeeps(files, w, rows, m, r);
    case Insert(r) =>
      if files[w.runners[r].k].id !in rows {
        InsertAtEnd(files, w, rows, m, r);
      }
      MoveKeeps(files, w, rows, m, r, Stopped);
    case _ => MoveKeeps(files, w, rows, m, a.r, Stopped);
  }

  lemma {:induction false} InterruptedRun(files: seq<File>, trace: seq<World>)
    requires DistinctIds(files) && Run(files, trace) && Interrupted(files, trace[0])
    ensures
      var w := trace[|trace| - 1];
      Interrupted(files, w) && w.ledger == trace[0].ledger && w.started == trace[0].started
    decreases |trace|
  {
    hide Interrupted, Step;
    var n := |trace| - 1;
    if n > 0 {
      assert Run(files, trace[..n]);
      InterruptedRun(files, trace[..n]);
      assert Next(files, trace[n - 1], trace[n]);
      var a :| Step(files, trace[n - 1], a, trace[n]);
      InterruptedStays(files, trace[n - 1], a, trace[n]);
    }
  }

  /** Once a migration is interrupted, no later run of any runners records or starts anything. */
  lemma InterruptedForever(files: seq<File>, w: World, v: World)
    requires DistinctIds(files) && Interrupted(files, w) && Reachable(files, w, v)
    ensures Interrupted(files, v) && v.ledger == w.ledger && v.started == w.started
  {
    hide Interrupted;
    var trace :| Run(files, trace) && trace[0] == w && trace[|trace| - 1] == v;
    InterruptedRun(files, trace);
  }

  // ---- an untracked database is never touched ----

  ghost predicate Untracked(w: World)
  {
    && w.ledger.None? && w.others
    && forall r :: r in w.runners ==> w.runners[r].Starting? || w.runners[r].Stopped?
  }

  lemma UntrackedStays(files: seq<File>, w: World, a: Action, v: World)
    requires Untracked(w) && Step(files, w, a, v)
    ensures Untracked(v) && v.started == w.started
  {
    hide HistoryOk;
  }

  lemma {:induction false} UntrackedRun(files: seq<File>, trace: seq<World>)
    requires Run(files, trace) && Untracked(trace[0])
    ensures Untracked(trace[|trace| - 1]) && trace[|trace| - 1].started == trace[0].started
    decreases |trace|
  {
    hide Untracked, Step;
    var n := |trace| - 1;
    if n > 0 {
      assert Run(files, trace[..n]);
      UntrackedRun(files, trace[..n]);
      assert Next(files, trace[n - 1], trace[n]);
      var a :| Step(files, trace[n - 1], a, trace[n]);
      UntrackedStays(files, trace[n - 1], a, trace[n]);
    }
  }

  /** A database that has objects but no ledger stays as it is, whoever runs. */
  lemma UntrackedForever(files: seq<File>, w: World, v: World)
    requires Untracked(w) && Reachable(files, w, v)
    ensures v.ledger.None? && v.started == w.started
  {
    var trace :| Run(files, trace) && trace[0] == w && trace[|trace| - 1] == v;
    UntrackedRun(files, trace);
  }

  // ---- what is not interrupted can be completed ----

  lemma ReachSelf(files: seq<File>, w: World)
    ensures Reachable(files, w, w)
  {
    var trace := [w];
    assert Run(files, trace) && trace[0] == w && trace[|trace| - 1] == w;
  }

  lemma ReachNext(files: seq<File>, from: World, w: World, a: Action, v: World)
    requires Reachable(files, from, w) && Step(files, w, a, v)
    ensures Reachable(files, from, v)
  {
    hide Step;
    var trace :| Run(files, trace) && trace[0] == from && trace[|trace| - 1] == w;
    var more := trace + [v];
    forall i | 0 < i < |more| ensures Next(files, more[i - 1], more[i]) {
      if i < |trace| {
        assert Next(files, trace[i - 1], trace[i]);
      }
    }
    assert Run(files, more) && more[0] == from && more[|more| - 1] == v;
  }

  /** Every file is recorded as applied, with its checksum. */
  ghost predicate Complete(files: seq<File>, w: World)
  {
    w.ledger.Some? && forall i :: 0 <= i < |files| ==>
      files[i].id in w.ledger.value && w.ledger.value[files[i].id] == Row(files[i].checksum, Applied)
  }

  lemma FullPrefixIsComplete(files: seq<File>, w: World)
    requires w.ledger.Some? && Prefix(files, w.ledger.value, |files|) && !LastApplying(files, w.ledger.value, |files|)
    ensures Complete(files, w)
  {
  }

  lemma PrefixIsHistory(files: seq<File>, rows: Ledger, m: nat)
    requires DistinctIds(files) && Prefix(files, rows, m) && !LastApplying(files, rows, m)
    ensures HistoryOk(files, rows)
    ensures forall i :: 0 <= i < |files| ==> (files[i].id in rows.Keys <==> i < m)
  {
    forall id | id in rows
      ensures exists i :: 0 <= i < |files| && files[i].id == id && rows[id] == Row(files[i].checksum, Applied)
    {
      var i :| 0 <= i < m && files[i].id == id;
      assert rows[files[i].id].state == Applied;
    }
  }

  /** A runner in its loop at file k, having read a ledger of the first m files. */
  ghost predicate AtFile(files: seq<File>, w: World, r: nat, k: nat, m: nat)
  {
    && k <= |files| && m <= |files| && r in w.runners && w.runners[r].Looping? && w.runners[r].k == k && w.ledger.Some?
    && (forall i :: 0 <= i < |files| ==> (files[i].id in w.runners[r].seen <==> i < m))
    && var n := if k < m then m else k;
       Prefix(files, w.ledger.value, n) && !LastApplying(files, w.ledger.value, n)
  }

  /** The four statements for one pending file. */
  lemma OneFile(files: seq<File>, w: World, r: nat, k: nat, m: nat) returns (v: World)
    requires DistinctIds(files) && AtFile(files, w, r, k, m) && m <= k < |files|
    ensures Reachable(files, w, v) && AtFile(files, v, r, k + 1, m)
  {
    hide Prefix, LastApplying, Reachable, Marked;
    var seen, rows := w.runners[r].seen, w.ledger.value;
    NotRecorded(files, rows, k);
    InsertPrefix(files, rows, k);
    var more := rows[files[k].id := Row(files[k].checksum, Applying)];
    MarkPrefix(files, more, k + 1);
    var a := Move(w, r, Inserted(seen, k)).(ledger := Some(more));
    var b := Move(a, r, Running(seen, k)).(others := true, started := w.started + [k]);
    var c := Move(b, r, Ran(seen, k));
    v := Move(c, r, Looping(seen, k + 1)).(ledger := Some(Marked(more, files[k].id)));
    ReachSelf(files, w);
    ReachNext(files, w, w, Insert(r), a);
    ReachNext(files, w, a, StartSql(r), b);
    ReachNext(files, w, b, FinishSql(r), c);
    ReachNext(files, w, c, Mark(r), v);
  }

  lemma NotRecorded(files: seq<File>, rows: Ledger, k: nat)
    requires Prefix(files, rows, k) && k < |files|
    ensures files[k].id !in rows
  {
  }

  lemma {:induction false} LoopCompletes(files: seq<File>, from: World, w: World, r: nat, k: nat, m: nat) returns (v: World)
    requires DistinctIds(files) && Reachable(files, from, w) && AtFile(files, w, r, k, m)
    ensures Reachable(files, from, v) && Complete(files, v)
    decreases |files| - k
  {
    hide Prefix, LastApplying, Reachable, Complete, Step;
    if k == |files| {
      v := w;
      FullPrefixIsComplete(files, v);
    } else if k < m {
      var u := SkipFile(files, w, r, k, m);
      ReachNext(files, from, w, Skip(r), u);
      v := LoopCompletes(files, from, u, r, k + 1, m);
    } else {
      var u := OneFile(files, w, r, k, m);
      ReachTrans(files, from, w, u);
      v := LoopCompletes(files, from, u, r, k + 1, m);
    }
  }

  lemma SkipFile(files: seq<File>, w: World, r: nat, k: nat, m: nat) returns (v: World)
    requires AtFile(files, w, r, k, m) && k < m
    ensures Step(files, w, Skip(r), v) && AtFile(files, v, r, k + 1, m)
  {
    hide Prefix, LastApplying;
    v := Move(w, r, Looping(w.runners[r].seen, k + 1));
  }

  lemma ReachTrans(files: seq<File>, from: World, w: World, v: World)
    requires Reachable(files, from, w) && Reachable(files, w, v)
    ensures Reachable(files, from, v)
  {
    var p :| Run(files, p) && p[0] == from && p[|p| - 1] == w;
    var q :| Run(files, q) && q[0] == w && q[|q| - 1] == v;
    var all := p + q[1..];
    forall i | 0 < i < |all| ensures Next(files, all[i - 1], all[i]) {
      if i < |p| {
        assert Next(files, p[i - 1], p[i]);
      } else {
        assert Next(files, q[i - |p|], q[i - |p| + 1]);
      }
    }
    assert Run(files, all) && all[0] == from && all[|all| - 1] == v;
  }

  /** A new runner gets to read the ledger. */
  lemma GetsToRead(files: seq<File>, w: World, r: nat) returns (v: World)
    requires Inv(files, w) && r !in w.runners
    ensures Reachable(files, w, v) && r in v.runners && v.runners[r] == Reading
    ensures v.ledger == if w.ledger.Some? then w.ledger else Some(map[])
  {
    hide InvAt, Reachable;
    var a := Move(w, r, Starting);
    ReachSelf(files, w);
    ReachNext(files, w, w, Spawn(r), a);
    if w.ledger.Some? {
      v := Move(a, r, Reading);
      ReachNext(files, w, a, Inspect(r), v);
    } else {
      var b := Move(a, r, Creating);
      ReachNext(files, w, a, Inspect(r), b);
      v := Move(b, r, Reading).(ledger := Some(map[]));
      ReachNext(files, w, b, Create(r), v);
    }
  }

  function RowsOf(ledger: Option<Ledger>): Ledger
  {
    if ledger.Some? then ledger.value else map[]
  }

  /** Nobody is between recording a file and marking it applied, and nobody has stopped there. */
  ghost predicate Idle(files: seq<File>, w: World)
  {
    (forall r :: r in w.runners ==> !Busy(w.runners[r])) && !Interrupted(files, w)
  }

  lemma IdleIsSettled(files: seq<File>, w: World) returns (m: nat)
    requires Inv(files, w) && Idle(files, w)
    ensures
      var rows := RowsOf(w.ledger);
      m <= |files| && Prefix(files, rows, m) && !LastApplying(files, rows, m)
  {
    hide Prefix, LastApplying, PcOk, StartedOk;
    if w.ledger.Some? {
      m :| InvAt(files, w, w.ledger.value, m);
    } else {
      m := 0;
      NothingRecorded(files);
    }
  }

  lemma NothingRecorded(files: seq<File>)
    ensures Prefix(files, map[], 0) && !LastApplying(files, map[], 0)
  {
  }

  /** From every reachable world that is idle and not interrupted a new runner can complete the migration. */
  lemma CanComplete(files: seq<File>, w: World, r: nat) returns (v: World)
    requires DistinctIds(files) && Reachable(files, FRESH, w) && Idle(files, w) && r !in w.runners
    ensures Reachable(files, w, v) && Complete(files, v)
  {
    hide Reachable, Inv, Idle, Prefix, LastApplying, HistoryOk, Complete;
    ReachableInv(files, w);
    var m := IdleIsSettled(files, w);
    var u := GetsToRead(files, w, r);
    var rows := u.ledger.value;
    PrefixIsHistory(files, rows, m);
    var t := Move(u, r, Looping(rows.Keys, 0));
    ReachNext(files, w, u, Read(r), t);
    v := LoopCompletes(files, w, t, r, 0, m);
  }

  // ---- one undisturbed run ----

  datatype Outcome = Refused | Failed(k: nat) | Completed

  class Store {
    var ledger: Option<Ledger>
    var others: bool

    constructor ()
      ensures ledger.None? && !others
    {
      ledger, others := None, false;
    }
  }

  lemma HistoryPrefix(files: seq<File>, rows: Ledger, m: nat)
    requires DistinctIds(files) && HistoryOk(files, rows) && Recorded(files, rows, m)
    ensures Prefix(files, rows, m) && !LastApplying(files, rows, m)
  {
    forall i | 0 <= i < m ensures rows[files[i].id] == Row(files[i].checksum, Applied) {
      assert files[i].id in rows;
    }
  }

  lemma EmptyHistoryOk(files: seq<File>)
    ensures HistoryOk(files, map[])
  {
  }

  /** Of the first k files, those not recorded before ran without an error. */
  ghost predicate RanWell(files: seq<File>, existing: Ledger, sqlOk: seq<bool>, k: nat)
    requires |sqlOk| == |files|
  {
    forall i :: 0 <= i < k && i < |files| && files[i].id !in existing ==> sqlOk[i]
  }

  /** The loop over the files, skipping those recorded before. */
  method ApplyAll(files: seq<File>, db: Store, existing: Ledger, ghost m: nat, sqlOk: seq<bool>) returns (r: Outcome)
    requires DistinctIds(files) && |sqlOk| == |files| && Recorded(files, existing, m)
    requires db.ledger == Some(existing) && Prefix(files, existing, m) && !LastApplying(files, existing, m)
    modifies db
    ensures r.Completed? || r.Failed?
    ensures r.Completed? ==>
              && db.ledger.Some? && Prefix(files, db.ledger.value, |files|) && !LastApplying(files, db.ledger.value, |files|)
              && RanWell(files, existing, sqlOk, |files|)
    ensures r.Failed? ==>
              && r.k < |files| && !sqlOk[r.k] && RanWell(files, existing, sqlOk, r.k) && db.ledger.Some?
              && Prefix(files, db.ledger.value, r.k + 1) && LastApplying(files, db.ledger.value, r.k + 1)
  {
    hide Prefix, LastApplying, Marked;
    var rows := existing;
    for k := 0 to |files|
      invariant db.ledger == Some(rows)
      invariant RanWell(files, existing, sqlOk, k)
      invariant Prefix(files, rows, if k < m then m else k) && !LastApplying(files, rows, if k < m then m else k)
    {
      if files[k].id in existing {
        continue;
      }
      InsertPrefix(files, rows, k);
      rows := rows[files[k].id := Row(files[k].checksum, Applying)];
      db.ledger := Some(rows);
      db.others := true;
      if !sqlOk[k] {
        return Failed(k);
      }
      MarkPrefix(files, rows, k + 1);
      rows := Marked(rows, files[k].id);
      db.ledger := Some(rows);
    }
    return Completed;
  }

  /**
   A run that nobody disturbs: it refuses exactly an untracked or unclean database, leaving it alone;
   otherwise it ends with every file applied, or with the first failing file left applying.
   */
  method Migrate(files: seq<File>, db: Store, sqlOk: seq<bool>) returns (r: Outcome)
    requires DistinctIds(files) && |sqlOk| == |files|
    modifies db
    ensures r.Refused? <==> old(db.ledger.None? && db.others) || !HistoryOk(files, old(RowsOf(db.ledger)))
    ensures r.Refused? ==> db.ledger == old(db.ledger) && db.others == old(db.others)
    ensures r.Completed? ==>
              && db.ledger.Some? && Prefix(files, db.ledger.value, |files|) && !LastApplying(files, db.ledger.value, |files|)
              && RanWell(files, old(RowsOf(db.ledger)), sqlOk, |files|)
    ensures r.Failed? ==>
              && r.k < |files| && !sqlOk[r.k] && RanWell(files, old(RowsOf(db.ledger)), sqlOk, r.k) && db.ledger.Some?
              && Prefix(files, db.ledger.value, r.k + 1) && LastApplying(files, db.ledger.value, r.k + 1)
  {
    hide HistoryOk, Prefix, LastApplying, Recorded, RanWell;
    if db.ledger.None? && db.others {
      return Refused;
    }
    EmptyHistoryOk(files);
    var rows := RowsOf(db.ledger);
    var checked := CheckHistory(files, rows);
    if checked.Unclean? {
      return Refused;
    }
    ghost var m: nat :| Recorded(files, rows, m);
    HistoryPrefix(files, rows, m);
    db.ledger := Some(rows);
    r := ApplyAll(files, db, rows, m, sqlOk);
  }
}
