/** The SNAPSHOT payload: encoding, decoding, and what survives the trip. */
module SnapshotCodec {

  import opened Options
  import opened Bytes
  import opened Records
  import opened Sequences
  import opened Snapshot
  import opened Tlv

  // ---- encoding ----

  function LinksValue(l: Links): seq<byte>
    requires l.count as int <= |l.rows|
  {
    [l.count] + EncodeRows(LINK, l.rows[..l.count])
  }

  function SysxValue(count: byte, x: SysxTable): seq<byte>
    requires count as int <= |x.rows|
  {
    [count] + EncodeRows(SYSX, x.rows[..count])
  }

  function AlertsValue(a: Alerts): seq<byte>
    requires a.count as int <= |a.rows|
  {
    [a.total] + a.faults + [a.count] + EncodeRows(ALERT, a.rows[..a.count])
  }

  function ProbesValue(x: Probes): seq<byte>
    requires x.count as int <= |x.rows|
  {
    [x.count] + EncodeRows(PROBE, x.rows[..x.count])
  }

  function PopValue(x: Pop): seq<byte>
    requires x.count as int <= |x.tail|
  {
    [x.count] + x.tail[..x.count]
  }

  function TotalsValue(x: Totals): (v: seq<byte>)
    ensures |v| == 16
  {
    WriteLe32(x.wanUp) + WriteLe32(x.wanDown) + WriteLe32(x.lanUp) + WriteLe32(x.lanDown)
  }

  function Opt(present: bool, tag: byte, value: seq<byte>): seq<Tlv>
  {
    if present then [Tlv(tag, value)] else []
  }

  function Tables(s: Snap): seq<Tlv>
    requires Sound(s)
  {
    Opt(s.links.has != 0, LINKS, LinksValue(s.links))
    + Opt(s.sysx.has != 0, SYSX_TAG, SysxValue(s.globals.systemCount, s.sysx))
    + Opt(s.alerts.has != 0, ALERTS, AlertsValue(s.alerts))
    + Opt(s.probes.has != 0, PROBES, ProbesValue(s.probes))
  }

  /** The sections panelExtWrite emits, in its order. */
  function Sections(s: Snap): seq<Tlv>
    requires Sound(s)
  {
    Tables(s)
    + Opt(s.pop.count != 0, POP, PopValue(s.pop))
    + Opt(s.heat.has != 0, HEAT, s.heat.warn + s.heat.crit)
    + Opt(s.totals.has != 0, TOTALS, TotalsValue(s.totals))
  }

  function BaseBytes(s: Snap): seq<byte>
    requires Sound(s)
  {
    WriteGlobals(s.globals)
    + EncodeRows(POOL, s.pools[..s.globals.poolCount])
    + EncodeRows(SYSTEM, s.systems[..s.globals.systemCount])
    + if s.globals.hasTopAlert != 0 then WriteTopAlert(s.topAlert) else []
  }

  function GearBytes(s: Snap): seq<byte>
    requires Sound(s)
  {
    [s.gearCount] + EncodeRows(GEAR, s.gear[..s.gearCount])
  }

  // ---- sizes ----

  /** `need` of panelEncodeSnapshot. */
  function Need(s: Snap): nat
  {
    GLOBALS_SIZE + 20 * (s.globals.poolCount as int) + 16 * (s.globals.systemCount as int)
    + (if s.globals.hasTopAlert != 0 then ALERT_SIZE else 0) + 1 + 4 * (s.gearCount as int)
  }

  function TablesSize(s: Snap): nat
  {
    (if s.links.has != 0 then 3 + 1 + 24 * (s.links.count as int) else 0)
    + (if s.sysx.has != 0 then 3 + 1 + 12 * (s.globals.systemCount as int) else 0)
    + (if s.alerts.has != 0 then 3 + 2 + FAULT_CODES + 34 * (s.alerts.count as int) else 0)
    + (if s.probes.has != 0 then 3 + 1 + 14 * (s.probes.count as int) else 0)
  }

  /** panelExtSize */
  function ExtSize(s: Snap): nat
  {
    TablesSize(s)
    + (if s.pop.count != 0 then 3 + 1 + (s.pop.count as int) else 0)
    + (if s.heat.has != 0 then 3 + 2 * HEAT_LEN else 0)
    + (if s.totals.has != 0 then 3 + 16 else 0)
  }

  /** Within the counts no snapshot outgrows 3184 bytes, so only the caller's capacity can be lacking. */
  lemma SizeBound(s: Snap)
    requires CountsOk(s)
    ensures Need(s) + ExtSize(s) <= 3184
  {
  }

  lemma ValueSizes(s: Snap)
    requires Sound(s)
    ensures |LinksValue(s.links)| == 1 + 24 * (s.links.count as int)
    ensures |SysxValue(s.globals.systemCount, s.sysx)| == 1 + 12 * (s.globals.systemCount as int)
    ensures |AlertsValue(s.alerts)| == 2 + FAULT_CODES + 34 * (s.alerts.count as int)
    ensures |ProbesValue(s.probes)| == 1 + 14 * (s.probes.count as int)
    ensures |PopValue(s.pop)| == 1 + s.pop.count as int
  {
    hide Lawful, EncodeRows;
    LinkLawful();
    EncodedSize(LINK, s.links.rows[..s.links.count]);
    SysxLawful();
    EncodedSize(SYSX, s.sysx.rows[..s.globals.systemCount]);
    AlertLawful();
    EncodedSize(ALERT, s.alerts.rows[..s.alerts.count]);
    ProbeLawful();
    EncodedSize(PROBE, s.probes.rows[..s.probes.count]);
  }

  lemma {:induction false} ConcatAppend(xs: seq<Tlv>, ys: seq<Tlv>)
    requires AllFit(xs) && AllFit(ys)
    ensures AllFit(xs + ys) && Concat(xs + ys) == Concat(xs) + Concat(ys)
    decreases |xs|
  {
    if xs == [] {
      assert xs + ys == ys;
    } else {
      assert (xs + ys)[1..] == xs[1..] + ys;
      ConcatAppend(xs[1..], ys);
    }
  }

  lemma OptSize(present: bool, tag: byte, value: seq<byte>)
    requires |value| < 0x1_0000
    ensures AllFit(Opt(present, tag, value))
    ensures |Concat(Opt(present, tag, value))| == if present then 3 + |value| else 0
  {
    var xs := Opt(present, tag, value);
    if present {
      assert xs[1..] == [];
    }
  }

  lemma AppendSize(xs: seq<Tlv>, present: bool, tag: byte, value: seq<byte>)
    requires AllFit(xs) && |value| < 0x1_0000
    ensures AllFit(xs + Opt(present, tag, value))
    ensures |Concat(xs + Opt(present, tag, value))| == |Concat(xs)| + if present then 3 + |value| else 0
  {
    OptSize(present, tag, value);
    ConcatAppend(xs, Opt(present, tag, value));
  }

  lemma TablesFit(s: Snap)
    requires Sound(s)
    ensures AllFit(Tables(s)) && |Concat(Tables(s))| == TablesSize(s)
  {
    hide LinksValue, SysxValue, AlertsValue, ProbesValue, Concat, Opt, AllFit;
    ValueSizes(s);
    var a := Opt(s.links.has != 0, LINKS, LinksValue(s.links));
    OptSize(s.links.has != 0, LINKS, LinksValue(s.links));
    var b := a + Opt(s.sysx.has != 0, SYSX_TAG, SysxValue(s.globals.systemCount, s.sysx));
    AppendSize(a, s.sysx.has != 0, SYSX_TAG, SysxValue(s.globals.systemCount, s.sysx));
    var c := b + Opt(s.alerts.has != 0, ALERTS, AlertsValue(s.alerts));
    AppendSize(b, s.alerts.has != 0, ALERTS, AlertsValue(s.alerts));
    AppendSize(c, s.probes.has != 0, PROBES, ProbesValue(s.probes));
  }

  /** panelExtWrite fills exactly what panelExtSize announced. */
  lemma SectionsSize(s: Snap)
    requires Sound(s)
    ensures AllFit(Sections(s)) && |Concat(Sections(s))| == ExtSize(s)
  {
    hide Tables, TablesSize, PopValue, TotalsValue, Concat, Opt, AllFit;
    ValueSizes(s);
    TablesFit(s);
    var e := Tables(s) + Opt(s.pop.count != 0, POP, PopValue(s.pop));
    AppendSize(Tables(s), s.pop.count != 0, POP, PopValue(s.pop));
    var f := e + Opt(s.heat.has != 0, HEAT, s.heat.warn + s.heat.crit);
    AppendSize(e, s.heat.has != 0, HEAT, s.heat.warn + s.heat.crit);
    AppendSize(f, s.totals.has != 0, TOTALS, TotalsValue(s.totals));
  }

  lemma HeadSize(s: Snap)
    requires Sound(s)
    ensures |BaseBytes(s)| + |GearBytes(s)| == Need(s)
  {
    hide Lawful, EncodeRows, WriteGlobals, WriteTopAlert;
    PoolLawful();
    EncodedSize(POOL, s.pools[..s.globals.poolCount]);
    SystemLawful();
    EncodedSize(SYSTEM, s.systems[..s.globals.systemCount]);
    GearLawful();
    EncodedSize(GEAR, s.gear[..s.gearCount]);
  }

  function Payload(s: Snap): (b: seq<byte>)
    requires Sound(s)
    ensures |b| == Need(s) + ExtSize(s)
  {
    SectionsSize(s);
    HeadSize(s);
    BaseBytes(s) + GearBytes(s) + Concat(Sections(s))
  }

  // ---- decoding ----

  function BaseNeed(p: seq<byte>): nat
    requires |p| >= GLOBALS_SIZE
  {
    GLOBALS_SIZE + 20 * (p[19] as int) + 16 * (p[20] as int) + if p[21] != 0 then ALERT_SIZE else 0
  }

  /** The checks that can fail a snapshot. */
  predicate BaseOk(p: seq<byte>)
  {
    && |p| >= GLOBALS_SIZE
    && p[19] <= MAX_POOLS && p[20] <= MAX_SYSTEMS && p[21] <= 1
    && |p| >= BaseNeed(p)
  }

  function DecodeBase(p: seq<byte>): (s: Snap)
    requires BaseOk(p)
    ensures Sound(s)
  {
    PoolLawful();
    SystemLawful();
    var systemsAt := GLOBALS_SIZE + 20 * (p[19] as int);
    var alertAt := systemsAt + 16 * (p[20] as int);
    Blank().(
      globals := ReadGlobals(p[..GLOBALS_SIZE]),
      pools := Overlay(NoPools(), DecodeRows(POOL, p[GLOBALS_SIZE..], p[19])),
      systems := Overlay(NoSystems(), DecodeRows(SYSTEM, p[systemsAt..], p[20])),
      topAlert := if p[21] != 0 then ReadTopAlert(p[alertAt..alertAt + ALERT_SIZE]) else NO_TOP)
  }

  /** The gear trailer is there only when its count and all its entries fit. */
  predicate GearOk(t: seq<byte>)
  {
    |t| > 0 && t[0] <= MAX_GEAR && |t| >= 1 + 4 * (t[0] as int)
  }

  function WithGear(t: seq<byte>, s: Snap): (r: Snap)
    requires GearOk(t) && Sound(s)
    ensures Sound(r)
  {
    GearLawful();
    s.(gearCount := t[0], gear := Overlay(s.gear, DecodeRows(GEAR, t[1..], t[0])))
  }

  function DecodeTrailer(t: seq<byte>, s: Snap): (r: Snap)
    requires Sound(s)
    ensures Sound(r)
  {
    if GearOk(t) then Walk(t[1 + 4 * (t[0] as int)..], WithGear(t, s)) else s
  }

  /** panelDecodeSnapshot; None is its -1. */
  function Decode(p: seq<byte>): (r: Option<Snap>)
    ensures r.Some? <==> BaseOk(p)
    ensures r.Some? ==> Sound(r.value)
  {
    if BaseOk(p) then Some(DecodeTrailer(p[BaseNeed(p)..], DecodeBase(p))) else None
  }

  // ---- what the wire keeps of a snapshot ----

  function CanonTable<T>(c: Codec<T>, blank: seq<T>, rows: seq<T>, count: nat): (r: seq<T>)
    requires |blank| == |rows| && count <= |rows|
    ensures |r| == |rows|
  {
    Overlay(blank, CanonRows(c, rows[..count]))
  }

  function CanonLinks(l: Links): Links
    requires |l.rows| == MAX_LINKS && l.count <= MAX_LINKS
  {
    if l.has == 0 then NoLinks() else Links(1, l.count, CanonTable(LINK, NoLinks().rows, l.rows, l.count))
  }

  function CanonSysx(count: byte, x: SysxTable): SysxTable
    requires |x.rows| == MAX_SYSTEMS && count <= MAX_SYSTEMS
  {
    if x.has == 0 then NoSysx() else SysxTable(1, CanonTable(SYSX, NoSysx().rows, x.rows, count))
  }

  function CanonAlerts(a: Alerts): Alerts
    requires |a.rows| == MAX_ALERTS && a.count <= MAX_ALERTS
  {
    if a.has == 0 then NoAlerts()
    else Alerts(1, a.total, a.faults, a.count, CanonTable(ALERT, NoAlerts().rows, a.rows, a.count))
  }

  function CanonProbes(x: Probes): Probes
    requires |x.rows| == MAX_PROBES && x.count <= MAX_PROBES
  {
    if x.has == 0 then NoProbes() else Probes(1, x.count, CanonTable(PROBE, NoProbes().rows, x.rows, x.count))
  }

  function CanonPop(x: Pop): Pop
    requires |x.tail| == MAX_POP && x.count <= MAX_POP
  {
    Pop(x.count, Overlay(NoPop().tail, x.tail[..x.count]))
  }

  function CanonHeat(x: Heat): Heat
  {
    if x.has == 0 then NoHeat() else x.(has := 1)
  }

  function CanonTotals(x: Totals): Totals
  {
    if x.has == 0 then NO_TOTALS else x.(has := 1)
  }

  /** Globals, pools, systems and top alert as they come back. */
  function CanonBase(s: Snap): Snap
    requires Sound(s)
  {
    Blank().(
      globals := CanonGlobals(s.globals),
      pools := CanonTable(POOL, NoPools(), s.pools, s.globals.poolCount),
      systems := CanonTable(SYSTEM, NoSystems(), s.systems, s.globals.systemCount),
      topAlert := if s.globals.hasTopAlert != 0 then CanonTopAlert(s.topAlert) else NO_TOP)
  }

  function CanonHead(s: Snap): Snap
    requires Sound(s)
  {
    CanonBase(s).(gearCount := s.gearCount, gear := CanonTable(GEAR, NoGear(), s.gear, s.gearCount))
  }

  /** Names sanitised, flags 0 or 1, entries past a count and absent sections zero. */
  function Canon(s: Snap): Snap
    requires Sound(s)
  {
    CanonHead(s).(
      links := CanonLinks(s.links),
      sysx := CanonSysx(s.globals.systemCount, s.sysx),
      alerts := CanonAlerts(s.alerts),
      probes := CanonProbes(s.probes),
      pop := CanonPop(s.pop),
      heat := CanonHeat(s.heat),
      totals := CanonTotals(s.totals))
  }

  // ---- each section comes back ----

  lemma TableTaken<T(!new)>(c: Codec<T>, rows: seq<T>, blank: seq<T>, count: nat)
    requires Lawful(c) && |blank| == |rows| && count <= |rows|
    ensures |EncodeRows(c, rows[..count])| == count * c.stride
    ensures Overlay(blank, DecodeRows(c, EncodeRows(c, rows[..count]), count)) == CanonTable(c, blank, rows, count)
  {
    EncodedSize(c, rows[..count]);
    RowsRoundTrip(c, rows[..count], []);
    assert EncodeRows(c, rows[..count]) + [] == EncodeRows(c, rows[..count]);
  }

  lemma LinksTaken(l: Links)
    requires |l.rows| == MAX_LINKS && l.count <= MAX_LINKS && l.has != 0
    ensures TakeLinks(LinksValue(l), NoLinks()) == CanonLinks(l)
  {
    hide Fill, EncodeRows, CanonRows, DecodeRows, Lawful;
    LinkLawful();
    TableTaken(LINK, l.rows, NoLinks().rows, l.count);
    assert LinksValue(l)[1..] == EncodeRows(LINK, l.rows[..l.count]);
  }

  lemma SysxTaken(count: byte, x: SysxTable)
    requires |x.rows| == MAX_SYSTEMS && count <= MAX_SYSTEMS && x.has != 0
    ensures TakeSysx(SysxValue(count, x), count, NoSysx()) == CanonSysx(count, x)
  {
    hide Fill, EncodeRows, CanonRows, DecodeRows, Lawful;
    SysxLawful();
    TableTaken(SYSX, x.rows, NoSysx().rows, count);
    assert SysxValue(count, x)[1..] == EncodeRows(SYSX, x.rows[..count]);
  }

  lemma AlertsTaken(a: Alerts)
    requires |a.rows| == MAX_ALERTS && |a.faults| == FAULT_CODES && a.count <= MAX_ALERTS && a.has != 0
    ensures TakeAlerts(AlertsValue(a), NoAlerts()) == CanonAlerts(a)
  {
    hide Fill, EncodeRows, CanonRows, DecodeRows, Lawful;
    AlertLawful();
    TableTaken(ALERT, a.rows, NoAlerts().rows, a.count);
    var v := AlertsValue(a);
    assert v[9..] == EncodeRows(ALERT, a.rows[..a.count]);
    assert v[1..8] == a.faults && v[8] == a.count && v[0] == a.total;
  }

  lemma ProbesTaken(x: Probes)
    requires |x.rows| == MAX_PROBES && x.count <= MAX_PROBES && x.has != 0
    ensures TakeProbes(ProbesValue(x), NoProbes()) == CanonProbes(x)
  {
    hide Fill, EncodeRows, CanonRows, DecodeRows, Lawful;
    ProbeLawful();
    TableTaken(PROBE, x.rows, NoProbes().rows, x.count);
    assert ProbesValue(x)[1..] == EncodeRows(PROBE, x.rows[..x.count]);
  }

  lemma PopTaken(x: Pop)
    requires |x.tail| == MAX_POP && x.count <= MAX_POP
    ensures TakePop(PopValue(x), NoPop()) == CanonPop(x)
    ensures x.count == 0 ==> CanonPop(x) == NoPop()
  {
    hide Fill;
    assert PopValue(x)[1..1 + x.count as int] == x.tail[..x.count];
    if x.count == 0 {
      assert Overlay(NoPop().tail, x.tail[..0]) == NoPop().tail;
    }
  }

  lemma HeatTaken(x: Heat)
    requires |x.warn| == HEAT_LEN && |x.crit| == HEAT_LEN && x.has != 0
    ensures TakeHeat(x.warn + x.crit, NoHeat()) == CanonHeat(x)
  {
    hide Fill;
    var v := x.warn + x.crit;
    assert v[..HEAT_LEN] == x.warn && v[HEAT_LEN..2 * HEAT_LEN] == x.crit;
  }

  lemma TotalsTaken(x: Totals)
    requires x.has != 0
    ensures TakeTotals(TotalsValue(x), NO_TOTALS) == CanonTotals(x)
  {
    hide WriteLe32, ReadLe32;
    var v := TotalsValue(x);
    assert v[..4] == WriteLe32(x.wanUp) && v[4..8] == WriteLe32(x.wanDown);
    assert v[8..12] == WriteLe32(x.lanUp) && v[12..16] == WriteLe32(x.lanDown);
    assert v[0] == v[..4][0] && v[1] == v[..4][1] && v[2] == v[..4][2] && v[3] == v[..4][3];
    assert v[4] == v[4..8][0] && v[5] == v[4..8][1] && v[6] == v[4..8][2] && v[7] == v[4..8][3];
    assert v[8] == v[8..12][0] && v[9] == v[8..12][1] && v[10] == v[8..12][2] && v[11] == v[8..12][3];
    assert v[12] == v[12..16][0] && v[13] == v[12..16][1] && v[14] == v[12..16][2] && v[15] == v[12..16][3];
  }

  // ---- the trailer comes back ----

  lemma AppendFold(xs: seq<Tlv>, present: bool, tag: byte, value: seq<byte>, s: Snap)
    requires Sound(s)
    ensures Fold(xs + Opt(present, tag, value), s)
            == if present then Apply(Tlv(tag, value), Fold(xs, s)) else Fold(xs, s)
  {
    hide Apply, Sound, Fold;
    FoldAppend(xs, Opt(present, tag, value), s);
    OptFold(present, tag, value, Fold(xs, s));
  }

  lemma OptFold(present: bool, tag: byte, value: seq<byte>, s: Snap)
    requires Sound(s)
    ensures Fold(Opt(present, tag, value), s) == if present then Apply(Tlv(tag, value), s) else s
  {
    hide Apply, Sound;
    var xs := Opt(present, tag, value);
    if present {
      assert Fold(xs[1..], Apply(xs[0], s)) == Apply(xs[0], s);
    }
  }

  ghost predicate NoSections(t: Snap)
  {
    && t.links == NoLinks() && t.sysx == NoSysx() && t.alerts == NoAlerts() && t.probes == NoProbes()
    && t.pop == NoPop() && t.heat == NoHeat() && t.totals == NO_TOTALS
  }

  function WithTables(s: Snap, t: Snap): Snap
    requires Sound(s)
  {
    t.(links := CanonLinks(s.links), sysx := CanonSysx(s.globals.systemCount, s.sysx),
       alerts := CanonAlerts(s.alerts), probes := CanonProbes(s.probes))
  }

  lemma TablesFold(s: Snap, t: Snap)
    requires Sound(s) && Sound(t) && NoSections(t) && t.globals.systemCount == s.globals.systemCount
    ensures Fold(Tables(s), t) == WithTables(s, t)
  {
    hide Fold, Opt, LinksValue, SysxValue, AlertsValue, ProbesValue, TakeLinks, TakeSysx, TakeAlerts, TakeProbes,
         NoLinks, NoSysx, NoAlerts, NoProbes, NoPop, NoHeat, CanonTable;
    var a := Opt(s.links.has != 0, LINKS, LinksValue(s.links));
    OptFold(s.links.has != 0, LINKS, LinksValue(s.links), t);
    if s.links.has != 0 { LinksTaken(s.links); }
    var b := a + Opt(s.sysx.has != 0, SYSX_TAG, SysxValue(s.globals.systemCount, s.sysx));
    AppendFold(a, s.sysx.has != 0, SYSX_TAG, SysxValue(s.globals.systemCount, s.sysx), t);
    if s.sysx.has != 0 { SysxTaken(s.globals.systemCount, s.sysx); }
    var c := b + Opt(s.alerts.has != 0, ALERTS, AlertsValue(s.alerts));
    AppendFold(b, s.alerts.has != 0, ALERTS, AlertsValue(s.alerts), t);
    if s.alerts.has != 0 { AlertsTaken(s.alerts); }
    AppendFold(c, s.probes.has != 0, PROBES, ProbesValue(s.probes), t);
    if s.probes.has != 0 { ProbesTaken(s.probes); }
  }

  /** The emitted sections rebuild exactly the canonical ones. */
  lemma SectionsFold(s: Snap, t: Snap)
    requires Sound(s) && Sound(t) && NoSections(t) && t.globals.systemCount == s.globals.systemCount
    ensures Fold(Sections(s), t)
            == WithTables(s, t).(pop := CanonPop(s.pop), heat := CanonHeat(s.heat), totals := CanonTotals(s.totals))
  {
    hide Fold, Opt, LinksValue, SysxValue, AlertsValue, ProbesValue, PopValue, TotalsValue, TakePop, TakeHeat, TakeTotals,
         NoLinks, NoSysx, NoAlerts, NoProbes, NoPop, NoHeat, CanonLinks, CanonSysx, CanonAlerts, CanonProbes, CanonPop,
         TakeLinks, TakeSysx, TakeAlerts, TakeProbes;
    TablesFold(s, t);
    var d := Tables(s);
    var e := d + Opt(s.pop.count != 0, POP, PopValue(s.pop));
    AppendFold(d, s.pop.count != 0, POP, PopValue(s.pop), t);
    PopTaken(s.pop);
    var f := e + Opt(s.heat.has != 0, HEAT, s.heat.warn + s.heat.crit);
    AppendFold(e, s.heat.has != 0, HEAT, s.heat.warn + s.heat.crit, t);
    if s.heat.has != 0 { HeatTaken(s.heat); }
    AppendFold(f, s.totals.has != 0, TOTALS, TotalsValue(s.totals), t);
    if s.totals.has != 0 { TotalsTaken(s.totals); }
  }

  // ---- the base comes back ----

  lemma BaseParts(s: Snap, rest: seq<byte>)
    requires Sound(s)
    ensures
      var p := BaseBytes(s) + rest;
      var pools := EncodeRows(POOL, s.pools[..s.globals.poolCount]);
      var systems := EncodeRows(SYSTEM, s.systems[..s.globals.systemCount]);
      var top := if s.globals.hasTopAlert != 0 then WriteTopAlert(s.topAlert) else [];
      var systemsAt := GLOBALS_SIZE + 20 * (s.globals.poolCount as int);
      var alertAt := systemsAt + 16 * (s.globals.systemCount as int);
      && |BaseBytes(s)| == alertAt + |top|
      && p[..GLOBALS_SIZE] == WriteGlobals(s.globals)
      && p[GLOBALS_SIZE..] == pools + (systems + top + rest)
      && p[systemsAt..] == systems + (top + rest)
      && p[alertAt..alertAt + |top|] == top
      && p[alertAt + |top|..] == rest
  {
    hide Lawful, EncodeRows, WriteGlobals, WriteTopAlert;
    PoolLawful();
    EncodedSize(POOL, s.pools[..s.globals.poolCount]);
    SystemLawful();
    EncodedSize(SYSTEM, s.systems[..s.globals.systemCount]);
  }

  lemma BaseCounts(s: Snap, rest: seq<byte>)
    requires Sound(s)
    ensures
      var p := BaseBytes(s) + rest;
      && |p| >= GLOBALS_SIZE
      && p[19] == s.globals.poolCount && p[20] == s.globals.systemCount && p[21] == Flag(s.globals.hasTopAlert)
      && BaseOk(p) && BaseNeed(p) == |BaseBytes(s)|
  {
    hide BaseBytes, EncodeRows, WriteGlobals, WriteTopAlert, Counters;
    BaseParts(s, rest);
    var p := BaseBytes(s) + rest;
    var g := p[..GLOBALS_SIZE];
    GlobalsSlices(s.globals);
    CountersAt(s.globals, g);
    assert p[19] == g[19] && p[20] == g[20] && p[21] == g[21];
  }

  lemma BaseRoundTrip(s: Snap, rest: seq<byte>)
    requires Sound(s)
    ensures BaseOk(BaseBytes(s) + rest) && DecodeBase(BaseBytes(s) + rest) == CanonBase(s)
  {
    hide BaseBytes, EncodeRows, DecodeRows, CanonRows, WriteGlobals, ReadGlobals, WriteTopAlert, ReadTopAlert, Lawful,
         Blank, NoPools, NoSystems, CanonGlobals, BaseOk;
    BaseParts(s, rest);
    BaseCounts(s, rest);
    GlobalsRoundTrip(s.globals);
    TopAlertRoundTrip(s.topAlert);
    PoolLawful();
    SystemLawful();
    var systems := EncodeRows(SYSTEM, s.systems[..s.globals.systemCount]);
    var top := if s.globals.hasTopAlert != 0 then WriteTopAlert(s.topAlert) else [];
    RowsRoundTrip(POOL, s.pools[..s.globals.poolCount], systems + top + rest);
    RowsRoundTrip(SYSTEM, s.systems[..s.globals.systemCount], top + rest);
  }

  lemma GearRoundTrip(s: Snap, rest: seq<byte>, t: Snap)
    requires Sound(s) && Sound(t) && t.gear == NoGear()
    ensures GearOk(GearBytes(s) + rest) && (GearBytes(s) + rest)[1 + 4 * (s.gearCount as int)..] == rest
    ensures WithGear(GearBytes(s) + rest, t)
            == t.(gearCount := s.gearCount, gear := CanonTable(GEAR, NoGear(), s.gear, s.gearCount))
  {
    hide EncodeRows, DecodeRows, CanonRows, Lawful, NoGear;
    GearLawful();
    EncodedSize(GEAR, s.gear[..s.gearCount]);
    RowsRoundTrip(GEAR, s.gear[..s.gearCount], rest);
    assert (GearBytes(s) + rest)[1..] == EncodeRows(GEAR, s.gear[..s.gearCount]) + rest;
  }

  lemma CanonBaseIsBare(s: Snap)
    requires Sound(s)
    ensures NoSections(CanonBase(s)) && NoSections(CanonHead(s)) && CanonBase(s).gear == NoGear()
    ensures Sound(CanonBase(s)) && Sound(CanonHead(s))
  {
    hide Fill, CanonRows;
  }

  /** Decoding an encoded snapshot gives it back in canonical form. */
  lemma RoundTrip(s: Snap)
    requires Sound(s)
    ensures Decode(Payload(s)) == Some(Canon(s))
  {
    hide BaseBytes, GearBytes, Concat, Sections, DecodeBase, WithGear, CanonBase, CanonHead, NoSections, Walk, Fold, BaseOk,
         GearOk, CanonPop, CanonHeat, CanonTotals, CanonLinks, CanonSysx, CanonAlerts, CanonProbes, BaseNeed, Sound;
    SectionsSize(s);
    var ext := Concat(Sections(s));
    var trailer := GearBytes(s) + ext;
    assert Payload(s) == BaseBytes(s) + trailer;
    BaseRoundTrip(s, trailer);
    BaseCounts(s, trailer);
    CanonBaseIsBare(s);
    GearRoundTrip(s, ext, CanonBase(s));
    HeadIsBaseWithGear(s);
    WalkIsFold(Sections(s), [], CanonHead(s));
    assert ext + [] == ext;
    SectionsFold(s, CanonHead(s));
    GearCountLeads(s, ext);
  }

  lemma HeadIsBaseWithGear(s: Snap)
    requires Sound(s)
    ensures CanonHead(s)
            == CanonBase(s).(gearCount := s.gearCount, gear := CanonTable(GEAR, NoGear(), s.gear, s.gearCount))
    ensures CanonHead(s).globals.systemCount == s.globals.systemCount
  {
  }

  lemma GearCountLeads(s: Snap, rest: seq<byte>)
    requires Sound(s)
    ensures |GearBytes(s) + rest| > 0 && (GearBytes(s) + rest)[0] == s.gearCount
  {
  }

  // ---- the canonical form is a fixed point ----

  lemma TableEncodes<T(!new)>(c: Codec<T>, blank: seq<T>, rows: seq<T>, count: nat)
    requires Lawful(c) && |blank| == |rows| && count <= |rows|
    ensures EncodeRows(c, CanonTable(c, blank, rows, count)[..count]) == EncodeRows(c, rows[..count])
  {
    CanonRowsEncode(c, rows[..count]);
    assert CanonTable(c, blank, rows, count)[..count] == CanonRows(c, rows[..count]);
  }

  lemma CanonIsSound(s: Snap)
    requires Sound(s)
    ensures Sound(Canon(s))
  {
    hide Fill, CanonRows;
  }

  lemma CanonBaseBytes(s: Snap)
    requires Sound(s) && Sound(Canon(s))
    ensures BaseBytes(Canon(s)) == BaseBytes(s) && GearBytes(Canon(s)) == GearBytes(s)
  {
    hide Lawful, EncodeRows, WriteGlobals, WriteTopAlert, CanonTable, Fill, CanonTopAlert;
    PoolLawful();
    TableEncodes(POOL, NoPools(), s.pools, s.globals.poolCount);
    SystemLawful();
    TableEncodes(SYSTEM, NoSystems(), s.systems, s.globals.systemCount);
    GearLawful();
    TableEncodes(GEAR, NoGear(), s.gear, s.gearCount);
    GlobalsRoundTrip(s.globals);
    TopAlertRoundTrip(s.topAlert);
  }

  lemma CanonTables(s: Snap)
    requires Sound(s) && Sound(Canon(s))
    ensures s.links.has != 0 ==> LinksValue(CanonLinks(s.links)) == LinksValue(s.links)
    ensures s.sysx.has != 0 ==>
              SysxValue(s.globals.systemCount, CanonSysx(s.globals.systemCount, s.sysx))
              == SysxValue(s.globals.systemCount, s.sysx)
    ensures s.alerts.has != 0 ==> AlertsValue(CanonAlerts(s.alerts)) == AlertsValue(s.alerts)
    ensures s.probes.has != 0 ==> ProbesValue(CanonProbes(s.probes)) == ProbesValue(s.probes)
  {
    hide Lawful, EncodeRows, CanonTable, Fill;
    LinkLawful();
    TableEncodes(LINK, NoLinks().rows, s.links.rows, s.links.count);
    SysxLawful();
    TableEncodes(SYSX, NoSysx().rows, s.sysx.rows, s.globals.systemCount);
    AlertLawful();
    TableEncodes(ALERT, NoAlerts().rows, s.alerts.rows, s.alerts.count);
    ProbeLawful();
    TableEncodes(PROBE, NoProbes().rows, s.probes.rows, s.probes.count);
  }

  lemma CanonSections(s: Snap)
    requires Sound(s) && Sound(Canon(s))
    ensures Sections(Canon(s)) == Sections(s)
  {
    hide LinksValue, SysxValue, AlertsValue, ProbesValue, TotalsValue, CanonTable, Fill;
    CanonTables(s);
    var c := Canon(s);
    assert PopValue(c.pop) == PopValue(s.pop) by {
      assert c.pop.tail[..s.pop.count] == s.pop.tail[..s.pop.count];
    }
    assert s.totals.has != 0 ==> TotalsValue(c.totals) == TotalsValue(s.totals) by {
      TotalsIgnoreFlag(s.totals);
    }
  }

  lemma TotalsIgnoreFlag(x: Totals)
    ensures TotalsValue(x.(has := 1)) == TotalsValue(x)
  {
  }

  /** Re-encoding what was decoded gives identical bytes. */
  lemma ReencodeIsIdentity(s: Snap)
    requires Sound(s)
    ensures Sound(Canon(s)) && Payload(Canon(s)) == Payload(s)
  {
    hide BaseBytes, GearBytes, Sections, Canon;
    CanonIsSound(s);
    SectionsSize(s);
    CanonBaseBytes(s);
    CanonSections(s);
  }

  // ---- what decides the base ----

  lemma {:induction false} DecodeRowsPrefix<T(!new)>(c: Codec<T>, b: seq<byte>, d: seq<byte>, count: nat)
    requires Lawful(c) && count * c.stride <= |b| && count * c.stride <= |d|
    requires b[..count * c.stride] == d[..count * c.stride]
    ensures DecodeRows(c, b, count) == DecodeRows(c, d, count)
    decreases count
  {
    if count != 0 {
      var n, m := c.stride, count * c.stride;
      assert m == n + (count - 1) * n;
      assert b[..n] == b[..m][..n] && d[..n] == d[..m][..n];
      assert b[n..][..m - n] == b[..m][n..] && d[n..][..m - n] == d[..m][n..];
      DecodeRowsPrefix(c, b[n..], d[n..], count - 1);
    }
  }

  ghost predicate SameBase(s: Snap, t: Snap)
  {
    s.globals == t.globals && s.pools == t.pools && s.systems == t.systems && s.topAlert == t.topAlert
  }

  lemma BaseDecides(p: seq<byte>, q: seq<byte>)
    requires BaseOk(p) && BaseNeed(p) <= |q| && q[..BaseNeed(p)] == p[..BaseNeed(p)]
    ensures BaseOk(q) && BaseNeed(q) == BaseNeed(p) && DecodeBase(q) == DecodeBase(p)
  {
    hide DecodeRows, ReadGlobals, ReadTopAlert, Lawful, Blank, NoPools, NoSystems;
    var need := BaseNeed(p);
    SameSlice(p, q, need, 0, GLOBALS_SIZE);
    assert p[..GLOBALS_SIZE] == q[..GLOBALS_SIZE];
    assert p[19] == p[..GLOBALS_SIZE][19] && p[20] == p[..GLOBALS_SIZE][20] && p[21] == p[..GLOBALS_SIZE][21];
    var systemsAt := GLOBALS_SIZE + 20 * (p[19] as int);
    var alertAt := systemsAt + 16 * (p[20] as int);
    PoolLawful();
    SameSlice(p, q, need, GLOBALS_SIZE, 20 * (p[19] as int));
    DecodeRowsPrefix(POOL, p[GLOBALS_SIZE..], q[GLOBALS_SIZE..], p[19]);
    SystemLawful();
    SameSlice(p, q, need, systemsAt, 16 * (p[20] as int));
    DecodeRowsPrefix(SYSTEM, p[systemsAt..], q[systemsAt..], p[20]);
    if p[21] != 0 {
      SameSlice(p, q, need, alertAt, ALERT_SIZE);
    }
  }

  lemma SameSlice(p: seq<byte>, q: seq<byte>, need: nat, i: nat, k: nat)
    requires need <= |p| && need <= |q| && p[..need] == q[..need] && i + k <= need
    ensures p[i..][..k] == q[i..][..k] && p[i..i + k] == q[i..i + k]
  {
    assert p[i..][..k] == p[..need][i..i + k] && q[i..][..k] == q[..need][i..i + k];
    assert p[i..i + k] == p[..need][i..i + k] && q[i..i + k] == q[..need][i..i + k];
  }

  lemma {:induction false} WalkKeepsBase(b: seq<byte>, s: Snap)
    requires Sound(s)
    ensures SameBase(Walk(b, s), s) && Walk(b, s).gearCount == s.gearCount && Walk(b, s).gear == s.gear
    decreases |b|
  {
    hide Sound, TakeLinks, TakeSysx, TakeAlerts, TakeProbes, TakePop, TakeHeat, TakeTotals;
    if !Truncated(b) {
      var n := ReadLe16(b[1], b[2]);
      WalkKeepsBase(b[3 + n..], Apply(Tlv(b[0], b[3..3 + n]), s));
    }
  }

  /** The return code and the base fields depend only on the base layout, whatever trails it. */
  lemma OnlyBaseDecides(p: seq<byte>, q: seq<byte>)
    requires BaseOk(p) && BaseNeed(p) <= |q| && q[..BaseNeed(p)] == p[..BaseNeed(p)]
    ensures Decode(q).Some? && SameBase(Decode(q).value, Decode(p).value)
  {
    hide DecodeBase, Sound;
    BaseDecides(p, q);
    TrailerKeepsBase(p[BaseNeed(p)..], DecodeBase(p));
    TrailerKeepsBase(q[BaseNeed(q)..], DecodeBase(p));
  }

  lemma TrailerKeepsBase(t: seq<byte>, s: Snap)
    requires Sound(s)
    ensures SameBase(DecodeTrailer(t, s), s)
  {
    hide Walk, Sound;
    if GearOk(t) {
      WalkKeepsBase(t[1 + 4 * (t[0] as int)..], WithGear(t, s));
    }
  }

  // ---- what decides the trailer ----

  /** A base layout followed by a complete gear trailer, and nothing else. */
  predicate CompleteHead(h: seq<byte>)
  {
    && BaseOk(h) && GearOk(h[BaseNeed(h)..])
    && |h| == BaseNeed(h) + 1 + 4 * (h[BaseNeed(h)] as int)
  }

  function HeadOf(h: seq<byte>): (s: Snap)
    requires CompleteHead(h)
    ensures Sound(s)
  {
    WithGear(h[BaseNeed(h)..], DecodeBase(h))
  }

  lemma HeadThenWalk(h: seq<byte>, t: seq<byte>)
    requires CompleteHead(h)
    ensures Decode(h + t) == Some(Walk(t, HeadOf(h)))
  {
    hide DecodeBase, Walk, Sound;
    var p, need := h + t, BaseNeed(h);
    assert p[..need] == h[..need];
    BaseDecides(h, p);
    var g := h[need..];
    assert p[need..] == g + t;
    GearThenRest(g, t, DecodeBase(h));
  }

  lemma GearThenRest(g: seq<byte>, t: seq<byte>, s: Snap)
    requires GearOk(g) && |g| == 1 + 4 * (g[0] as int) && Sound(s)
    ensures GearOk(g + t) && (g + t)[1 + 4 * (g[0] as int)..] == t && (g + t)[0] == g[0]
    ensures WithGear(g + t, s) == WithGear(g, s)
  {
    hide Sound, Lawful, DecodeRows;
    GearLawful();
    assert (g + t)[1..][..4 * (g[0] as int)] == g[1..][..4 * (g[0] as int)];
    DecodeRowsPrefix(GEAR, (g + t)[1..], g[1..], g[0]);
  }

  /** Reordering sections with distinct tags, or changing a truncated tail, changes nothing. */
  lemma TrailerOrderIgnored(h: seq<byte>, xs: seq<Tlv>, ys: seq<Tlv>, tail: seq<byte>, tail': seq<byte>)
    requires CompleteHead(h) && AllFit(xs) && AllFit(ys)
    requires TagsDistinct(xs) && multiset(xs) == multiset(ys)
    requires Truncated(tail) && Truncated(tail')
    ensures Decode(h + (Concat(xs) + tail)) == Decode(h + (Concat(ys) + tail'))
  {
    hide CompleteHead, HeadOf, Decode, Walk, Fold, Concat, Truncated, Sound;
    HeadThenWalk(h, Concat(xs) + tail);
    HeadThenWalk(h, Concat(ys) + tail');
    WalkIsFold(xs, tail, HeadOf(h));
    WalkIsFold(ys, tail', HeadOf(h));
    PermutationIgnored(xs, ys, HeadOf(h));
  }

  /** A section with an unknown tag between any two others changes nothing. */
  lemma UnknownSectionIgnored(h: seq<byte>, xs: seq<Tlv>, x: Tlv, ys: seq<Tlv>, tail: seq<byte>)
    requires CompleteHead(h) && AllFit(xs) && AllFit(ys) && Fits(x) && !Known(x.tag) && Truncated(tail)
    requires AllFit(xs + [x] + ys) && AllFit(xs + ys)
    ensures Decode(h + (Concat(xs + [x] + ys) + tail)) == Decode(h + (Concat(xs + ys) + tail))
  {
    hide CompleteHead, HeadOf, Decode, Walk, Fold, Concat, Truncated, Sound;
    HeadThenWalk(h, Concat(xs + [x] + ys) + tail);
    HeadThenWalk(h, Concat(xs + ys) + tail);
    WalkIsFold(xs + [x] + ys, tail, HeadOf(h));
    WalkIsFold(xs + ys, tail, HeadOf(h));
    UnknownIgnored(xs, x, ys, HeadOf(h));
  }
}
