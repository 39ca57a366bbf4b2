/** The decoded snapshot and the base layout of its payload. */
module Snapshot {
  import opened Bytes
  import opened Records
  import opened Sequences

  const MAX_POOLS: nat := 8
  const MAX_SYSTEMS: nat := 64
  const MAX_GEAR: nat := 12
  const MAX_LINKS: nat := 12
  const MAX_ALERTS: nat := 8
  const MAX_PROBES: nat := 11
  const MAX_POP: nat := 191
  const FAULT_CODES: nat := 7
  const HEAT_LEN: nat := 52
  const GLOBALS_SIZE: nat := 40
  const ALERT_SIZE: nat := 84

  datatype Globals = Globals(
    ts: dword, seqNo: word, score: word, alarmActive: byte, dataStale: byte,
    stateRoll: seq<byte>, alertCounts: seq<byte>, meanLoadPct: byte,
    poolCount: byte, systemCount: byte, hasTopAlert: byte,
    rxKbps: dword, txKbps: dword, rttTenthMs: word, lossPermille: word)

  datatype Links = Links(has: byte, count: byte, rows: seq<Link>)
  datatype SysxTable = SysxTable(has: byte, rows: seq<Sysx>)
  datatype Alerts = Alerts(has: byte, total: byte, faults: seq<byte>, count: byte, rows: seq<Alert>)
  datatype Probes = Probes(has: byte, count: byte, rows: seq<Probe>)
  datatype Pop = Pop(count: byte, tail: seq<byte>)
  datatype Heat = Heat(has: byte, warn: seq<byte>, crit: seq<byte>)
  datatype Totals = Totals(has: byte, wanUp: dword, wanDown: dword, lanUp: dword, lanDown: dword)

  /** PanelSnapshot, its fields grouped by the part of the payload they travel in. */
  datatype Snap = Snap(
    globals: Globals,
    pools: seq<Pool>, systems: seq<System>, topAlert: TopAlert,
    gearCount: byte, gear: seq<Gear>,
    links: Links, sysx: SysxTable, alerts: Alerts, probes: Probes, pop: Pop, heat: Heat, totals: Totals)

  /** The lengths the C arrays have by declaration. */
  predicate Shaped(s: Snap)
  {
    && |s.globals.stateRoll| == 5 && |s.globals.alertCounts| == 3
    && |s.pools| == MAX_POOLS && |s.systems| == MAX_SYSTEMS && |s.gear| == MAX_GEAR
    && |s.links.rows| == MAX_LINKS && |s.sysx.rows| == MAX_SYSTEMS
    && |s.alerts.faults| == FAULT_CODES && |s.alerts.rows| == MAX_ALERTS
    && |s.probes.rows| == MAX_PROBES && |s.pop.tail| == MAX_POP
    && |s.heat.warn| == HEAT_LEN && |s.heat.crit| == HEAT_LEN
  }

  predicate CountsOk(s: Snap)
  {
    && s.globals.poolCount <= MAX_POOLS && s.globals.systemCount <= MAX_SYSTEMS && s.gearCount <= MAX_GEAR
    && s.links.count <= MAX_LINKS && s.alerts.count <= MAX_ALERTS
    && s.probes.count <= MAX_PROBES && s.pop.count <= MAX_POP
  }

  // ---- zeroed memory ----

  const NO_GLOBALS: Globals := Globals(0, 0, 0, 0, 0, [0, 0, 0, 0, 0], [0, 0, 0], 0, 0, 0, 0, 0, 0, 0, 0)
  const NO_POOL: Pool := Pool([], 0, 0, 0, 0, 0, 0, 0, 0)
  const NO_SYSTEM: System := System([], 0, 0, 0, 0)
  const NO_TOP: TopAlert := TopAlert(0, 0, 0, [], [])
  const NO_GEAR: Gear := Gear(0, 0, 0, 0)
  const NO_LINK: Link := Link([], 0, 0, 0, 0, 0)
  const NO_SYSX: Sysx := Sysx(0, 0, 0, 0, 0)
  const NO_ALERT: Alert := Alert(0, 0, 0, [], [])
  const NO_PROBE: Probe := Probe([], 0, 0, 0)

  function NoPools(): (r: seq<Pool>) ensures |r| == MAX_POOLS { Fill(MAX_POOLS, NO_POOL) }
  function NoSystems(): (r: seq<System>) ensures |r| == MAX_SYSTEMS { Fill(MAX_SYSTEMS, NO_SYSTEM) }
  function NoGear(): (r: seq<Gear>) ensures |r| == MAX_GEAR { Fill(MAX_GEAR, NO_GEAR) }
  function NoLinks(): (r: Links) ensures |r.rows| == MAX_LINKS { Links(0, 0, Fill(MAX_LINKS, NO_LINK)) }
  function NoSysx(): (r: SysxTable) ensures |r.rows| == MAX_SYSTEMS { SysxTable(0, Fill(MAX_SYSTEMS, NO_SYSX)) }
  function NoAlerts(): (r: Alerts)
    ensures |r.rows| == MAX_ALERTS && |r.faults| == FAULT_CODES
  {
    Alerts(0, 0, Fill<byte>(FAULT_CODES, 0), 0, Fill(MAX_ALERTS, NO_ALERT))
  }
  function NoProbes(): (r: Probes) ensures |r.rows| == MAX_PROBES { Probes(0, 0, Fill(MAX_PROBES, NO_PROBE)) }
  function NoPop(): (r: Pop) ensures |r.tail| == MAX_POP { Pop(0, Fill<byte>(MAX_POP, 0)) }
  function NoHeat(): (r: Heat)
    ensures |r.warn| == HEAT_LEN && |r.crit| == HEAT_LEN
  {
    Heat(0, Fill<byte>(HEAT_LEN, 0), Fill<byte>(HEAT_LEN, 0))
  }
  const NO_TOTALS: Totals := Totals(0, 0, 0, 0, 0)

  /** memset(s, 0, sizeof(*s)) */
  function Blank(): (s: Snap)
    ensures Shaped(s)
  {
    Snap(NO_GLOBALS, NoPools(), NoSystems(), NO_TOP, 0, NoGear(),
         NoLinks(), NoSysx(), NoAlerts(), NoProbes(), NoPop(), NoHeat(), NO_TOTALS)
  }

  /** An array whose first entries have been written. */
  function Overlay<T>(all: seq<T>, rows: seq<T>): (r: seq<T>)
    requires |rows| <= |all|
    ensures |r| == |all|
  {
    rows + all[|rows|..]
  }

  // ---- globals ----

  function Flag(b: byte): byte
  {
    if b != 0 then 1 else 0
  }

  function Counters(g: Globals): (b: seq<byte>)
    requires |g.stateRoll| == 5 && |g.alertCounts| == 3
    ensures |b| == 14
  {
    [g.alarmActive, g.dataStale] + g.stateRoll + g.alertCounts
    + [g.meanLoadPct, g.poolCount, g.systemCount, Flag(g.hasTopAlert)]
  }

  function Rates(g: Globals): (b: seq<byte>)
    ensures |b| == 12
  {
    WriteLe32(g.rxKbps) + WriteLe32(g.txKbps) + WriteLe16(g.rttTenthMs) + WriteLe16(g.lossPermille)
  }

  function WriteGlobals(g: Globals): (b: seq<byte>)
    requires |g.stateRoll| == 5 && |g.alertCounts| == 3
    ensures |b| == GLOBALS_SIZE
  {
    WriteLe32(g.ts) + WriteLe16(g.seqNo) + WriteLe16(g.score) + Counters(g) + Rates(g) + [0, 0, 0, 0, 0, 0]
  }

  function ReadGlobals(b: seq<byte>): (g: Globals)
    requires |b| == GLOBALS_SIZE
    ensures |g.stateRoll| == 5 && |g.alertCounts| == 3
  {
    Globals(ReadLe32(b[0], b[1], b[2], b[3]), ReadLe16(b[4], b[5]), ReadLe16(b[6], b[7]), b[8], b[9],
            b[10..15], b[15..18], b[18], b[19], b[20], b[21],
            ReadLe32(b[22], b[23], b[24], b[25]), ReadLe32(b[26], b[27], b[28], b[29]),
            ReadLe16(b[30], b[31]), ReadLe16(b[32], b[33]))
  }

  function CanonGlobals(g: Globals): Globals
  {
    g.(hasTopAlert := Flag(g.hasTopAlert))
  }

  lemma GlobalsSlices(g: Globals)
    requires |g.stateRoll| == 5 && |g.alertCounts| == 3
    ensures
      var b := WriteGlobals(g);
      && b[..4] == WriteLe32(g.ts) && b[4..6] == WriteLe16(g.seqNo) && b[6..8] == WriteLe16(g.score)
      && b[8..22] == Counters(g) && b[22..34] == Rates(g)
  {
    hide WriteLe32, WriteLe16, Counters, Rates;
  }

  lemma GlobalsRoundTrip(g: Globals)
    requires |g.stateRoll| == 5 && |g.alertCounts| == 3
    ensures ReadGlobals(WriteGlobals(g)) == CanonGlobals(g)
    ensures WriteGlobals(CanonGlobals(g)) == WriteGlobals(g)
  {
    hide WriteLe32, WriteLe16, WriteGlobals, ReadLe16, ReadLe32;
    var b := WriteGlobals(g);
    GlobalsSlices(g);
    CountersAt(g, b);
    RatesAt(g, b);
    CanonWritesSame(g);
    assert b[0] == b[..4][0] && b[1] == b[..4][1] && b[2] == b[..4][2] && b[3] == b[..4][3];
    assert b[4] == b[4..6][0] && b[5] == b[4..6][1] && b[6] == b[6..8][0] && b[7] == b[6..8][1];
  }

  lemma CanonWritesSame(g: Globals)
    requires |g.stateRoll| == 5 && |g.alertCounts| == 3
    ensures WriteGlobals(CanonGlobals(g)) == WriteGlobals(g)
  {
    hide WriteLe32, WriteLe16;
    assert Counters(CanonGlobals(g)) == Counters(g);
  }

  lemma CountersAt(g: Globals, b: seq<byte>)
    requires |g.stateRoll| == 5 && |g.alertCounts| == 3 && |b| == GLOBALS_SIZE && b[8..22] == Counters(g)
    ensures b[8] == g.alarmActive && b[9] == g.dataStale && b[10..15] == g.stateRoll && b[15..18] == g.alertCounts
    ensures b[18] == g.meanLoadPct && b[19] == g.poolCount && b[20] == g.systemCount && b[21] == Flag(g.hasTopAlert)
  {
    var c := b[8..22];
    assert forall i :: 8 <= i < 22 ==> b[i] == c[i - 8];
    assert b[10..15] == c[2..7] && b[15..18] == c[7..10];
  }

  lemma RatesAt(g: Globals, b: seq<byte>)
    requires |b| == GLOBALS_SIZE && b[22..34] == Rates(g)
    ensures ReadLe32(b[22], b[23], b[24], b[25]) == g.rxKbps && ReadLe32(b[26], b[27], b[28], b[29]) == g.txKbps
    ensures ReadLe16(b[30], b[31]) == g.rttTenthMs && ReadLe16(b[32], b[33]) == g.lossPermille
  {
    hide WriteLe32, WriteLe16;
    var c := b[22..34];
    assert forall i :: 22 <= i < 34 ==> b[i] == c[i - 22];
    assert c[..4] == WriteLe32(g.rxKbps) && c[4..8] == WriteLe32(g.txKbps);
    assert c[8..10] == WriteLe16(g.rttTenthMs) && c[10..12] == WriteLe16(g.lossPermille);
    assert c[0] == c[..4][0] && c[1] == c[..4][1] && c[2] == c[..4][2] && c[3] == c[..4][3];
    assert c[4] == c[4..8][0] && c[5] == c[4..8][1] && c[6] == c[4..8][2] && c[7] == c[4..8][3];
    assert c[8] == c[8..10][0] && c[9] == c[8..10][1] && c[10] == c[10..12][0] && c[11] == c[10..12][1];
  }
}
