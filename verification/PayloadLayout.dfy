/** The offset table of the SNAPSHOT payload, stated on its bytes, and what decoding asks of them. */
module PayloadLayout {
  import opened Options
  import opened Bytes
  import opened Records
  import opened Sequences
  import opened Snapshot
  import opened Tlv
  import opened SnapshotCodec

  // ---- rows, byte by byte ----

  predicate PoolRow(b: seq<byte>, x: Pool)
  {
    && |b| == 20 && Spells(b[..8], 8, x.name)
    && b[8] == x.tier && b[9] == x.ok && b[10] == x.degraded && b[11] == x.down && b[12] == x.unknown
    && b[13] == x.maint && b[14] == x.total && b[15] == x.loadPct && b[16..] == [0, 0, 0, 0]
  }

  predicate SystemRow(b: seq<byte>, x: System)
  {
    && |b| == 16 && Spells(b[..12], 12, x.name)
    && b[12] == x.state && b[13] == x.pool && b[14] == x.tier && b[15] == x.loadPct
  }

  predicate TopAlertRow(b: seq<byte>, x: TopAlert)
  {
    && |b| == 84 && Le32At(b, 0, x.alertId) && Le32At(b, 4, x.episodeId) && b[8] == x.severity && b[9..12] == [0, 0, 0]
    && Spells(b[12..36], 24, x.subject) && Spells(b[36..], 48, x.detail)
  }

  predicate LinkRow(b: seq<byte>, x: Link)
  {
    && |b| == 24 && Spells(b[..12], 12, x.name) && b[12] == x.kind && b[13] == x.state && b[14] == x.parent && b[15] == 0
    && Le32At(b, 16, x.upKbps) && Le32At(b, 20, x.downKbps)
  }

  predicate SysxRow(b: seq<byte>, x: Sysx)
  {
    && |b| == 12 && b[0] == x.memPct && b[1] == x.diskPct && b[2] == x.faults && b[3] == 0
    && Le32At(b, 4, x.rxKbps) && Le32At(b, 8, x.txKbps)
  }

  predicate AlertRow(b: seq<byte>, x: Alert)
  {
    && |b| == 34 && b[0] == x.severity && b[1] == x.code && Le16At(b, 2, x.ageMin)
    && Spells(b[4..16], 12, x.host) && Spells(b[16..], 18, x.msg)
  }

  predicate ProbeRow(b: seq<byte>, x: Probe)
  {
    && |b| == 14 && Spells(b[..8], 8, x.name) && Le16At(b, 8, x.rttTenthMs) && Le16At(b, 10, x.lossPermille)
    && b[12] == x.state && b[13] == 0
  }

  predicate GearRow(b: seq<byte>, x: Gear)
  {
    |b| == 4 && b[0] == x.role && b[1] == x.state && b[2] == x.rxLevel && b[3] == x.txLevel
  }

  predicate GlobalsHead(b: seq<byte>, g: Globals)
  {
    && |b| == 40 && Le32At(b, 0, g.ts) && Le16At(b, 4, g.seqNo) && Le16At(b, 6, g.score)
    && b[8] == g.alarmActive && b[9] == g.dataStale && b[10..15] == g.stateRoll && b[15..18] == g.alertCounts
    && b[18] == g.meanLoadPct && b[19] == g.poolCount && b[20] == g.systemCount
    && b[21] == (if g.hasTopAlert == 0 then 0 else 1)
    && Le32At(b, 22, g.rxKbps) && Le32At(b, 26, g.txKbps) && Le16At(b, 30, g.rttTenthMs) && Le16At(b, 32, g.lossPermille)
    && b[34..] == [0, 0, 0, 0, 0, 0]
  }

  lemma PoolSpelled(x: Pool)
    ensures PoolRow(WritePool(x), x)
  {
    hide NameField, Spells;
    FieldSpells(8, x.name);
    assert WritePool(x)[..8] == NameField(8, x.name);
  }

  lemma SystemSpelled(x: System)
    ensures SystemRow(WriteSystem(x), x)
  {
    hide NameField, Spells;
    FieldSpells(12, x.name);
    assert WriteSystem(x)[..12] == NameField(12, x.name);
  }

  lemma TopAlertSpelled(x: TopAlert)
    ensures TopAlertRow(WriteTopAlert(x), x)
  {
    hide NameField, Spells, WriteLe32, Le32At;
    FieldSpells(24, x.subject);
    FieldSpells(48, x.detail);
    var b := WriteTopAlert(x);
    assert b[12..36] == NameField(24, x.subject) && b[36..] == NameField(48, x.detail);
    assert b[0..4] == WriteLe32(x.alertId) && b[4..8] == WriteLe32(x.episodeId);
    Le32Within(b, 0, x.alertId);
    Le32Within(b, 4, x.episodeId);
  }

  lemma LinkSpelled(x: Link)
    ensures LinkRow(WriteLink(x), x)
  {
    hide NameField, Spells, WriteLe32, Le32At;
    FieldSpells(12, x.name);
    var b := WriteLink(x);
    assert b[..12] == NameField(12, x.name);
    assert b[16..20] == WriteLe32(x.upKbps) && b[20..24] == WriteLe32(x.downKbps);
    Le32Within(b, 16, x.upKbps);
    Le32Within(b, 20, x.downKbps);
  }

  lemma SysxSpelled(x: Sysx)
    ensures SysxRow(WriteSysx(x), x)
  {
    hide WriteLe32, Le32At;
    var b := WriteSysx(x);
    assert b[4..8] == WriteLe32(x.rxKbps) && b[8..12] == WriteLe32(x.txKbps);
    Le32Within(b, 4, x.rxKbps);
    Le32Within(b, 8, x.txKbps);
  }

  lemma AlertSpelled(x: Alert)
    ensures AlertRow(WriteAlert(x), x)
  {
    hide NameField, Spells, WriteLe16, Le16At;
    FieldSpells(12, x.host);
    FieldSpells(18, x.msg);
    var b := WriteAlert(x);
    assert b[4..16] == NameField(12, x.host) && b[16..] == NameField(18, x.msg);
    assert b[2..4] == WriteLe16(x.ageMin);
    Le16Within(b, 2, x.ageMin);
  }

  lemma ProbeSpelled(x: Probe)
    ensures ProbeRow(WriteProbe(x), x)
  {
    hide NameField, Spells, WriteLe16, Le16At;
    FieldSpells(8, x.name);
    var b := WriteProbe(x);
    assert b[..8] == NameField(8, x.name);
    assert b[8..10] == WriteLe16(x.rttTenthMs) && b[10..12] == WriteLe16(x.lossPermille);
    Le16Within(b, 8, x.rttTenthMs);
    Le16Within(b, 10, x.lossPermille);
  }

  lemma GlobalsSpelled(g: Globals)
    requires |g.stateRoll| == 5 && |g.alertCounts| == 3
    ensures GlobalsHead(WriteGlobals(g), g)
  {
    hide WriteGlobals, Counters, Rates, Le16At, Le32At, WriteLe16, WriteLe32;
    var b := WriteGlobals(g);
    GlobalsSlices(g);
    CountersAt(g, b);
    RatesSpelled(g, b);
    ReservedSpelled(g);
    assert b[0..4] == b[..4];
    Le32Within(b, 0, g.ts);
    Le16Within(b, 4, g.seqNo);
    Le16Within(b, 6, g.score);
  }

  lemma ReservedSpelled(g: Globals)
    requires |g.stateRoll| == 5 && |g.alertCounts| == 3
    ensures WriteGlobals(g)[34..] == [0, 0, 0, 0, 0, 0]
  {
    hide WriteLe16, WriteLe32, Counters, Rates;
  }

  lemma RatesSpelled(g: Globals, b: seq<byte>)
    requires |b| == GLOBALS_SIZE && b[22..34] == Rates(g)
    ensures Le32At(b, 22, g.rxKbps) && Le32At(b, 26, g.txKbps) && Le16At(b, 30, g.rttTenthMs) && Le16At(b, 32, g.lossPermille)
  {
    hide WriteLe16, WriteLe32, Le16At, Le32At;
    var c := b[22..34];
    assert c[0..4] == WriteLe32(g.rxKbps) && c[4..8] == WriteLe32(g.txKbps);
    assert c[8..10] == WriteLe16(g.rttTenthMs) && c[10..12] == WriteLe16(g.lossPermille);
    assert b[22..26] == c[0..4] && b[26..30] == c[4..8] && b[30..32] == c[8..10] && b[32..34] == c[10..12];
    Le32Within(b, 22, g.rxKbps);
    Le32Within(b, 26, g.txKbps);
    Le16Within(b, 30, g.rttTenthMs);
    Le16Within(b, 32, g.lossPermille);
  }

  // ---- where the rows stand ----

  /** Row i of an encoded table. */
  lemma {:induction false} RowAt<T(!new)>(c: Codec<T>, rows: seq<T>, i: nat)
    requires Lawful(c) && i < |rows|
    ensures i * c.stride + c.stride <= |EncodeRows(c, rows)|
    ensures EncodeRows(c, rows)[i * c.stride..i * c.stride + c.stride] == c.enc(rows[i])
    decreases i
  {
    var first, rest := c.enc(rows[0]), EncodeRows(c, rows[1..]);
    if i > 0 {
      RowAt(c, rows[1..], i - 1);
      OneStrideOn(i, c.stride);
      BehindFirst(first, rest, (i - 1) * c.stride, c.stride);
    }
  }

  lemma OneStrideOn(i: nat, stride: nat)
    requires i > 0
    ensures i * stride == (i - 1) * stride + stride && (i - 1) * stride >= 0
  {
  }

  lemma BehindFirst(first: seq<byte>, rest: seq<byte>, at: nat, n: nat)
    requires |first| == n && at + n <= |rest|
    ensures (first + rest)[at + n..at + n + n] == rest[at..at + n]
  {
  }

  lemma SliceOf(p: seq<byte>, before: seq<byte>, table: seq<byte>, after: seq<byte>, at: nat, n: nat)
    requires p == before + table + after && at + n <= |table|
    ensures p[|before| + at..|before| + at + n] == table[at..at + n]
  {
  }

  /** Where the parts of the base start. */
  function SystemsAt(s: Snap): nat
  {
    40 + 20 * (s.globals.poolCount as int)
  }

  function TopAlertAt(s: Snap): nat
  {
    SystemsAt(s) + 16 * (s.globals.systemCount as int)
  }

  function GearAt(s: Snap): nat
  {
    TopAlertAt(s) + if s.globals.hasTopAlert != 0 then 84 else 0
  }

  lemma PayloadParts(s: Snap) returns (pools: seq<byte>, systems: seq<byte>, top: seq<byte>, gear: seq<byte>)
    requires Sound(s)
    ensures Lawful(POOL) && Lawful(SYSTEM) && Lawful(GEAR) && AllFit(Sections(s))
    ensures pools == EncodeRows(POOL, s.pools[..s.globals.poolCount]) && |pools| == 20 * (s.globals.poolCount as int)
    ensures systems == EncodeRows(SYSTEM, s.systems[..s.globals.systemCount]) && |systems| == 16 * (s.globals.systemCount as int)
    ensures top == if s.globals.hasTopAlert != 0 then WriteTopAlert(s.topAlert) else []
    ensures gear == EncodeRows(GEAR, s.gear[..s.gearCount]) && |gear| == 4 * (s.gearCount as int)
    ensures Payload(s) == WriteGlobals(s.globals) + pools + systems + top + [s.gearCount] + gear + Concat(Sections(s))
  {
    hide Lawful, EncodeRows, WriteGlobals, WriteTopAlert, Sections, Concat, Sound, AllFit;
    PoolLawful();
    SystemLawful();
    GearLawful();
    SectionsSize(s);
    assert Shaped(s) && CountsOk(s) by { SoundMeans(s); }
    pools := EncodeRows(POOL, s.pools[..s.globals.poolCount]);
    systems := EncodeRows(SYSTEM, s.systems[..s.globals.systemCount]);
    top := if s.globals.hasTopAlert != 0 then WriteTopAlert(s.topAlert) else [];
    gear := EncodeRows(GEAR, s.gear[..s.gearCount]);
    EncodedSize(POOL, s.pools[..s.globals.poolCount]);
    EncodedSize(SYSTEM, s.systems[..s.globals.systemCount]);
    EncodedSize(GEAR, s.gear[..s.gearCount]);
    var base, rest := WriteGlobals(s.globals) + pools + systems + top, Concat(Sections(s));
    assert base + ([s.gearCount] + gear) + rest == base + [s.gearCount] + gear + rest;
  }

  lemma SoundMeans(s: Snap)
    requires Sound(s)
    ensures Shaped(s) && CountsOk(s)
  {
  }

  lemma GlobalsPlaced(s: Snap)
    requires Sound(s)
    ensures |Payload(s)| >= 40 && GlobalsHead(Payload(s)[..40], s.globals)
  {
    hide Payload, WriteGlobals, EncodeRows, WriteTopAlert, Concat, Sections, GlobalsHead, Lawful;
    var pools, systems, top, gear := PayloadParts(s);
    GlobalsSpelled(s.globals);
    assert Payload(s)[..40] == WriteGlobals(s.globals);
  }

  lemma PoolsPlaced(s: Snap, i: nat)
    requires Sound(s) && i < s.globals.poolCount as int
    ensures 60 + 20 * i <= |Payload(s)| && PoolRow(Payload(s)[40 + 20 * i..60 + 20 * i], s.pools[i])
  {
    hide Payload, WriteGlobals, EncodeRows, WriteTopAlert, Concat, Sections, PoolRow, Lawful, WritePool;
    var pools, systems, top, gear := PayloadParts(s);
    var head, after := WriteGlobals(s.globals), systems + top + [s.gearCount] + gear + Concat(Sections(s));
    assert Payload(s) == head + pools + after;
    RowAt(POOL, s.pools[..s.globals.poolCount], i);
    SliceOf(Payload(s), head, pools, after, 20 * i, 20);
    PoolSpelled(s.pools[i]);
  }

  lemma SystemsPlaced(s: Snap, i: nat)
    requires Sound(s) && i < s.globals.systemCount as int
    ensures
      var at := SystemsAt(s) + 16 * i;
      at + 16 <= |Payload(s)| && SystemRow(Payload(s)[at..at + 16], s.systems[i])
  {
    hide Payload, WriteGlobals, EncodeRows, WriteTopAlert, Concat, Sections, SystemRow, Lawful, WriteSystem;
    var pools, systems, top, gear := PayloadParts(s);
    var head, after := WriteGlobals(s.globals) + pools, top + [s.gearCount] + gear + Concat(Sections(s));
    assert Payload(s) == head + systems + after;
    RowAt(SYSTEM, s.systems[..s.globals.systemCount], i);
    SliceOf(Payload(s), head, systems, after, 16 * i, 16);
    SystemSpelled(s.systems[i]);
  }

  lemma TopAlertPlaced(s: Snap)
    requires Sound(s) && s.globals.hasTopAlert != 0
    ensures
      var at := TopAlertAt(s);
      at + 84 <= |Payload(s)| && TopAlertRow(Payload(s)[at..at + 84], s.topAlert)
  {
    hide Payload, WriteGlobals, EncodeRows, WriteTopAlert, Concat, Sections, TopAlertRow, Lawful;
    var pools, systems, top, gear := PayloadParts(s);
    var head, after := WriteGlobals(s.globals) + pools + systems, [s.gearCount] + gear + Concat(Sections(s));
    assert Payload(s) == head + top + after;
    SliceOf(Payload(s), head, top, after, 0, 84);
    assert top[0..84] == top;
    TopAlertSpelled(s.topAlert);
  }

  lemma GearPlaced(s: Snap, i: nat)
    requires Sound(s) && i < s.gearCount as int
    ensures
      var at := GearAt(s);
      && at + 1 + 4 * (s.gearCount as int) <= |Payload(s)| && Payload(s)[at] == s.gearCount
      && GearRow(Payload(s)[at + 1 + 4 * i..at + 5 + 4 * i], s.gear[i])
  {
    hide Payload, WriteGlobals, EncodeRows, WriteTopAlert, Concat, Sections, Lawful;
    var pools, systems, top, gear := PayloadParts(s);
    var head, after := WriteGlobals(s.globals) + pools + systems + top + [s.gearCount], Concat(Sections(s));
    assert Payload(s) == head + gear + after;
    RowAt(GEAR, s.gear[..s.gearCount], i);
    SliceOf(Payload(s), head, gear, after, 4 * i, 4);
  }

  /** What follows the gear: the sections, each as tag, length and value. */
  lemma SectionsPlaced(s: Snap)
    requires Sound(s)
    ensures AllFit(Sections(s))
    ensures
      var at := GearAt(s) + 1 + 4 * (s.gearCount as int);
      at <= |Payload(s)| && Payload(s)[at..] == Concat(Sections(s)) && Payload(s)[at - 1 - 4 * (s.gearCount as int)] == s.gearCount
  {
    hide Payload, WriteGlobals, EncodeRows, WriteTopAlert, Concat, Sections, Lawful;
    var pools, systems, top, gear := PayloadParts(s);
  }

  // ---- the sections ----

  lemma SectionSpelled(x: Tlv)
    requires Fits(x)
    ensures
      var b := TlvBytes(x);
      b[0] == x.tag && Le16At(b, 1, |x.value|) && b[3..] == x.value
  {
    var b := TlvBytes(x);
    assert b[1..3] == WriteLe16(|x.value|);
    Le16Within(b, 1, |x.value|);
  }

  /** Which sections a snapshot has, by tag. */
  predicate Has(s: Snap, tag: int)
  {
    || (tag == 1 && s.links.has != 0) || (tag == 2 && s.sysx.has != 0) || (tag == 3 && s.alerts.has != 0)
    || (tag == 4 && s.probes.has != 0) || (tag == 5 && s.pop.count != 0) || (tag == 6 && s.heat.has != 0)
    || (tag == 7 && s.totals.has != 0)
  }

  ghost predicate Ascending(xs: seq<Tlv>, top: int)
  {
    && (forall i, j :: 0 <= i < j < |xs| ==> xs[i].tag < xs[j].tag)
    && (forall i :: 0 <= i < |xs| ==> 1 <= xs[i].tag <= top)
  }

  ghost predicate Tagged(xs: seq<Tlv>, tag: int)
  {
    exists i :: 0 <= i < |xs| && xs[i].tag == tag
  }

  lemma AscendNext(xs: seq<Tlv>, present: bool, tag: byte, value: seq<byte>)
    requires tag >= 1 && Ascending(xs, tag - 1)
    ensures Ascending(xs + Opt(present, tag, value), tag as int)
  {
  }

  lemma TaggedNext(xs: seq<Tlv>, present: bool, tag: byte, value: seq<byte>, t: int)
    ensures Tagged(xs + Opt(present, tag, value), t) <==> Tagged(xs, t) || (present && t == tag)
  {
    var ys := xs + Opt(present, tag, value);
    if Tagged(xs, t) {
      var i :| 0 <= i < |xs| && xs[i].tag == t;
      assert ys[i].tag == t;
    }
    if present && t == tag {
      assert ys[|xs|].tag == t;
    }
  }

  lemma TablesAscend(s: Snap)
    requires Sound(s)
    ensures Ascending(Tables(s), 4)
    ensures forall tag :: Tagged(Tables(s), tag) <==> tag <= 4 && Has(s, tag)
  {
    hide LinksValue, SysxValue, AlertsValue, ProbesValue, Opt, Ascending, Tagged;
    var a := Opt(s.links.has != 0, 1, LinksValue(s.links));
    var b := a + Opt(s.sysx.has != 0, 2, SysxValue(s.globals.systemCount, s.sysx));
    var c := b + Opt(s.alerts.has != 0, 3, AlertsValue(s.alerts));
    NoTags();
    assert [] + a == a;
    AscendNext([], s.links.has != 0, 1, LinksValue(s.links));
    AscendNext(a, s.sysx.has != 0, 2, SysxValue(s.globals.systemCount, s.sysx));
    AscendNext(b, s.alerts.has != 0, 3, AlertsValue(s.alerts));
    AscendNext(c, s.probes.has != 0, 4, ProbesValue(s.probes));
    forall tag ensures Tagged(Tables(s), tag) <==> tag <= 4 && Has(s, tag) {
      TaggedNext([], s.links.has != 0, 1, LinksValue(s.links), tag);
      TaggedNext(a, s.sysx.has != 0, 2, SysxValue(s.globals.systemCount, s.sysx), tag);
      TaggedNext(b, s.alerts.has != 0, 3, AlertsValue(s.alerts), tag);
      TaggedNext(c, s.probes.has != 0, 4, ProbesValue(s.probes), tag);
    }
  }

  lemma NoTags()
    ensures Ascending([], 0) && forall tag :: !Tagged([], tag)
  {
  }

  /** Exactly the sections a snapshot has are sent, in the order of their tags. */
  lemma SectionsAscend(s: Snap)
    requires Sound(s)
    ensures Ascending(Sections(s), 7)
    ensures forall tag :: Tagged(Sections(s), tag) <==> Has(s, tag)
  {
    hide Tables, PopValue, TotalsValue, Opt, Ascending, Tagged;
    TablesAscend(s);
    var a := Tables(s);
    var b := a + Opt(s.pop.count != 0, 5, PopValue(s.pop));
    var c := b + Opt(s.heat.has != 0, 6, s.heat.warn + s.heat.crit);
    AscendNext(a, s.pop.count != 0, 5, PopValue(s.pop));
    AscendNext(b, s.heat.has != 0, 6, s.heat.warn + s.heat.crit);
    AscendNext(c, s.totals.has != 0, 7, TotalsValue(s.totals));
    forall tag ensures Tagged(Sections(s), tag) <==> Has(s, tag) {
      TaggedNext(a, s.pop.count != 0, 5, PopValue(s.pop), tag);
      TaggedNext(b, s.heat.has != 0, 6, s.heat.warn + s.heat.crit, tag);
      TaggedNext(c, s.totals.has != 0, 7, TotalsValue(s.totals), tag);
    }
  }

  /** The rows inside the table sections, and the values of the others. */
  lemma LinksPlaced(s: Snap, i: nat)
    requires Sound(s) && i < s.links.count as int
    ensures
      var v := LinksValue(s.links);
      25 + 24 * i <= |v| && v[0] == s.links.count && LinkRow(v[1 + 24 * i..25 + 24 * i], s.links.rows[i])
  {
    hide Lawful, EncodeRows, WriteLink, LinkRow;
    LinkLawful();
    RowAt(LINK, s.links.rows[..s.links.count], i);
    LinkSpelled(s.links.rows[i]);
    SliceOf(LinksValue(s.links), [s.links.count], EncodeRows(LINK, s.links.rows[..s.links.count]), [], 24 * i, 24);
  }

  lemma SysxPlaced(s: Snap, i: nat)
    requires Sound(s) && i < s.globals.systemCount as int
    ensures
      var v := SysxValue(s.globals.systemCount, s.sysx);
      13 + 12 * i <= |v| && v[0] == s.globals.systemCount && SysxRow(v[1 + 12 * i..13 + 12 * i], s.sysx.rows[i])
  {
    hide Lawful, EncodeRows, WriteSysx, SysxRow;
    SysxLawful();
    var n := s.globals.systemCount;
    RowAt(SYSX, s.sysx.rows[..n], i);
    SysxSpelled(s.sysx.rows[i]);
    SliceOf(SysxValue(n, s.sysx), [n], EncodeRows(SYSX, s.sysx.rows[..n]), [], 12 * i, 12);
  }

  lemma AlertsPlaced(s: Snap, i: nat)
    requires Sound(s) && i < s.alerts.count as int
    ensures
      var v := AlertsValue(s.alerts);
      && 43 + 34 * i <= |v| && v[0] == s.alerts.total && v[1..8] == s.alerts.faults && v[8] == s.alerts.count
      && AlertRow(v[9 + 34 * i..43 + 34 * i], s.alerts.rows[i])
  {
    hide Lawful, EncodeRows, WriteAlert, AlertRow;
    AlertLawful();
    var a := s.alerts;
    RowAt(ALERT, a.rows[..a.count], i);
    AlertSpelled(a.rows[i]);
    SliceOf(AlertsValue(a), [a.total] + a.faults + [a.count], EncodeRows(ALERT, a.rows[..a.count]), [], 34 * i, 34);
  }

  lemma ProbesPlaced(s: Snap, i: nat)
    requires Sound(s) && i < s.probes.count as int
    ensures
      var v := ProbesValue(s.probes);
      15 + 14 * i <= |v| && v[0] == s.probes.count && ProbeRow(v[1 + 14 * i..15 + 14 * i], s.probes.rows[i])
  {
    hide Lawful, EncodeRows, WriteProbe, ProbeRow;
    ProbeLawful();
    RowAt(PROBE, s.probes.rows[..s.probes.count], i);
    ProbeSpelled(s.probes.rows[i]);
    SliceOf(ProbesValue(s.probes), [s.probes.count], EncodeRows(PROBE, s.probes.rows[..s.probes.count]), [], 14 * i, 14);
  }

  lemma TotalsSpelled(x: Totals)
    ensures
      var v := TotalsValue(x);
      Le32At(v, 0, x.wanUp) && Le32At(v, 4, x.wanDown) && Le32At(v, 8, x.lanUp) && Le32At(v, 12, x.lanDown)
  {
    hide WriteLe32, Le32At;
    var v := TotalsValue(x);
    assert v[0..4] == WriteLe32(x.wanUp) && v[4..8] == WriteLe32(x.wanDown);
    assert v[8..12] == WriteLe32(x.lanUp) && v[12..16] == WriteLe32(x.lanDown);
    Le32Within(v, 0, x.wanUp);
    Le32Within(v, 4, x.wanDown);
    Le32Within(v, 8, x.lanUp);
    Le32Within(v, 12, x.lanDown);
  }

  // ---- what decoding asks of the bytes ----

  /** The base decides, by its counts and the length they call for. */
  lemma DecodesIff(p: seq<byte>)
    ensures Decode(p).Some? <==>
              && |p| >= 40 && p[19] <= 8 && p[20] <= 64 && p[21] <= 1
              && |p| >= 40 + 20 * (p[19] as int) + 16 * (p[20] as int) + 84 * (p[21] as int)
  {
    hide DecodeBase, DecodeTrailer;
  }

  /** Where the gear count stands in an accepted payload. */
  function GearFrom(p: seq<byte>): nat
    requires |p| >= 40
  {
    40 + 20 * (p[19] as int) + 16 * (p[20] as int) + 84 * (p[21] as int)
  }

  /** Without a complete gear trailer nothing but the base is taken. */
  lemma IncompleteGearIgnored(p: seq<byte>)
    requires Decode(p).Some? && |p| >= 40
    requires
      var at := GearFrom(p);
      |p| <= at || p[at] > 12 || |p| < at + 1 + 4 * (p[at] as int)
    ensures
      var s := Decode(p).value;
      && s.gearCount == 0 && s.links.has == 0 && s.sysx.has == 0 && s.alerts.has == 0 && s.probes.has == 0
      && s.pop.count == 0 && s.heat.has == 0 && s.totals.has == 0
  {
    hide Fill, DecodeRows, ReadGlobals, ReadTopAlert;
    assert GearFrom(p) == BaseNeed(p);
  }

  /** With one, its count is taken. */
  lemma CompleteGearTaken(p: seq<byte>)
    requires Decode(p).Some? && |p| >= 40
    requires
      var at := GearFrom(p);
      |p| > at && p[at] <= 12 && |p| >= at + 1 + 4 * (p[at] as int)
    ensures Decode(p).value.gearCount == p[GearFrom(p)]
  {
    hide Fill, DecodeRows, ReadGlobals, ReadTopAlert, Walk, DecodeBase;
    var t := p[BaseNeed(p)..];
    assert GearFrom(p) == BaseNeed(p) && t[0] == p[GearFrom(p)];
    WalkKeepsBase(t[1 + 4 * (t[0] as int)..], WithGear(t, DecodeBase(p)));
  }

  /** When panelExtValue takes a section. */
  predicate WellFormed(x: Tlv, systemCount: byte)
  {
    var v, n := x.value, |x.value|;
    || (x.tag == 1 && n >= 1 && v[0] <= 12 && n >= 1 + 24 * (v[0] as int))
    || (x.tag == 2 && n >= 1 && v[0] == systemCount && n >= 1 + 12 * (v[0] as int))
    || (x.tag == 3 && n >= 9 && v[8] <= 8 && n >= 9 + 34 * (v[8] as int))
    || (x.tag == 4 && n >= 1 && v[0] <= 11 && n >= 1 + 14 * (v[0] as int))
    || (x.tag == 5 && n >= 1 && v[0] <= 191 && n >= 1 + v[0])
    || (x.tag == 6 && n >= 104)
    || (x.tag == 7 && n >= 16)
  }

  lemma MalformedIgnored(x: Tlv, s: Snap)
    requires Sound(s) && !WellFormed(x, s.globals.systemCount)
    ensures Apply(x, s) == s
  {
  }

  lemma WellFormedTaken(x: Tlv, s: Snap)
    requires Sound(s) && WellFormed(x, s.globals.systemCount)
    ensures
      var t, v := Apply(x, s), x.value;
      && (x.tag == 1 ==> t.links.has == 1 && t.links.count == v[0])
      && (x.tag == 2 ==> t.sysx.has == 1)
      && (x.tag == 3 ==> t.alerts.has == 1 && t.alerts.total == v[0] && t.alerts.faults == v[1..8] && t.alerts.count == v[8])
      && (x.tag == 4 ==> t.probes.has == 1 && t.probes.count == v[0])
      && (x.tag == 5 ==> t.pop.count == v[0] && t.pop.tail[..v[0]] == v[1..1 + v[0]])
      && (x.tag == 6 ==> t.heat == Heat(1, v[..52], v[52..104]))
      && (x.tag == 7 ==> t.totals.has == 1 && Le32At(v, 0, t.totals.wanUp) && Le32At(v, 4, t.totals.wanDown)
                         && Le32At(v, 8, t.totals.lanUp) && Le32At(v, 12, t.totals.lanDown))
  {
    hide DecodeRows, Lawful;
  }
}
