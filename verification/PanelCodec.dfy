/** The codec's loops over byte arrays. */
module PanelCodec {
  import opened Options
  import opened Bytes
  import opened Records
  import opened Sequences
  import opened Snapshot
  import opened Tlv
  import opened SnapshotCodec
  import Framing
  import FramingDelivery
  import PanelParser
  import Crc

  /** A `char` array up to its first NUL, if it has one. */
  function CString(a: seq<byte>): Name
  {
    ReadName(a)
  }

  lemma {:induction false} CStringPrefix(a: seq<byte>, i: nat)
    requires i <= |a| && forall k :: 0 <= k < i ==> a[k] != 0
    ensures |CString(a)| >= i && forall k :: 0 <= k < i ==> CString(a)[k] == a[k]
    ensures i < |a| && a[i] == 0 ==> |CString(a)| == i
    ensures i == |a| ==> |CString(a)| == i
    decreases i
  {
    if i > 0 {
      CStringPrefix(a[1..], i - 1);
      forall k | 1 <= k < i ensures CString(a)[k] == a[k] {
        assert CString(a[1..])[k - 1] == a[1..][k - 1];
      }
    }
  }

  /** The bytes the loop leaves, against the field they should be. */
  lemma FieldSpelledOut(name: seq<byte>, width: nat, i: nat, f: seq<byte>)
    requires 0 < width && |name| == width + 1 && |f| == width && i <= width
    requires forall k :: 0 <= k < i ==> name[k] != 0
    requires i < width ==> name[i] == 0
    requires
      var cut := i == width && name[width] != 0;
      && (forall k :: 0 <= k < i && !(cut && k == width - 1) ==> f[k] == Safe(name[k]))
      && (forall k :: i <= k < width ==> f[k] == 0)
      && (cut ==> f[width - 1] == 46)
    ensures f == NameField(width, CString(name))
  {
    hide Safe, CString, ReadName;
    CStringPrefix(name, i);
    if i == width && name[width] != 0 {
      CStringPrefix(name, width + 1);
    }
    var c := CanonName(width, CString(name));
    forall k | 0 <= k < width ensures f[k] == NameField(width, CString(name))[k] {
      if k < |c| {
        assert NameField(width, CString(name))[k] == c[k];
      }
    }
  }

  /** writeName: the loop leaves exactly the padded field of the string, and nothing else changes. */
  method WriteName(out: array<byte>, at: nat, name: seq<byte>, width: nat)
    requires 0 < width && at + width <= out.Length && |name| == width + 1
    modifies out
    ensures out[at..at + width] == NameField(width, CString(name))
    ensures Spells(out[at..at + width], width, CString(name))
    ensures forall k :: 0 <= k < out.Length && !(at <= k < at + width) ==> out[k] == old(out[k])
  {
    hide NameField, CString, Spells;
    forall k | at <= k < at + width {
      out[k] := 0;
    }
    var i := 0;
    while i < width && name[i] != 0
      invariant i <= width && forall k :: 0 <= k < i ==> name[k] != 0
      invariant forall k :: at <= k < at + i ==> out[k] == Safe(name[k - at])
      invariant forall k :: at + i <= k < at + width ==> out[k] == 0
      invariant forall k :: 0 <= k < out.Length && !(at <= k < at + width) ==> out[k] == old(out[k])
    {
      out[at + i] := Safe(name[i]);
      i := i + 1;
    }
    if i == width && name[i] != 0 {
      out[at + width - 1] := 46;
    }
    ghost var field := out[at..at + width];
    assert forall k :: 0 <= k < width ==> field[k] == out[at + k];
    FieldSpelledOut(name, width, i, field);
    FieldSpells(width, CString(name));
  }

  lemma NextLetter(f: seq<byte>, i: nat)
    requires i < |f| && f[i] != 0
    ensures ReadName(f[i..]) == [f[i]] + ReadName(f[i + 1..])
  {
    assert f[i..][1..] == f[i + 1..];
  }

  lemma NoLetter(f: seq<byte>, i: nat)
    requires i <= |f| && (i < |f| ==> f[i] == 0)
    ensures ReadName(f[i..]) == []
  {
  }

  /** readName: the loop stops at the first NUL or at the field's end. */
  method LoadName(in': seq<byte>) returns (name: Name)
    ensures name == ReadName(in')
  {
    hide ReadName;
    name := [];
    var i := 0;
    assert in'[0..] == in';
    while i < |in'| && in'[i] != 0
      invariant i <= |in'| && ReadName(in') == name + ReadName(in'[i..])
    {
      NextLetter(in', i);
      name := name + [in'[i]];
      i := i + 1;
    }
    NoLetter(in', i);
  }

  /** The `char` array of width + 1 bytes that holds a name. */
  function CArray(width: nat, name: Name): (a: seq<byte>)
    ensures |a| == width + 1
  {
    if |name| > width then AsBytes(name[..width + 1]) else AsBytes(name) + Fill<byte>(width + 1 - |name|, 0)
  }

  lemma CArrayHolds(width: nat, name: Name)
    requires width > 0
    ensures NameField(width, CString(CArray(width, name))) == NameField(width, name)
  {
    if |name| > width {
      var cut := name[..width + 1];
      ReadPadded(cut, 0);
      assert AsBytes(cut) + Fill<byte>(0, 0) == AsBytes(cut);
      assert cut[..width - 1] == name[..width - 1];
    } else {
      ReadPadded(name, width + 1 - |name|);
    }
  }

  /** Copy bytes into place: memcpy and runs of single-byte stores. */
  method Put(out: array<byte>, at: nat, bytes: seq<byte>)
    requires at + |bytes| <= out.Length
    modifies out
    ensures out[at..at + |bytes|] == bytes
    ensures out[..at] == old(out[..at]) && out[at + |bytes|..] == old(out[at + |bytes|..])
  {
    forall k | 0 <= k < |bytes| {
      out[at + k] := bytes[k];
    }
  }

  /** What has been written so far, and what has not been touched. */
  ghost predicate Written(out: array<byte>, at: nat, done: seq<byte>, orig: seq<byte>)
    reads out
  {
    at <= out.Length && out[..at] == done && |orig| == out.Length && out[at..] == orig[at..]
  }

  method PutNext(out: array<byte>, at: nat, bytes: seq<byte>, ghost done: seq<byte>, ghost orig: seq<byte>)
    returns (end: nat)
    requires Written(out, at, done, orig) && at + |bytes| <= out.Length
    modifies out
    ensures end == at + |bytes| && Written(out, end, done + bytes, orig)
  {
    ghost var rest := out[at..];
    end := at + |bytes|;
    Put(out, at, bytes);
    assert out[..end] == out[..at] + out[at..end];
    assert orig[at..][|bytes|..] == orig[end..];
    assert rest[|bytes|..] == old(out[end..]);
  }

  lemma StartWriting(out: array<byte>)
    ensures Written(out, 0, [], out[..])
  {
  }

  // ---- frames ----

  /** panelEncodeFrame: 0 exactly when the payload or the buffer is too big or small, else the whole frame. */
  method EncodeFrame(kind: byte, payload: seq<byte>, out: array<byte>) returns (n: nat)
    modifies out
    ensures n == 0 <==> |payload| > Framing.MAX_PAYLOAD || out.Length < 8 + |payload|
    ensures n == 0 ==> out[..] == old(out[..])
    ensures n > 0 ==>
              && n == 8 + |payload| && n <= out.Length
              && out[..n] == FramingDelivery.EncodeFrame(PanelParser.PANEL, kind, payload)
              && out[n..] == old(out[n..])
  {
    hide Crc.Crc16, Crc.Fold, Crc.Value, WriteLe16, FramingDelivery.EncodeFrame;
    var total := Framing.HDR + |payload| + Framing.CRC;
    if |payload| > Framing.MAX_PAYLOAD || out.Length < total {
      return 0;
    }
    ghost var orig := out[..];
    var head := [Framing.MAGIC0, Framing.MAGIC1, Framing.VERSION, kind] + WriteLe16(|payload|) + payload;
    StartWriting(out);
    var at := PutNext(out, 0, head, [], orig);
    assert out[..at] == head && out[2..at] == head[2..];
    var crc := Crc.PanelCrc16(out, 2, 4 + |payload|);
    Crc.RegValue(crc);
    n := PutNext(out, at, WriteLe16(Crc.Value(crc)), head, orig);
    FrameSpelledOut(kind, payload, crc);
  }

  lemma FrameSpelledOut(kind: byte, payload: seq<byte>, crc: Crc.Reg)
    requires |payload| <= Framing.MAX_PAYLOAD
    requires
      var head := [Framing.MAGIC0, Framing.MAGIC1, Framing.VERSION, kind] + WriteLe16(|payload|) + payload;
      crc == Crc.Fold(Crc.INIT, head[2..])
    ensures Crc.Value(crc) < 0x1_0000
    ensures
      var head := [Framing.MAGIC0, Framing.MAGIC1, Framing.VERSION, kind] + WriteLe16(|payload|) + payload;
      head + WriteLe16(Crc.Value(crc)) == FramingDelivery.EncodeFrame(PanelParser.PANEL, kind, payload)
  {
    hide Crc.Fold, Crc.Value, WriteLe16;
    var head := [Framing.MAGIC0, Framing.MAGIC1, Framing.VERSION, kind] + WriteLe16(|payload|) + payload;
    var body := [Framing.VERSION, kind] + WriteLe16(|payload|) + payload;
    assert head[2..] == body;
    assert head == [Framing.MAGIC0, Framing.MAGIC1] + body;
    Crc.RegValue(crc);
    CrcOf(body);
  }

  lemma CrcOf(body: seq<byte>)
    ensures PanelParser.PANEL.checksum(body) == Crc.Value(Crc.Fold(Crc.INIT, body))
  {
  }

  // ---- encoding snapshots ----

  lemma RowFits(count: nat, i: nat, stride: nat)
    requires i < count
    ensures i * stride + stride == (i + 1) * stride <= count * stride
  {
    assert count * stride == (i + 1) * stride + (count - i - 1) * stride;
  }

  lemma {:induction false} EncodeRowsNext<T(!new)>(c: Codec<T>, rows: seq<T>, i: nat)
    requires i < |rows|
    ensures EncodeRows(c, rows[..i + 1]) == EncodeRows(c, rows[..i]) + c.enc(rows[i])
    decreases i
  {
    if i == 0 {
      assert rows[..1][1..] == [];
    } else {
      EncodeRowsNext(c, rows[1..], i - 1);
      assert rows[..i + 1][1..] == rows[1..][..i] && rows[..i][1..] == rows[1..][..i - 1];
    }
  }

  /** The row loops. */
  method PutRows<T(!new)>(c: Codec<T>, rows: seq<T>, out: array<byte>, at: nat, ghost done: seq<byte>, ghost orig: seq<byte>)
    returns (end: nat)
    requires Lawful(c) && Written(out, at, done, orig) && at + |rows| * c.stride <= out.Length
    modifies out
    ensures end == at + |rows| * c.stride && Written(out, end, done + EncodeRows(c, rows), orig)
  {
    hide Written;
    end := at;
    assert rows[..0] == [] && done + EncodeRows(c, []) == done;
    for i := 0 to |rows|
      invariant end == at + i * c.stride
      invariant Written(out, end, done + EncodeRows(c, rows[..i]), orig)
    {
      RowFits(|rows|, i, c.stride);
      EncodeRowsNext(c, rows, i);
      assert done + EncodeRows(c, rows[..i]) + c.enc(rows[i]) == done + EncodeRows(c, rows[..i + 1]);
      end := PutNext(out, end, c.enc(rows[i]), done + EncodeRows(c, rows[..i]), orig);
    }
    assert rows[..|rows|] == rows;
  }

  /** A name followed by the other bytes of its record. */
  method PutNamed(out: array<byte>, at: nat, width: nat, name: Name, rest: seq<byte>, ghost done: seq<byte>, ghost orig: seq<byte>)
    returns (end: nat)
    requires 0 < width && Written(out, at, done, orig) && at + width + |rest| <= out.Length
    modifies out
    ensures end == at + width + |rest| && Written(out, end, done + (NameField(width, name) + rest), orig)
  {
    hide NameField, CArray;
    CArrayHolds(width, name);
    WriteName(out, at, CArray(width, name), width);
    ghost var field := NameField(width, name);
    FieldWritten(out, at, width, field, done, orig);
    end := PutNext(out, at + width, rest, done + field, orig);
    assert done + field + rest == done + (field + rest);
  }

  lemma FieldWritten(out: array<byte>, at: nat, width: nat, field: seq<byte>, done: seq<byte>, orig: seq<byte>)
    requires at + width <= out.Length == |orig| && |field| == width && out[at..at + width] == field
    requires out[..at] == done && out[at + width..] == orig[at + width..]
    ensures Written(out, at + width, done + field, orig)
  {
    assert out[..at + width] == out[..at] + out[at..at + width];
  }

  method PutPools(rows: seq<Pool>, out: array<byte>, at: nat, ghost done: seq<byte>, ghost orig: seq<byte>)
    returns (end: nat)
    requires Written(out, at, done, orig) && at + |rows| * 20 <= out.Length
    modifies out
    ensures end == at + |rows| * 20 && Written(out, end, done + EncodeRows(POOL, rows), orig)
  {
    hide Written, WritePool, NameField;
    end := at;
    assert rows[..0] == [] && done + EncodeRows(POOL, []) == done;
    for i := 0 to |rows|
      invariant end == at + i * 20
      invariant Written(out, end, done + EncodeRows(POOL, rows[..i]), orig)
    {
      var x := rows[i];
      RowFits(|rows|, i, 20);
      EncodeRowsNext(POOL, rows, i);
      PoolSpelledOut(x);
      ghost var before := done + EncodeRows(POOL, rows[..i]);
      assert before + WritePool(x) == done + EncodeRows(POOL, rows[..i + 1]);
      end := PutNamed(out, end, 8, x.name, PoolRest(x), before, orig);
    }
    assert rows[..|rows|] == rows;
  }

  function PoolRest(x: Pool): (b: seq<byte>)
    ensures |b| == 12
  {
    [x.tier, x.ok, x.degraded, x.down, x.unknown, x.maint, x.total, x.loadPct, 0, 0, 0, 0]
  }

  lemma PoolSpelledOut(x: Pool)
    ensures POOL.enc(x) == WritePool(x) == NameField(8, x.name) + PoolRest(x)
  {
    hide NameField;
  }

  method PutSystems(rows: seq<System>, out: array<byte>, at: nat, ghost done: seq<byte>, ghost orig: seq<byte>)
    returns (end: nat)
    requires Written(out, at, done, orig) && at + |rows| * 16 <= out.Length
    modifies out
    ensures end == at + |rows| * 16 && Written(out, end, done + EncodeRows(SYSTEM, rows), orig)
  {
    hide Written, WriteSystem, NameField;
    end := at;
    assert rows[..0] == [] && done + EncodeRows(SYSTEM, []) == done;
    for i := 0 to |rows|
      invariant end == at + i * 16
      invariant Written(out, end, done + EncodeRows(SYSTEM, rows[..i]), orig)
    {
      var x := rows[i];
      RowFits(|rows|, i, 16);
      EncodeRowsNext(SYSTEM, rows, i);
      SystemSpelledOut(x);
      ghost var before := done + EncodeRows(SYSTEM, rows[..i]);
      assert before + WriteSystem(x) == done + EncodeRows(SYSTEM, rows[..i + 1]);
      end := PutNamed(out, end, 12, x.name, [x.state, x.pool, x.tier, x.loadPct], before, orig);
    }
    assert rows[..|rows|] == rows;
  }

  lemma SystemSpelledOut(x: System)
    ensures SYSTEM.enc(x) == WriteSystem(x) == NameField(12, x.name) + [x.state, x.pool, x.tier, x.loadPct]
  {
    hide NameField;
  }

  /** Globals, pools, systems and the top alert. */
  method PutBase(s: Snap, out: array<byte>) returns (at: nat)
    requires Sound(s) && |BaseBytes(s)| <= out.Length
    modifies out
    ensures at == |BaseBytes(s)| && Written(out, at, BaseBytes(s), old(out[..]))
  {
    hide Written, Lawful, EncodeRows, WriteGlobals, WriteTopAlert;
    ghost var orig := out[..];
    PoolLawful();
    SystemLawful();
    ghost var pools := EncodeRows(POOL, s.pools[..s.globals.poolCount]);
    ghost var systems := EncodeRows(SYSTEM, s.systems[..s.globals.systemCount]);
    EncodedSize(POOL, s.pools[..s.globals.poolCount]);
    EncodedSize(SYSTEM, s.systems[..s.globals.systemCount]);
    StartWriting(out);
    at := PutNext(out, 0, WriteGlobals(s.globals), [], orig);
    assert [] + WriteGlobals(s.globals) == WriteGlobals(s.globals);
    at := PutPools(s.pools[..s.globals.poolCount], out, at, WriteGlobals(s.globals), orig);
    at := PutSystems(s.systems[..s.globals.systemCount], out, at, WriteGlobals(s.globals) + pools, orig);
    if s.globals.hasTopAlert != 0 {
      at := PutNext(out, at, WriteTopAlert(s.topAlert), WriteGlobals(s.globals) + pools + systems, orig);
    } else {
      assert BaseBytes(s) == WriteGlobals(s.globals) + pools + systems;
    }
  }

  /** The gear trailer. */
  method PutGear(s: Snap, out: array<byte>, start: nat, ghost done: seq<byte>, ghost orig: seq<byte>) returns (at: nat)
    requires Sound(s) && Written(out, start, done, orig) && start + |GearBytes(s)| <= out.Length
    modifies out
    ensures at == start + |GearBytes(s)| && Written(out, at, done + GearBytes(s), orig)
  {
    hide Written, Lawful, EncodeRows;
    GearLawful();
    EncodedSize(GEAR, s.gear[..s.gearCount]);
    at := PutNext(out, start, [s.gearCount], done, orig);
    at := PutRows(GEAR, s.gear[..s.gearCount], out, at, done + [s.gearCount], orig);
    assert done + [s.gearCount] + EncodeRows(GEAR, s.gear[..s.gearCount]) == done + GearBytes(s);
  }

  /** One optional section of panelExtWrite. */
  method PutSection(present: bool, tag: byte, value: seq<byte>, out: array<byte>, start: nat,
                    ghost head: seq<byte>, ghost xs: seq<Tlv>, ghost orig: seq<byte>)
    returns (at: nat)
    requires AllFit(xs) && |value| < 0x1_0000 && Written(out, start, head + Concat(xs), orig)
    requires AllFit(xs + Opt(present, tag, value))
    requires start + (if present then 3 + |value| else 0) <= out.Length
    modifies out
    ensures at == start + (if present then 3 + |value| else 0)
    ensures Written(out, at, head + Concat(xs + Opt(present, tag, value)), orig)
  {
    hide Written, Concat, AllFit;
    OptSize(present, tag, value);
    ConcatAppend(xs, Opt(present, tag, value));
    at := start;
    if present {
      at := PutNext(out, at, TlvBytes(Tlv(tag, value)), head + Concat(xs), orig);
      OneSection(tag, value);
      assert head + Concat(xs) + TlvBytes(Tlv(tag, value)) == head + (Concat(xs) + TlvBytes(Tlv(tag, value)));
    } else {
      assert xs + Opt(present, tag, value) == xs;
    }
  }

  lemma OneSection(tag: byte, value: seq<byte>)
    requires |value| < 0x1_0000
    ensures Concat(Opt(true, tag, value)) == TlvBytes(Tlv(tag, value))
  {
    assert Opt(true, tag, value)[1..] == [];
  }

  method PutTables(s: Snap, out: array<byte>, start: nat, ghost head: seq<byte>, ghost orig: seq<byte>) returns (at: nat)
    requires Sound(s) && Written(out, start, head, orig) && start + TablesSize(s) <= out.Length
    modifies out
    ensures AllFit(Tables(s)) && at == start + TablesSize(s) && Written(out, at, head + Concat(Tables(s)), orig)
  {
    hide Written, Concat, AllFit, Opt, LinksValue, SysxValue, AlertsValue, ProbesValue;
    ValueSizes(s);
    NothingYet(head);
    ghost var xs := [];
    AppendSize(xs, s.links.has != 0, LINKS, LinksValue(s.links));
    at := PutSection(s.links.has != 0, LINKS, LinksValue(s.links), out, start, head, xs, orig);
    assert xs + Opt(s.links.has != 0, LINKS, LinksValue(s.links)) == Opt(s.links.has != 0, LINKS, LinksValue(s.links));
    xs := Opt(s.links.has != 0, LINKS, LinksValue(s.links));
    AppendSize(xs, s.sysx.has != 0, SYSX_TAG, SysxValue(s.globals.systemCount, s.sysx));
    at := PutSection(s.sysx.has != 0, SYSX_TAG, SysxValue(s.globals.systemCount, s.sysx), out, at, head, xs, orig);
    xs := xs + Opt(s.sysx.has != 0, SYSX_TAG, SysxValue(s.globals.systemCount, s.sysx));
    AppendSize(xs, s.alerts.has != 0, ALERTS, AlertsValue(s.alerts));
    at := PutSection(s.alerts.has != 0, ALERTS, AlertsValue(s.alerts), out, at, head, xs, orig);
    xs := xs + Opt(s.alerts.has != 0, ALERTS, AlertsValue(s.alerts));
    AppendSize(xs, s.probes.has != 0, PROBES, ProbesValue(s.probes));
    at := PutSection(s.probes.has != 0, PROBES, ProbesValue(s.probes), out, at, head, xs, orig);
  }

  /** panelExtWrite: the sections in order, each only when it is there. */
  method PutSections(s: Snap, out: array<byte>, start: nat, ghost head: seq<byte>, ghost orig: seq<byte>) returns (at: nat)
    requires Sound(s) && Written(out, start, head, orig) && start + ExtSize(s) <= out.Length
    modifies out
    ensures AllFit(Sections(s)) && at == start + ExtSize(s) && Written(out, at, head + Concat(Sections(s)), orig)
  {
    hide Written, Concat, AllFit, Opt, Tables, TablesSize, PopValue, TotalsValue;
    ValueSizes(s);
    at := PutTables(s, out, start, head, orig);
    ghost var xs := Tables(s);
    AppendSize(xs, s.pop.count != 0, POP, PopValue(s.pop));
    at := PutSection(s.pop.count != 0, POP, PopValue(s.pop), out, at, head, xs, orig);
    xs := xs + Opt(s.pop.count != 0, POP, PopValue(s.pop));
    AppendSize(xs, s.heat.has != 0, HEAT, s.heat.warn + s.heat.crit);
    at := PutSection(s.heat.has != 0, HEAT, s.heat.warn + s.heat.crit, out, at, head, xs, orig);
    xs := xs + Opt(s.heat.has != 0, HEAT, s.heat.warn + s.heat.crit);
    AppendSize(xs, s.totals.has != 0, TOTALS, TotalsValue(s.totals));
    at := PutSection(s.totals.has != 0, TOTALS, TotalsValue(s.totals), out, at, head, xs, orig);
  }

  lemma NothingYet(head: seq<byte>)
    ensures AllFit([]) && head + Concat([]) == head
  {
  }

  /**
   panelEncodeSnapshot: fails exactly for counts over the maxima or too small a buffer; otherwise
   every byte of the payload is written, whatever was there before, and nothing after it.
   */
  method EncodeSnapshot(s: Snap, out: array<byte>) returns (n: nat)
    requires Shaped(s)
    modifies out
    ensures n == 0 <==> !CountsOk(s) || out.Length < Need(s) + ExtSize(s)
    ensures n == 0 ==> out[..] == old(out[..])
    ensures n > 0 ==> n <= out.Length && out[..n] == Payload(s) && out[n..] == old(out[n..])
  {
    if !CountsOk(s) {
      return 0;
    }
    SizeBound(s);
    var size := Need(s) + ExtSize(s);
    if out.Length < size || size > Framing.MAX_PAYLOAD {
      return 0;
    }
    hide Sections, Concat, BaseBytes, GearBytes, ExtSize;
    ghost var orig := out[..];
    HeadSize(s);
    SectionsSize(s);
    var at := PutBase(s, out);
    at := PutGear(s, out, at, BaseBytes(s), orig);
    n := PutSections(s, out, at, BaseBytes(s) + GearBytes(s), orig);
  }

  // ---- decoding snapshots ----

  method LoadRows<T(!new)>(c: Codec<T>, b: seq<byte>, count: nat) returns (rows: seq<T>)
    requires Lawful(c) && count * c.stride <= |b|
    ensures rows == DecodeRows(c, b, count)
  {
    hide Lawful, DecodeRows;
    rows := [];
    var v, left: nat := b, count;
    while left > 0
      invariant left * c.stride <= |v|
      invariant rows + DecodeRows(c, v, left) == DecodeRows(c, b, count)
    {
      NextRow(c, v, left);
      rows := rows + [c.dec(v[..c.stride])];
      v := v[c.stride..];
      left := left - 1;
    }
    NoRows(c, v);
  }

  lemma NextRow<T(!new)>(c: Codec<T>, v: seq<byte>, left: nat)
    requires Lawful(c) && 0 < left && left * c.stride <= |v|
    ensures c.stride <= |v| && c.dec.requires(v[..c.stride]) && (left - 1) * c.stride <= |v[c.stride..]|
    ensures DecodeRows(c, v, left) == [c.dec(v[..c.stride])] + DecodeRows(c, v[c.stride..], left - 1)
  {
    assert left * c.stride == c.stride + (left - 1) * c.stride;
  }

  lemma NoRows<T(!new)>(c: Codec<T>, v: seq<byte>)
    requires Lawful(c)
    ensures DecodeRows(c, v, 0) == []
  {
  }

  method LoadPools(b: seq<byte>, count: nat) returns (rows: seq<Pool>)
    requires Lawful(POOL) && count * 20 <= |b|
    ensures rows == DecodeRows(POOL, b, count)
  {
    hide Lawful, DecodeRows, ReadName;
    rows := [];
    var v, left: nat := b, count;
    while left > 0
      invariant left * 20 <= |v|
      invariant rows + DecodeRows(POOL, v, left) == DecodeRows(POOL, b, count)
    {
      NextRow(POOL, v, left);
      var r := v[..20];
      var name := LoadName(r[..8]);
      rows := rows + [Pool(name, r[8], r[9], r[10], r[11], r[12], r[13], r[14], r[15])];
      v := v[20..];
      left := left - 1;
    }
    NoRows(POOL, v);
  }

  method LoadSystems(b: seq<byte>, count: nat) returns (rows: seq<System>)
    requires Lawful(SYSTEM) && count * 16 <= |b|
    ensures rows == DecodeRows(SYSTEM, b, count)
  {
    hide Lawful, DecodeRows, ReadName;
    rows := [];
    var v, left: nat := b, count;
    while left > 0
      invariant left * 16 <= |v|
      invariant rows + DecodeRows(SYSTEM, v, left) == DecodeRows(SYSTEM, b, count)
    {
      NextRow(SYSTEM, v, left);
      var r := v[..16];
      var name := LoadName(r[..12]);
      rows := rows + [System(name, r[12], r[13], r[14], r[15])];
      v := v[16..];
      left := left - 1;
    }
    NoRows(SYSTEM, v);
  }

  /** panelExtRead's loop. */
  method ExtRead(b: seq<byte>, s: Snap) returns (t: Snap)
    requires Sound(s)
    ensures t == Walk(b, s)
  {
    hide Sound, Apply;
    t := s;
    var at := 0;
    while |b| - at >= 3
      invariant at <= |b| && Sound(t) && Walk(b[at..], t) == Walk(b, s)
      decreases |b| - at
    {
      var n := ReadLe16(b[at + 1], b[at + 2]);
      if |b| - at - 3 < n {
        return;
      }
      assert b[at..][3..3 + n] == b[at + 3..at + 3 + n] && b[at..][3 + n..] == b[at + 3 + n..];
      t := Apply(Tlv(b[at], b[at + 3..at + 3 + n]), t);
      at := at + 3 + n;
    }
  }

  /** Gear and sections, when they are there. */
  method LoadTrailer(b: seq<byte>, s: Snap) returns (t: Snap)
    requires Sound(s)
    ensures t == DecodeTrailer(b, s)
  {
    hide Sound, Walk;
    t := s;
    if |b| == 0 || b[0] > MAX_GEAR || |b| < 1 + 4 * (b[0] as int) {
      return;
    }
    GearLawful();
    var rows := LoadRows(GEAR, b[1..], b[0]);
    assert WithGear(b, s) == s.(gearCount := b[0], gear := Overlay(s.gear, rows));
    t := ExtRead(b[1 + 4 * (b[0] as int)..], s.(gearCount := b[0], gear := Overlay(s.gear, rows)));
  }

  /** panelDecodeSnapshot: -1 leaves the output untouched; 0 fills it. */
  method DecodeSnapshot(p: seq<byte>, s: Snap) returns (rc: int, t: Snap)
    ensures rc == -1 || rc == 0
    ensures rc == -1 ==> Decode(p) == None && t == s
    ensures rc == 0 ==> Decode(p) == Some(t)
  {
    hide Sound, DecodeTrailer, DecodeBase;
    rc, t := -1, s;
    if |p| < GLOBALS_SIZE || p[19] > MAX_POOLS || p[20] > MAX_SYSTEMS || p[21] > 1 || |p| < BaseNeed(p) {
      return;
    }
    rc := 0;
    t := LoadBase(p);
    t := LoadTrailer(p[BaseNeed(p)..], t);
  }

  /** Everything before the trailer. */
  method LoadBase(p: seq<byte>) returns (t: Snap)
    requires BaseOk(p)
    ensures t == DecodeBase(p) && Sound(t)
  {
    hide DecodeRows, Lawful, ReadGlobals, ReadTopAlert, Blank, NoPools, NoSystems;
    PoolLawful();
    SystemLawful();
    var off := GLOBALS_SIZE;
    var pools := LoadPools(p[off..], p[19]);
    off := off + 20 * (p[19] as int);
    var systems := LoadSystems(p[off..], p[20]);
    off := off + 16 * (p[20] as int);
    t := Blank().(globals := ReadGlobals(p[..GLOBALS_SIZE]),
                  pools := Overlay(NoPools(), pools), systems := Overlay(NoSystems(), systems));
    if p[21] != 0 {
      t := t.(topAlert := ReadTopAlert(p[off..off + ALERT_SIZE]));
    } else {
      t := t.(topAlert := NO_TOP);
    }
  }
}
