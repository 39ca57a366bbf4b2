/** Names and fixed-stride records of the SNAPSHOT payload. */
module Records {
  import opened Bytes
  import opened Sequences

  // ---- names ----

  /** A character of a C string: any byte but NUL. */
  type letter = x: int | 1 <= x < 0x100 witness 1

  /** The contents of a `char` array up to its terminator. */
  type Name = seq<letter>

  /** Uppercase, and a dot for anything outside `[A-Z0-9 .:-]`. */
  function Safe(c: letter): (r: letter)
  {
    var u := if 97 <= c <= 122 then c - 32 else c;
    if 65 <= u <= 90 || 48 <= u <= 57 || u == 32 || u == 46 || u == 58 || u == 45 then u else 46
  }

  lemma SafeIsSafe(c: letter)
    ensures Safe(Safe(c)) == Safe(c)
  {
  }

  function SafeAll(s: Name): (r: Name)
    ensures |r| == |s| && forall i :: 0 <= i < |s| ==> r[i] == Safe(s[i])
  {
    if s == [] then [] else [Safe(s[0])] + SafeAll(s[1..])
  }

  /** What a name becomes on the wire: sanitised, and cut with a final dot when too long. */
  function CanonName(width: nat, s: Name): (r: Name)
    requires width > 0
    ensures |r| <= width
  {
    if |s| > width then SafeAll(s[..width - 1]) + [46] else SafeAll(s)
  }

  lemma CanonNameOnce(width: nat, s: Name)
    requires width > 0
    ensures CanonName(width, CanonName(width, s)) == CanonName(width, s)
  {
    var c := CanonName(width, s);
    forall i | 0 <= i < |c| ensures Safe(c[i]) == c[i] {
      if i < |s| {
        SafeIsSafe(s[i]);
      }
    }
    assert SafeAll(c) == c;
  }

  function AsBytes(s: Name): (r: seq<byte>)
    ensures |r| == |s| && forall i :: 0 <= i < |s| ==> r[i] == s[i]
  {
    if s == [] then [] else [s[0] as int] + AsBytes(s[1..])
  }

  /** The fixed-width, NUL-padded wire field. */
  function NameField(width: nat, s: Name): (f: seq<byte>)
    requires width > 0
    ensures |f| == width
  {
    var c := CanonName(width, s);
    AsBytes(c) + Fill<byte>(width - |c|, 0)
  }

  /** The characters before the first NUL. */
  function ReadName(f: seq<byte>): (s: Name)
    ensures |s| <= |f|
  {
    if f == [] || f[0] == 0 then [] else
      var c: letter := f[0];
      [c] + ReadName(f[1..])
  }

  /** Exactly the characters before the first NUL, or all of them. */
  lemma {:induction false} ReadNameSpelled(f: seq<byte>)
    ensures
      var s := ReadName(f);
      && (forall k :: 0 <= k < |s| ==> f[k] != 0 && s[k] == f[k])
      && (|s| < |f| ==> f[|s|] == 0)
    decreases |f|
  {
    if f != [] && f[0] != 0 {
      ReadNameSpelled(f[1..]);
    }
  }

  lemma {:induction false} ReadPadded(s: Name, n: nat)
    ensures ReadName(AsBytes(s) + Fill<byte>(n, 0)) == s
    decreases |s|
  {
    if s != [] {
      assert (AsBytes(s) + Fill<byte>(n, 0))[1..] == AsBytes(s[1..]) + Fill<byte>(n, 0);
      ReadPadded(s[1..], n);
    }
  }

  /** A name survives the wire up to sanitising and truncation. */
  lemma NameRoundTrip(width: nat, s: Name)
    requires width > 0
    ensures ReadName(NameField(width, s)) == CanonName(width, s)
    ensures NameField(width, CanonName(width, s)) == NameField(width, s)
  {
    var c := CanonName(width, s);
    ReadPadded(c, width - |c|);
    CanonNameOnce(width, s);
  }

  /** `[A-Z0-9 .:-]` */
  predicate Printable(c: int)
  {
    65 <= c <= 90 || 48 <= c <= 57 || c == 32 || c == 46 || c == 58 || c == 45
  }

  predicate LowerCase(c: int)
  {
    97 <= c <= 122
  }

  /** How one character goes out: as it is, in upper case, or as a dot. */
  predicate SentAs(c: int, b: int)
  {
    && (Printable(c) ==> b == c)
    && (LowerCase(c) ==> b == c - 32)
    && (!Printable(c) && !LowerCase(c) ==> b == 46)
  }

  /** The field, character by character: a name that does not fit ends in a dot, a short one is padded with NULs. */
  predicate Spells(f: seq<byte>, width: nat, s: Name)
  {
    && |f| == width
    && (forall k :: 0 <= k < width && k < |s| && !(|s| > width && k == width - 1) ==> SentAs(s[k], f[k]))
    && (width > 0 && |s| > width ==> f[width - 1] == 46)
    && (forall k :: |s| <= k < width ==> f[k] == 0)
  }

  lemma FieldSpells(width: nat, s: Name)
    requires width > 0
    ensures Spells(NameField(width, s), width, s)
  {
    var c := CanonName(width, s);
    assert forall k :: 0 <= k < |c| ==> NameField(width, s)[k] == c[k];
  }

  /** That fixes the field. */
  lemma SpellsUnique(f: seq<byte>, g: seq<byte>, width: nat, s: Name)
    requires Spells(f, width, s) && Spells(g, width, s)
    ensures f == g
  {
    forall k | 0 <= k < width ensures f[k] == g[k] {
      if k < |s| && !(|s| > width && k == width - 1) {
        assert SentAs(s[k], f[k]) && SentAs(s[k], g[k]);
      }
    }
  }

  /** Nothing but the character set and padding goes out; what is in the set goes out as it is. */
  lemma FieldIsPrintable(width: nat, s: Name)
    requires width > 0
    ensures forall k :: 0 <= k < width ==> NameField(width, s)[k] == 0 || Printable(NameField(width, s)[k])
    ensures |s| <= width && (forall k :: 0 <= k < |s| ==> Printable(s[k])) ==>
              forall k :: 0 <= k < |s| ==> NameField(width, s)[k] == s[k]
  {
    hide NameField;
    FieldSpells(width, s);
    var f := NameField(width, s);
    forall k | 0 <= k < width ensures f[k] == 0 || Printable(f[k]) {
      if k < |s| && !(|s| > width && k == width - 1) {
        assert SentAs(s[k], f[k]);
      }
    }
  }

  predicate SameUpToCase(s: Name, t: Name)
  {
    |s| == |t| && forall k :: 0 <= k < |s| ==>
      s[k] == t[k] || (LowerCase(s[k]) && t[k] == s[k] - 32) || (LowerCase(t[k]) && s[k] == t[k] - 32)
  }

  lemma CaseIgnored(width: nat, s: Name, t: Name)
    requires width > 0 && SameUpToCase(s, t)
    ensures NameField(width, s) == NameField(width, t)
  {
    hide NameField;
    FieldSpells(width, s);
    FieldSpells(width, t);
    var f := NameField(width, s);
    forall k | 0 <= k < width && k < |t| && !(|t| > width && k == width - 1) ensures SentAs(t[k], f[k]) {
      assert SentAs(s[k], f[k]);
    }
    SpellsUnique(f, NameField(width, t), width, t);
  }

  // ---- records ----

  datatype Codec<!T> = Codec(stride: nat, enc: T -> seq<byte>, dec: seq<byte> --> T, canon: T -> T)

  ghost predicate Lawful<T(!new)>(c: Codec<T>)
  {
    && c.stride > 0
    && (forall b: seq<byte> :: |b| == c.stride ==> c.dec.requires(b))
    && (forall x: T :: |c.enc(x)| == c.stride && c.dec(c.enc(x)) == c.canon(x) && c.enc(c.canon(x)) == c.enc(x))
  }

  function EncodeRows<T>(c: Codec<T>, rows: seq<T>): seq<byte>
  {
    if rows == [] then [] else c.enc(rows[0]) + EncodeRows(c, rows[1..])
  }

  function CanonRows<T>(c: Codec<T>, rows: seq<T>): (r: seq<T>)
    ensures |r| == |rows|
  {
    if rows == [] then [] else [c.canon(rows[0])] + CanonRows(c, rows[1..])
  }

  function DecodeRows<T(!new)>(c: Codec<T>, b: seq<byte>, count: nat): (r: seq<T>)
    requires Lawful(c) && count * c.stride <= |b|
    ensures |r| == count
    decreases count
  {
    if count == 0 then [] else
      assert count * c.stride == c.stride + (count - 1) * c.stride;
      [c.dec(b[..c.stride])] + DecodeRows(c, b[c.stride..], count - 1)
  }

  lemma {:induction false} EncodedSize<T(!new)>(c: Codec<T>, rows: seq<T>)
    requires Lawful(c)
    ensures |EncodeRows(c, rows)| == |rows| * c.stride
    decreases |rows|
  {
    if rows != [] {
      EncodedSize(c, rows[1..]);
      assert |rows| * c.stride == c.stride + |rows[1..]| * c.stride;
    }
  }

  lemma {:induction false} RowsRoundTrip<T(!new)>(c: Codec<T>, rows: seq<T>, rest: seq<byte>)
    requires Lawful(c)
    ensures |rows| * c.stride <= |EncodeRows(c, rows) + rest|
    ensures DecodeRows(c, EncodeRows(c, rows) + rest, |rows|) == CanonRows(c, rows)
    decreases |rows|
  {
    EncodedSize(c, rows);
    if rows != [] {
      var b := EncodeRows(c, rows) + rest;
      var first, others := c.enc(rows[0]), EncodeRows(c, rows[1..]) + rest;
      assert b == first + others;
      assert b[..c.stride] == first && b[c.stride..] == others;
      EncodedSize(c, rows[1..]);
      RowsRoundTrip(c, rows[1..], rest);
    }
  }

  lemma {:induction false} CanonRowsEncode<T(!new)>(c: Codec<T>, rows: seq<T>)
    requires Lawful(c)
    ensures EncodeRows(c, CanonRows(c, rows)) == EncodeRows(c, rows)
    decreases |rows|
  {
    if rows != [] {
      CanonRowsEncode(c, rows[1..]);
      assert CanonRows(c, rows)[1..] == CanonRows(c, rows[1..]);
    }
  }

  // ---- the record types ----

  datatype Pool = Pool(name: Name, tier: byte, ok: byte, degraded: byte, down: byte, unknown: byte,
                       maint: byte, total: byte, loadPct: byte)

  function WritePool(x: Pool): (b: seq<byte>)
    ensures |b| == 20
  {
    NameField(8, x.name) + [x.tier, x.ok, x.degraded, x.down, x.unknown, x.maint, x.total, x.loadPct] + [0, 0, 0, 0]
  }

  function ReadPool(b: seq<byte>): Pool
    requires |b| == 20
  {
    Pool(ReadName(b[..8]), b[8], b[9], b[10], b[11], b[12], b[13], b[14], b[15])
  }

  function CanonPool(x: Pool): Pool
  {
    x.(name := CanonName(8, x.name))
  }

  const POOL: Codec<Pool> := Codec(20, WritePool, ReadPool, CanonPool)

  lemma PoolRoundTrip(x: Pool)
    ensures ReadPool(WritePool(x)) == CanonPool(x) && WritePool(CanonPool(x)) == WritePool(x)
  {
    NameRoundTrip(8, x.name);
    assert WritePool(x)[..8] == NameField(8, x.name);
  }

  lemma PoolLawful()
    ensures Lawful(POOL)
  {
    forall x: Pool ensures |WritePool(x)| == 20 && ReadPool(WritePool(x)) == CanonPool(x)
                           && WritePool(CanonPool(x)) == WritePool(x) {
      PoolRoundTrip(x);
    }
  }

  datatype System = System(name: Name, state: byte, pool: byte, tier: byte, loadPct: byte)

  function WriteSystem(x: System): (b: seq<byte>)
    ensures |b| == 16
  {
    NameField(12, x.name) + [x.state, x.pool, x.tier, x.loadPct]
  }

  function ReadSystem(b: seq<byte>): System
    requires |b| == 16
  {
    System(ReadName(b[..12]), b[12], b[13], b[14], b[15])
  }

  function CanonSystem(x: System): System
  {
    x.(name := CanonName(12, x.name))
  }

  const SYSTEM: Codec<System> := Codec(16, WriteSystem, ReadSystem, CanonSystem)

  lemma SystemRoundTrip(x: System)
    ensures ReadSystem(WriteSystem(x)) == CanonSystem(x) && WriteSystem(CanonSystem(x)) == WriteSystem(x)
  {
    NameRoundTrip(12, x.name);
    assert WriteSystem(x)[..12] == NameField(12, x.name);
  }

  lemma SystemLawful()
    ensures Lawful(SYSTEM)
  {
    forall x: System ensures |WriteSystem(x)| == 16 && ReadSystem(WriteSystem(x)) == CanonSystem(x)
                           && WriteSystem(CanonSystem(x)) == WriteSystem(x) {
      SystemRoundTrip(x);
    }
  }

  datatype TopAlert = TopAlert(alertId: dword, episodeId: dword, severity: byte, subject: Name, detail: Name)

  function WriteTopAlert(x: TopAlert): (b: seq<byte>)
    ensures |b| == 84
  {
    WriteLe32(x.alertId) + WriteLe32(x.episodeId) + [x.severity, 0, 0, 0]
    + NameField(24, x.subject) + NameField(48, x.detail)
  }

  function ReadTopAlert(b: seq<byte>): TopAlert
    requires |b| == 84
  {
    TopAlert(ReadLe32(b[0], b[1], b[2], b[3]), ReadLe32(b[4], b[5], b[6], b[7]), b[8],
             ReadName(b[12..36]), ReadName(b[36..84]))
  }

  function CanonTopAlert(x: TopAlert): TopAlert
  {
    x.(subject := CanonName(24, x.subject), detail := CanonName(48, x.detail))
  }

  lemma TopAlertRoundTrip(x: TopAlert)
    ensures ReadTopAlert(WriteTopAlert(x)) == CanonTopAlert(x) && WriteTopAlert(CanonTopAlert(x)) == WriteTopAlert(x)
  {
    hide NameField, ReadName, CanonName, WriteLe32, ReadLe32;
    NameRoundTrip(24, x.subject);
    NameRoundTrip(48, x.detail);
    assert WriteTopAlert(x)[12..36] == NameField(24, x.subject);
    assert WriteTopAlert(x)[36..84] == NameField(48, x.detail);
    assert WriteTopAlert(x)[..4] == WriteLe32(x.alertId);
    assert WriteTopAlert(x)[4..8] == WriteLe32(x.episodeId);
  }

  datatype Gear = Gear(role: byte, state: byte, rxLevel: byte, txLevel: byte)

  function WriteGear(x: Gear): (b: seq<byte>)
    ensures |b| == 4
  {
    [x.role, x.state, x.rxLevel, x.txLevel]
  }

  function ReadGear(b: seq<byte>): Gear
    requires |b| == 4
  {
    Gear(b[0], b[1], b[2], b[3])
  }

  function CanonGear(x: Gear): Gear
  {
    x
  }

  const GEAR: Codec<Gear> := Codec(4, WriteGear, ReadGear, CanonGear)

  lemma GearRoundTrip(x: Gear)
    ensures ReadGear(WriteGear(x)) == CanonGear(x) && WriteGear(CanonGear(x)) == WriteGear(x)
  {
  }

  lemma GearLawful()
    ensures Lawful(GEAR)
  {
    forall x: Gear ensures |WriteGear(x)| == 4 && ReadGear(WriteGear(x)) == CanonGear(x)
                           && WriteGear(CanonGear(x)) == WriteGear(x) {
      GearRoundTrip(x);
    }
  }

  datatype Link = Link(name: Name, kind: byte, state: byte, parent: byte, upKbps: dword, downKbps: dword)

  function WriteLink(x: Link): (b: seq<byte>)
    ensures |b| == 24
  {
    NameField(12, x.name) + [x.kind, x.state, x.parent, 0] + WriteLe32(x.upKbps) + WriteLe32(x.downKbps)
  }

  function ReadLink(b: seq<byte>): Link
    requires |b| == 24
  {
    Link(ReadName(b[..12]), b[12], b[13], b[14],
         ReadLe32(b[16], b[17], b[18], b[19]), ReadLe32(b[20], b[21], b[22], b[23]))
  }

  function CanonLink(x: Link): Link
  {
    x.(name := CanonName(12, x.name))
  }

  const LINK: Codec<Link> := Codec(24, WriteLink, ReadLink, CanonLink)

  lemma LinkRoundTrip(x: Link)
    ensures ReadLink(WriteLink(x)) == CanonLink(x) && WriteLink(CanonLink(x)) == WriteLink(x)
  {
    NameRoundTrip(12, x.name);
    assert WriteLink(x)[..12] == NameField(12, x.name);
    assert WriteLink(x)[16..20] == WriteLe32(x.upKbps);
    assert WriteLink(x)[20..24] == WriteLe32(x.downKbps);
  }

  lemma LinkLawful()
    ensures Lawful(LINK)
  {
    forall x: Link ensures |WriteLink(x)| == 24 && ReadLink(WriteLink(x)) == CanonLink(x)
                           && WriteLink(CanonLink(x)) == WriteLink(x) {
      LinkRoundTrip(x);
    }
  }

  datatype Sysx = Sysx(memPct: byte, diskPct: byte, faults: byte, rxKbps: dword, txKbps: dword)

  function WriteSysx(x: Sysx): (b: seq<byte>)
    ensures |b| == 12
  {
    [x.memPct, x.diskPct, x.faults, 0] + WriteLe32(x.rxKbps) + WriteLe32(x.txKbps)
  }

  function ReadSysx(b: seq<byte>): Sysx
    requires |b| == 12
  {
    Sysx(b[0], b[1], b[2], ReadLe32(b[4], b[5], b[6], b[7]), ReadLe32(b[8], b[9], b[10], b[11]))
  }

  function CanonSysx(x: Sysx): Sysx
  {
    x
  }

  const SYSX: Codec<Sysx> := Codec(12, WriteSysx, ReadSysx, CanonSysx)

  lemma SysxRoundTrip(x: Sysx)
    ensures ReadSysx(WriteSysx(x)) == CanonSysx(x) && WriteSysx(CanonSysx(x)) == WriteSysx(x)
  {
    assert WriteSysx(x)[4..8] == WriteLe32(x.rxKbps);
    assert WriteSysx(x)[8..12] == WriteLe32(x.txKbps);
  }

  lemma SysxLawful()
    ensures Lawful(SYSX)
  {
    forall x: Sysx ensures |WriteSysx(x)| == 12 && ReadSysx(WriteSysx(x)) == CanonSysx(x)
                           && WriteSysx(CanonSysx(x)) == WriteSysx(x) {
      SysxRoundTrip(x);
    }
  }

  datatype Alert = Alert(severity: byte, code: byte, ageMin: word, host: Name, msg: Name)

  function WriteAlert(x: Alert): (b: seq<byte>)
    ensures |b| == 34
  {
    [x.severity, x.code] + WriteLe16(x.ageMin) + NameField(12, x.host) + NameField(18, x.msg)
  }

  function ReadAlert(b: seq<byte>): Alert
    requires |b| == 34
  {
    Alert(b[0], b[1], ReadLe16(b[2], b[3]), ReadName(b[4..16]), ReadName(b[16..34]))
  }

  function CanonAlert(x: Alert): Alert
  {
    x.(host := CanonName(12, x.host), msg := CanonName(18, x.msg))
  }

  const ALERT: Codec<Alert> := Codec(34, WriteAlert, ReadAlert, CanonAlert)

  lemma AlertRoundTrip(x: Alert)
    ensures ReadAlert(WriteAlert(x)) == CanonAlert(x) && WriteAlert(CanonAlert(x)) == WriteAlert(x)
  {
    NameRoundTrip(12, x.host);
    NameRoundTrip(18, x.msg);
    assert WriteAlert(x)[4..16] == NameField(12, x.host);
    assert WriteAlert(x)[16..34] == NameField(18, x.msg);
    assert WriteAlert(x)[2..4] == WriteLe16(x.ageMin);
  }

  lemma AlertLawful()
    ensures Lawful(ALERT)
  {
    forall x: Alert ensures |WriteAlert(x)| == 34 && ReadAlert(WriteAlert(x)) == CanonAlert(x)
                           && WriteAlert(CanonAlert(x)) == WriteAlert(x) {
      AlertRoundTrip(x);
    }
  }

  datatype Probe = Probe(name: Name, rttTenthMs: word, lossPermille: word, state: byte)

  function WriteProbe(x: Probe): (b: seq<byte>)
    ensures |b| == 14
  {
    NameField(8, x.name) + WriteLe16(x.rttTenthMs) + WriteLe16(x.lossPermille) + [x.state, 0]
  }

  function ReadProbe(b: seq<byte>): Probe
    requires |b| == 14
  {
    Probe(ReadName(b[..8]), ReadLe16(b[8], b[9]), ReadLe16(b[10], b[11]), b[12])
  }

  function CanonProbe(x: Probe): Probe
  {
    x.(name := CanonName(8, x.name))
  }

  const PROBE: Codec<Probe> := Codec(14, WriteProbe, ReadProbe, CanonProbe)

  lemma ProbeRoundTrip(x: Probe)
    ensures ReadProbe(WriteProbe(x)) == CanonProbe(x) && WriteProbe(CanonProbe(x)) == WriteProbe(x)
  {
    NameRoundTrip(8, x.name);
    assert WriteProbe(x)[..8] == NameField(8, x.name);
    assert WriteProbe(x)[8..10] == WriteLe16(x.rttTenthMs);
    assert WriteProbe(x)[10..12] == WriteLe16(x.lossPermille);
  }

  lemma ProbeLawful()
    ensures Lawful(PROBE)
  {
    forall x: Probe ensures |WriteProbe(x)| == 14 && ReadProbe(WriteProbe(x)) == CanonProbe(x)
                           && WriteProbe(CanonProbe(x)) == WriteProbe(x) {
      ProbeRoundTrip(x);
    }
  }
}
