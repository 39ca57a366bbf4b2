/** The optional trailer of tagged sections. */
module Tlv {
  import opened Bytes
  import opened Records
  import opened Snapshot

  datatype Tlv = Tlv(tag: byte, value: seq<byte>)

  const LINKS: byte := 1
  const SYSX_TAG: byte := 2
  const ALERTS: byte := 3
  const PROBES: byte := 4
  const POP: byte := 5
  const HEAT: byte := 6
  const TOTALS: byte := 7

  // ---- one section each ----

  function TakeLinks(v: seq<byte>, t: Links): (r: Links)
    requires |t.rows| == MAX_LINKS
    ensures |r.rows| == MAX_LINKS && (r == t || r.count <= MAX_LINKS)
  {
    if |v| < 1 || v[0] > MAX_LINKS || |v| < 1 + (v[0] as int) * 24 then t else
      LinkLawful();
      Links(1, v[0], Overlay(t.rows, DecodeRows(LINK, v[1..], v[0])))
  }

  function TakeSysx(v: seq<byte>, systemCount: byte, t: SysxTable): (r: SysxTable)
    requires |t.rows| == MAX_SYSTEMS && systemCount <= MAX_SYSTEMS
    ensures |r.rows| == MAX_SYSTEMS
  {
    if |v| < 1 || v[0] != systemCount || |v| < 1 + (v[0] as int) * 12 then t else
      SysxLawful();
      SysxTable(1, Overlay(t.rows, DecodeRows(SYSX, v[1..], v[0])))
  }

  function TakeAlerts(v: seq<byte>, t: Alerts): (r: Alerts)
    requires |t.rows| == MAX_ALERTS && |t.faults| == FAULT_CODES
    ensures |r.rows| == MAX_ALERTS && |r.faults| == FAULT_CODES && (r == t || r.count <= MAX_ALERTS)
  {
    if |v| < 9 || v[8] > MAX_ALERTS || |v| < 9 + (v[8] as int) * 34 then t else
      AlertLawful();
      Alerts(1, v[0], v[1..8], v[8], Overlay(t.rows, DecodeRows(ALERT, v[9..], v[8])))
  }

  function TakeProbes(v: seq<byte>, t: Probes): (r: Probes)
    requires |t.rows| == MAX_PROBES
    ensures |r.rows| == MAX_PROBES && (r == t || r.count <= MAX_PROBES)
  {
    if |v| < 1 || v[0] > MAX_PROBES || |v| < 1 + (v[0] as int) * 14 then t else
      ProbeLawful();
      Probes(1, v[0], Overlay(t.rows, DecodeRows(PROBE, v[1..], v[0])))
  }

  function TakePop(v: seq<byte>, t: Pop): (r: Pop)
    requires |t.tail| == MAX_POP
    ensures |r.tail| == MAX_POP && (r == t || r.count <= MAX_POP)
  {
    if |v| < 1 || v[0] > MAX_POP || |v| < 1 + v[0] then t
    else Pop(v[0], Overlay(t.tail, v[1..1 + v[0]]))
  }

  function TakeHeat(v: seq<byte>, t: Heat): (r: Heat)
    requires |t.warn| == HEAT_LEN && |t.crit| == HEAT_LEN
    ensures |r.warn| == HEAT_LEN && |r.crit| == HEAT_LEN
  {
    if |v| < 2 * HEAT_LEN then t else Heat(1, v[..HEAT_LEN], v[HEAT_LEN..2 * HEAT_LEN])
  }

  function TakeTotals(v: seq<byte>, t: Totals): Totals
  {
    if |v| < 16 then t else
      Totals(1, ReadLe32(v[0], v[1], v[2], v[3]), ReadLe32(v[4], v[5], v[6], v[7]),
             ReadLe32(v[8], v[9], v[10], v[11]), ReadLe32(v[12], v[13], v[14], v[15]))
  }

  ghost predicate Sound(s: Snap)
  {
    Shaped(s) && CountsOk(s)
  }

  /** panelExtValue: a known, well-formed section replaces its part; anything else changes nothing. */
  function Apply(x: Tlv, s: Snap): (t: Snap)
    requires Sound(s)
    ensures Sound(t)
  {
    if x.tag == LINKS then s.(links := TakeLinks(x.value, s.links))
    else if x.tag == SYSX_TAG then s.(sysx := TakeSysx(x.value, s.globals.systemCount, s.sysx))
    else if x.tag == ALERTS then s.(alerts := TakeAlerts(x.value, s.alerts))
    else if x.tag == PROBES then s.(probes := TakeProbes(x.value, s.probes))
    else if x.tag == POP then s.(pop := TakePop(x.value, s.pop))
    else if x.tag == HEAT then s.(heat := TakeHeat(x.value, s.heat))
    else if x.tag == TOTALS then s.(totals := TakeTotals(x.value, s.totals))
    else s
  }

  predicate Known(tag: byte)
  {
    1 <= tag <= 7
  }

  // ---- the walk ----

  predicate Fits(x: Tlv)
  {
    |x.value| < 0x1_0000
  }

  function TlvBytes(x: Tlv): seq<byte>
    requires Fits(x)
  {
    [x.tag] + WriteLe16(|x.value|) + x.value
  }

  predicate AllFit(xs: seq<Tlv>)
  {
    forall i :: 0 <= i < |xs| ==> Fits(xs[i])
  }

  function Concat(xs: seq<Tlv>): seq<byte>
    requires AllFit(xs)
  {
    if xs == [] then [] else TlvBytes(xs[0]) + Concat(xs[1..])
  }

  function Fold(xs: seq<Tlv>, s: Snap): (t: Snap)
    requires Sound(s)
    ensures Sound(t)
    decreases |xs|
  {
    if xs == [] then s else Fold(xs[1..], Apply(xs[0], s))
  }

  /** Too short for a header, or shorter than its header says. */
  predicate Truncated(b: seq<byte>)
  {
    |b| < 3 || |b| - 3 < ReadLe16(b[1], b[2])
  }

  /** panelExtRead */
  function Walk(b: seq<byte>, s: Snap): (t: Snap)
    requires Sound(s)
    ensures Sound(t)
    decreases |b|
  {
    if Truncated(b) then s else
      var n := ReadLe16(b[1], b[2]);
      Walk(b[3 + n..], Apply(Tlv(b[0], b[3..3 + n]), s))
  }

  lemma FirstTlv(x: Tlv, rest: seq<byte>)
    requires Fits(x)
    ensures
      var b, n := TlvBytes(x) + rest, |x.value|;
      !Truncated(b) && ReadLe16(b[1], b[2]) == n && Tlv(b[0], b[3..3 + n]) == x && b[3 + n..] == rest
  {
    var b := TlvBytes(x) + rest;
    assert b[1..3] == WriteLe16(|x.value|);
    assert b[1] == b[1..3][0] && b[2] == b[1..3][1];
  }

  lemma {:induction false} WalkIsFold(xs: seq<Tlv>, tail: seq<byte>, s: Snap)
    requires AllFit(xs) && Truncated(tail) && Sound(s)
    ensures Walk(Concat(xs) + tail, s) == Fold(xs, s)
    decreases |xs|
  {
    hide Apply, Sound, Truncated, TlvBytes, ReadLe16;
    if xs == [] {
      assert Concat(xs) + tail == tail;
    } else {
      var rest := Concat(xs[1..]) + tail;
      assert Concat(xs) + tail == TlvBytes(xs[0]) + rest;
      FirstTlv(xs[0], rest);
      WalkIsFold(xs[1..], tail, Apply(xs[0], s));
    }
  }

  /** Every trailer is a sequence of sections followed by a truncated one. */
  lemma {:induction false} EveryTrailerSplits(b: seq<byte>) returns (xs: seq<Tlv>, tail: seq<byte>)
    ensures AllFit(xs) && Truncated(tail) && b == Concat(xs) + tail
    decreases |b|
  {
    hide WriteLe16, ReadLe16;
    if Truncated(b) {
      xs, tail := [], b;
      assert b == Concat(xs) + tail;
    } else {
      var n := ReadLe16(b[1], b[2]);
      var x := Tlv(b[0], b[3..3 + n]);
      var rest;
      rest, tail := EveryTrailerSplits(b[3 + n..]);
      xs := [x] + rest;
      Le16Inverse(b[1], b[2]);
      assert xs[1..] == rest;
      assert b == TlvBytes(x) + b[3 + n..];
    }
  }

  // ---- order, unknown tags and truncation do not matter ----

  lemma ApplyCommutes(x: Tlv, y: Tlv, s: Snap)
    requires Sound(s) && x.tag != y.tag
    ensures Apply(x, Apply(y, s)) == Apply(y, Apply(x, s))
  {
    hide Shaped, CountsOk, TakeLinks, TakeSysx, TakeAlerts, TakeProbes, TakePop, TakeHeat, TakeTotals;
  }

  lemma {:induction false} FoldAppend(xs: seq<Tlv>, ys: seq<Tlv>, s: Snap)
    requires Sound(s)
    ensures Fold(xs + ys, s) == Fold(ys, Fold(xs, s))
    decreases |xs|
  {
    hide Apply, Sound;
    if xs == [] {
      assert xs + ys == ys;
    } else {
      assert (xs + ys)[1..] == xs[1..] + ys;
      FoldAppend(xs[1..], ys, Apply(xs[0], s));
    }
  }

  predicate TagsDistinct(xs: seq<Tlv>)
  {
    forall i, j :: 0 <= i < j < |xs| ==> xs[i].tag != xs[j].tag
  }

  /** A section can be moved to the front past sections with other tags. */
  lemma {:induction false} MoveToFront(xs: seq<Tlv>, x: Tlv, s: Snap)
    requires Sound(s) && forall i :: 0 <= i < |xs| ==> xs[i].tag != x.tag
    ensures Fold(xs + [x], s) == Fold(xs, Apply(x, s))
    decreases |xs|
  {
    hide Apply, Sound;
    if xs == [] {
      assert xs + [x] == [x];
      assert Fold([x][1..], Apply(x, s)) == Apply(x, s);
    } else {
      assert (xs + [x])[1..] == xs[1..] + [x];
      MoveToFront(xs[1..], x, Apply(xs[0], s));
      ApplyCommutes(x, xs[0], s);
    }
  }

  /** Permuting sections with distinct tags changes nothing. */
  lemma {:induction false} PermutationIgnored(xs: seq<Tlv>, ys: seq<Tlv>, s: Snap)
    requires Sound(s) && TagsDistinct(xs) && multiset(xs) == multiset(ys)
    ensures Fold(xs, s) == Fold(ys, s)
    decreases |xs|
  {
    hide Apply, Sound, Fold;
    if xs == [] {
      assert |multiset(ys)| == 0;
      assert ys == [];
    } else {
      var x := xs[0];
      assert xs == [x] + xs[1..];
      assert x in multiset(xs);
      var k :| 0 <= k < |ys| && ys[k] == x;
      var before, after := ys[..k], ys[k + 1..];
      assert ys == before + [x] + after;
      WithoutFirst(xs, before, after);
      OthersDiffer(xs, before, after);
      MoveToFront(before, x, s);
      FoldAppend(before + [x], after, s);
      FoldAppend(before, after, Apply(x, s));
      PermutationIgnored(xs[1..], before + after, Apply(x, s));
      FoldFirst(xs, s);
    }
  }

  lemma FoldFirst(xs: seq<Tlv>, s: Snap)
    requires Sound(s) && xs != []
    ensures Fold(xs, s) == Fold(xs[1..], Apply(xs[0], s))
  {
  }

  lemma WithoutFirst(xs: seq<Tlv>, before: seq<Tlv>, after: seq<Tlv>)
    requires xs != [] && multiset(xs) == multiset(before + [xs[0]] + after)
    ensures multiset(before + after) == multiset(xs[1..])
  {
    assert xs == [xs[0]] + xs[1..];
    assert multiset(xs) == multiset{xs[0]} + multiset(xs[1..]);
    assert multiset(before + [xs[0]] + after) == multiset{xs[0]} + multiset(before + after);
    assert multiset(xs[1..]) == multiset(xs) - multiset{xs[0]} == multiset(before + after);
  }

  lemma OthersDiffer(xs: seq<Tlv>, before: seq<Tlv>, after: seq<Tlv>)
    requires xs != [] && TagsDistinct(xs) && multiset(before + after) == multiset(xs[1..])
    ensures forall i :: 0 <= i < |before| ==> before[i].tag != xs[0].tag
  {
    forall i | 0 <= i < |before| ensures before[i].tag != xs[0].tag {
      assert before[i] == (before + after)[i];
      assert before[i] in multiset(before + after);
      assert before[i] in multiset(xs[1..]);
      var j :| 0 <= j < |xs[1..]| && xs[1..][j] == before[i];
      assert xs[j + 1] == before[i];
    }
  }

  lemma ApplyUnknown(x: Tlv, s: Snap)
    requires Sound(s) && !Known(x.tag)
    ensures Fold([x], s) == s
  {
    assert Fold([x][1..], Apply(x, s)) == s;
  }

  /** Inserting a section with an unknown tag changes nothing. */
  lemma UnknownIgnored(xs: seq<Tlv>, x: Tlv, ys: seq<Tlv>, s: Snap)
    requires Sound(s) && !Known(x.tag)
    ensures Fold(xs + [x] + ys, s) == Fold(xs + ys, s)
  {
    hide Apply, Sound, Fold;
    FoldAppend(xs + [x], ys, s);
    FoldAppend(xs, [x], s);
    FoldAppend(xs, ys, s);
    ApplyUnknown(x, Fold(xs, s));
  }
}
