/** Unsigned integers of the wire format and their little-endian images. */
module Bytes {

  type byte = x: int | 0 <= x < 0x100
  type word = x: int | 0 <= x < 0x1_0000
  type dword = x: int | 0 <= x < 0x1_0000_0000

  function ReadLe16(lo: byte, hi: byte): (v: word)
  {
    lo + 0x100 * hi
  }

  function WriteLe16(v: word): (b: seq<byte>)
    ensures |b| == 2
    ensures ReadLe16(b[0], b[1]) == v
  {
    [v % 0x100, v / 0x100]
  }

  lemma Le16Inverse(lo: byte, hi: byte)
    ensures WriteLe16(ReadLe16(lo, hi)) == [lo, hi]
  {
  }

  function ReadLe32(b0: byte, b1: byte, b2: byte, b3: byte): (v: dword)
  {
    ReadLe16(b0, b1) + 0x1_0000 * ReadLe16(b2, b3)
  }

  function WriteLe32(v: dword): (b: seq<byte>)
    ensures |b| == 4
    ensures ReadLe32(b[0], b[1], b[2], b[3]) == v
  {
    WriteLe16(v % 0x1_0000) + WriteLe16(v / 0x1_0000)
  }

  /** Little-endian numbers, spelled out at a place in a byte string. */
  predicate Le16At(p: seq<byte>, at: nat, v: int)
  {
    at + 2 <= |p| && v == p[at] + 0x100 * (p[at + 1] as int)
  }

  predicate Le32At(p: seq<byte>, at: nat, v: int)
  {
    at + 4 <= |p| && v == p[at] + 0x100 * (p[at + 1] as int) + 0x1_0000 * (p[at + 2] as int) + 0x100_0000 * (p[at + 3] as int)
  }

  lemma Le16Spelled(v: word)
    ensures Le16At(WriteLe16(v), 0, v)
  {
  }

  lemma Le32Spelled(v: dword)
    ensures Le32At(WriteLe32(v), 0, v)
  {
    Le16Spelled(v % 0x1_0000);
    Le16Spelled(v / 0x1_0000);
  }

  lemma Le16Within(p: seq<byte>, at: nat, v: word)
    requires at + 2 <= |p| && p[at..at + 2] == WriteLe16(v)
    ensures Le16At(p, at, v)
  {
    Le16Spelled(v);
    assert p[at] == p[at..at + 2][0] && p[at + 1] == p[at..at + 2][1];
  }

  lemma Le32Within(p: seq<byte>, at: nat, v: dword)
    requires at + 4 <= |p| && p[at..at + 4] == WriteLe32(v)
    ensures Le32At(p, at, v)
  {
    hide WriteLe32;
    Le32Spelled(v);
    var b := p[at..at + 4];
    assert p[at] == b[0] && p[at + 1] == b[1] && p[at + 2] == b[2] && p[at + 3] == b[3];
  }

  /** 32-bit wrap-around of the counters and of clock differences. */
  function Wrap32(x: int): (r: dword)
  {
    x % 0x1_0000_0000
  }
}
