/** CRC-16/CCITT of the panel protocol, and the errors it is certain to catch. */
module Crc {
  import opened Bytes

  /** A 16-bit register, most significant bit first. */
  type Reg = s: seq<bool> | |s| == 16 witness ZERO

  const ZERO: seq<bool> := [false, false, false, false, false, false, false, false,
                            false, false, false, false, false, false, false, false]

  /** 0xffff */
  const INIT: Reg := [true, true, true, true, true, true, true, true,
                      true, true, true, true, true, true, true, true]

  /** 0x1021 */
  const POLY: Reg := [false, false, false, true, false, false, false, false,
                      false, false, true, false, false, false, false, true]

  function Xor(a: seq<bool>, b: seq<bool>): (d: seq<bool>)
    requires |a| == |b|
    ensures |d| == |a|
    ensures forall i :: 0 <= i < |a| ==> d[i] == (a[i] != b[i])
  {
    if a == [] then [] else [a[0] != b[0]] + Xor(a[1..], b[1..])
  }

  /** One turn of the inner loop: shift left, and xor the polynomial in when a one falls out. */
  function BitStep(c: Reg): Reg
  {
    if c[0] then Xor(c[1..] + [false], POLY) else c[1..] + [false]
  }

  function Shift(c: Reg, bits: nat): Reg
    decreases bits
  {
    if bits == 0 then c else Shift(BitStep(c), bits - 1)
  }

  function LowBits(v: nat): (bits: seq<bool>)
    ensures |bits| == 4
  {
    [v / 2 / 2 / 2 % 2 == 1, v / 2 / 2 % 2 == 1, v / 2 % 2 == 1, v % 2 == 1]
  }

  function ByteBits(b: byte): (bits: seq<bool>)
    ensures |bits| == 8
  {
    LowBits(b / 2 / 2 / 2 / 2) + LowBits(b)
  }

  function Value(bits: seq<bool>): nat
  {
    if bits == [] then 0 else 2 * Value(bits[..|bits| - 1]) + if bits[|bits| - 1] then 1 else 0
  }

  function XorTop(c: Reg, e: seq<bool>): Reg
    requires |e| <= 16
  {
    Xor(c[..|e|], e) + c[|e|..]
  }

  /** `crc ^= b << 8` and eight turns of the inner loop. */
  function ByteStep(c: Reg, b: byte): Reg
  {
    var e := ByteBits(b);
    Shift(XorTop(c, e), |e|)
  }

  function Fold(c: Reg, data: seq<byte>): Reg
    decreases |data|
  {
    if data == [] then c else ByteStep(Fold(c, data[..|data| - 1]), data[|data| - 1])
  }

  /** The checksum as the code returns it. */
  function Crc16(data: seq<byte>): (crc: word)
  {
    RegValue(Fold(INIT, data));
    Value(Fold(INIT, data))
  }

  function Pow2(k: nat): nat
  {
    if k == 0 then 1 else 2 * Pow2(k - 1)
  }

  lemma {:induction false} ValueBound(bits: seq<bool>)
    ensures Value(bits) < Pow2(|bits|)
    decreases |bits|
  {
    if bits != [] {
      ValueBound(bits[..|bits| - 1]);
    }
  }

  lemma RegValue(c: Reg)
    ensures Value(c) < 0x1_0000
  {
    ValueBound(c);
    assert Pow2(4) == 16;
    assert Pow2(8) == 2 * (2 * (2 * (2 * Pow2(4)))) == 256;
    assert Pow2(12) == 2 * (2 * (2 * (2 * Pow2(8)))) == 4096;
    assert Pow2(|c|) == 2 * (2 * (2 * (2 * Pow2(12))));
  }

  lemma {:induction false} ValueInjective(a: seq<bool>, b: seq<bool>)
    requires |a| == |b| && Value(a) == Value(b)
    ensures a == b
    decreases |a|
  {
    if a != [] {
      var n := |a| - 1;
      ValueInjective(a[..n], b[..n]);
      assert a == a[..n] + [a[n]] && b == b[..n] + [b[n]];
    }
  }

  lemma SameHalves(x: nat, y: nat)
    requires x / 2 == y / 2 && (x % 2 == 1 <==> y % 2 == 1)
    ensures x == y
  {
  }

  lemma LowBitsInjective(x: nat, y: nat)
    requires LowBits(x) == LowBits(y)
    requires x / 2 / 2 / 2 / 2 == y / 2 / 2 / 2 / 2
    ensures x == y
  {
    var a, b := LowBits(x), LowBits(y);
    assert a[0] == b[0] && a[1] == b[1] && a[2] == b[2] && a[3] == b[3];
    SameHalves(x / 2 / 2 / 2, y / 2 / 2 / 2);
    SameHalves(x / 2 / 2, y / 2 / 2);
    SameHalves(x / 2, y / 2);
    SameHalves(x, y);
  }

  lemma ByteBitsInjective(x: byte, y: byte)
    requires ByteBits(x) == ByteBits(y)
    ensures x == y
  {
    var hx, hy := x / 2 / 2 / 2 / 2, y / 2 / 2 / 2 / 2;
    assert LowBits(hx) == ByteBits(x)[..4] == ByteBits(y)[..4] == LowBits(hy);
    assert LowBits(x) == ByteBits(x)[4..] == ByteBits(y)[4..] == LowBits(y);
    assert hx / 2 / 2 / 2 / 2 == 0 == hy / 2 / 2 / 2 / 2;
    LowBitsInjective(hx, hy);
    LowBitsInjective(x, y);
  }

  lemma {:induction false} ShiftStep(c: Reg, bits: nat)
    ensures Shift(c, bits + 1) == BitStep(Shift(c, bits))
    decreases bits
  {
    if bits != 0 {
      ShiftStep(BitStep(c), bits - 1);
    }
  }

  /** The inner loop, for one byte. */
  method FeedByte(before: Reg, b: byte) returns (crc: Reg)
    ensures crc == ByteStep(before, b)
  {
    var e := ByteBits(b);
    crc := XorTop(before, e);
    ghost var start := crc;
    for bit := 0 to |e|
      invariant crc == Shift(start, bit)
    {
      ShiftStep(start, bit);
      crc := BitStep(crc);
    }
  }

  lemma FoldStep(c: Reg, data: seq<byte>, i: nat)
    requires i < |data|
    ensures Fold(c, data[..i + 1]) == ByteStep(Fold(c, data[..i]), data[i])
  {
    assert data[..i + 1][..i] == data[..i];
  }

  /** The outer loop computes the checksum of a slice of a buffer. */
  method PanelCrc16(data: array<byte>, from: nat, len: nat) returns (crc: Reg)
    requires from + len <= data.Length
    ensures crc == Fold(INIT, data[from..from + len])
  {
    crc := INIT;
    ghost var init, input := crc, data[from..from + len];
    for i := 0 to len
      invariant crc == Fold(init, input[..i])
    {
      FoldStep(init, input, i);
      crc := FeedByte(crc, data[from + i]);
    }
    assert input[..len] == input;
  }

  // ---- the checksum as a function of the message's bits ----

  function MessageBits(data: seq<byte>): (bits: seq<bool>)
    ensures |bits| == 8 * |data|
  {
    if data == [] then [] else MessageBits(data[..|data| - 1]) + ByteBits(data[|data| - 1])
  }

  function BitIn(c: Reg, bit: bool): Reg
  {
    BitStep(c[0 := c[0] != bit])
  }

  function BitFold(c: Reg, bits: seq<bool>): Reg
    decreases |bits|
  {
    if bits == [] then c else BitFold(BitIn(c, bits[0]), bits[1..])
  }

  lemma {:induction false} BitFoldAppend(c: Reg, a: seq<bool>, b: seq<bool>)
    ensures BitFold(c, a + b) == BitFold(BitFold(c, a), b)
    decreases |a|
  {
    if a == [] {
      assert a + b == b;
    } else {
      assert (a + b)[1..] == a[1..] + b;
      BitFoldAppend(BitIn(c, a[0]), a[1..], b);
    }
  }

  lemma StepUnderXor(c: Reg, e: seq<bool>)
    requires 0 < |e| <= 16
    ensures BitStep(XorTop(c, e)) == XorTop(BitIn(c, e[0]), e[1..])
  {
    var l, r := BitStep(XorTop(c, e)), XorTop(BitIn(c, e[0]), e[1..]);
    forall i | 0 <= i < 16 ensures l[i] == r[i] {
    }
  }

  /** Xoring bits in at once and shifting is the same as feeding them one at a time. */
  lemma {:induction false} ShiftFeedsBits(c: Reg, e: seq<bool>)
    requires |e| <= 16
    ensures Shift(XorTop(c, e), |e|) == BitFold(c, e)
    decreases |e|
  {
    if e == [] {
      assert XorTop(c, e) == c;
    } else {
      StepUnderXor(c, e);
      ShiftFeedsBits(BitIn(c, e[0]), e[1..]);
    }
  }

  lemma {:induction false} FoldIsBitFold(c: Reg, data: seq<byte>)
    ensures Fold(c, data) == BitFold(c, MessageBits(data))
    decreases |data|
  {
    if data != [] {
      var n := |data| - 1;
      var bits := ByteBits(data[n]);
      FoldIsBitFold(c, data[..n]);
      ShiftFeedsBits(Fold(c, data[..n]), bits);
      BitFoldAppend(c, MessageBits(data[..n]), bits);
    }
  }

  // ---- differences ----

  lemma StepLinear(c: Reg, d: Reg, a: bool, b: bool)
    ensures BitIn(Xor(c, d), a != b) == Xor(BitIn(c, a), BitIn(d, b))
  {
    var l, r := BitIn(Xor(c, d), a != b), Xor(BitIn(c, a), BitIn(d, b));
    forall i | 0 <= i < 16 ensures l[i] == r[i] {
    }
  }

  /** The loop is linear: xor of registers and messages gives xor of results. */
  lemma {:induction false} BitFoldLinear(c: Reg, d: Reg, a: seq<bool>, b: seq<bool>)
    requires |a| == |b|
    ensures BitFold(Xor(c, d), Xor(a, b)) == Xor(BitFold(c, a), BitFold(d, b))
    decreases |a|
  {
    if a != [] {
      StepLinear(c, d, a[0], b[0]);
      BitFoldLinear(BitIn(c, a[0]), BitIn(d, b[0]), a[1..], b[1..]);
      assert Xor(a, b)[1..] == Xor(a[1..], b[1..]);
    }
  }

  /** Over messages of one length the loop is affine: its change depends only on the flipped bits. */
  lemma FoldAffine(c: Reg, a: seq<byte>, b: seq<byte>)
    requires |a| == |b|
    ensures Xor(Fold(c, a), Fold(c, b)) == BitFold(Xor(c, c), Xor(MessageBits(a), MessageBits(b)))
  {
    FoldIsBitFold(c, a);
    FoldIsBitFold(c, b);
    BitFoldLinear(c, c, MessageBits(a), MessageBits(b));
  }

  predicate AllZero(e: seq<bool>)
  {
    forall i :: 0 <= i < |e| ==> !e[i]
  }

  lemma ZeroStep(c: Reg)
    ensures AllZero(BitIn(c, false)) <==> AllZero(c)
  {
    var x := BitIn(c, false);
    assert c[0 := c[0] != false] == c;
    if AllZero(x) {
      assert x[15] == c[0];
      forall i | 0 <= i < 16 ensures !c[i] {
        assert i == 0 || x[i - 1] == c[i];
      }
    }
  }

  /** Clean bits neither raise nor cancel a difference. */
  lemma {:induction false} CleanBits(c: Reg, e: seq<bool>)
    requires AllZero(e)
    ensures AllZero(BitFold(c, e)) <==> AllZero(c)
    decreases |e|
  {
    if e != [] {
      ZeroStep(c);
      CleanBits(BitIn(c, e[0]), e[1..]);
    }
  }

  /** Up to 16 bits can bring a register to zero only by spelling it out. */
  lemma {:induction false} ClearingBits(c: Reg, e: seq<bool>)
    requires |e| <= 16 && AllZero(BitFold(c, e))
    ensures c[..|e|] == e && AllZero(c[|e|..])
    decreases |e|
  {
    if e != [] {
      var d: Reg := c[0 := c[0] != e[0]];
      var next := BitStep(d);
      ClearingBits(next, e[1..]);
      assert next[|e| - 1..][16 - |e|] == next[15];
      assert !d[0];
      forall i | 1 <= i < 16 ensures c[i] == (i < |e| && e[i]) {
        assert next[i - 1] == c[i];
        if i < |e| {
          assert next[..|e| - 1][i - 1] == e[1..][i - 1];
        } else {
          assert !next[|e| - 1..][i - |e|];
        }
      }
    }
  }

  lemma ShortBurst(c: Reg, e: seq<bool>)
    requires AllZero(c) && |e| <= 16 && !AllZero(e)
    ensures !AllZero(BitFold(c, e))
  {
    if AllZero(BitFold(c, e)) {
      ClearingBits(c, e);
      forall i | 0 <= i < |e| ensures !e[i] {
        assert e[i] == c[..|e|][i] == c[i];
      }
    }
  }

  /** A nonzero difference of up to 16 bits between clean stretches leaves a nonzero register. */
  lemma BurstLeavesMark(c: Reg, pre: seq<bool>, e: seq<bool>, post: seq<bool>)
    requires AllZero(c) && AllZero(pre) && AllZero(post)
    requires |e| <= 16 && !AllZero(e)
    ensures !AllZero(BitFold(c, pre + e + post))
  {
    BitFoldAppend(c, pre + e, post);
    BitFoldAppend(c, pre, e);
    CleanBits(c, pre);
    ShortBurst(BitFold(c, pre), e);
    CleanBits(BitFold(c, pre + e), post);
  }

  lemma MarkChangesCrc(a: seq<byte>, b: seq<byte>)
    requires |a| == |b|
    requires !AllZero(BitFold(Xor(INIT, INIT), Xor(MessageBits(a), MessageBits(b))))
    ensures Crc16(a) != Crc16(b)
  {
    FoldAffine(INIT, a, b);
    if Crc16(a) == Crc16(b) {
      ValueInjective(Fold(INIT, a), Fold(INIT, b));
    }
  }

  predicate DifferWithin(a: seq<bool>, b: seq<bool>, from: nat, width: nat)
    requires |a| == |b|
  {
    forall i :: 0 <= i < |a| && !(from <= i < from + width) ==> a[i] == b[i]
  }

  lemma BurstMarks(c: Reg, x: seq<bool>, y: seq<bool>, from: nat, width: nat)
    requires AllZero(c) && |x| == |y| && x != y
    requires width <= 16 && from + width <= |x| && DifferWithin(x, y, from, width)
    ensures !AllZero(BitFold(c, Xor(x, y)))
  {
    var d := Xor(x, y);
    var pre, e, post := d[..from], d[from..from + width], d[from + width..];
    assert d == pre + e + post;
    assert !AllZero(e) by {
      var i :| 0 <= i < |x| && x[i] != y[i];
      assert e[i - from] == d[i];
    }
    BurstLeavesMark(c, pre, e, post);
  }

  /** Any error burst of at most 16 consecutive bits, wherever it falls, changes the checksum. */
  lemma BurstDetected(a: seq<byte>, b: seq<byte>, from: nat, width: nat)
    requires |a| == |b|
    requires MessageBits(a) != MessageBits(b)
    requires width <= 16 && from + width <= 8 * |a|
    requires DifferWithin(MessageBits(a), MessageBits(b), from, width)
    ensures Crc16(a) != Crc16(b)
  {
    BurstMarks(Xor(INIT, INIT), MessageBits(a), MessageBits(b), from, width);
    MarkChangesCrc(a, b);
  }

  lemma {:induction false} MessageBitsAt(data: seq<byte>, k: nat, j: nat)
    requires k < |data| && j < 8
    ensures MessageBits(data)[8 * k + j] == ByteBits(data[k])[j]
    decreases |data|
  {
    if k < |data| - 1 {
      MessageBitsAt(data[..|data| - 1], k, j);
    }
  }

  lemma BitsAgree(a: seq<byte>, b: seq<byte>, m: nat)
    requires |a| == |b| && m < 8 * |a| && a[m / 8] == b[m / 8]
    ensures MessageBits(a)[m] == MessageBits(b)[m]
  {
    MessageBitsAt(a, m / 8, m % 8);
    MessageBitsAt(b, m / 8, m % 8);
  }

  lemma BitsDiffer(a: seq<byte>, b: seq<byte>, i: nat)
    requires |a| == |b| && i < |a| && a[i] != b[i]
    ensures MessageBits(a) != MessageBits(b)
  {
    if ByteBits(a[i]) == ByteBits(b[i]) {
      ByteBitsInjective(a[i], b[i]);
    }
    var j :| 0 <= j < 8 && ByteBits(a[i])[j] != ByteBits(b[i])[j];
    MessageBitsAt(a, i, j);
    MessageBitsAt(b, i, j);
  }

  /** Two messages of one length that differ only within two adjacent bytes have different checksums. */
  lemma AdjacentBytesDetected(a: seq<byte>, b: seq<byte>, k: nat)
    requires |a| == |b| && a != b
    requires forall i :: 0 <= i < |a| && i != k && i != k + 1 ==> a[i] == b[i]
    ensures Crc16(a) != Crc16(b)
  {
    var i :| 0 <= i < |a| && a[i] != b[i];
    BitsDiffer(a, b, i);
    var width := if k + 1 < |a| then 16 else 8;
    forall m | 0 <= m < 8 * |a| && !(8 * k <= m < 8 * k + width)
      ensures MessageBits(a)[m] == MessageBits(b)[m]
    {
      BitsAgree(a, b, m);
    }
    BurstDetected(a, b, 8 * k, width);
  }
}
