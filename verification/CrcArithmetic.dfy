/** The checksum in 16-bit integer arithmetic, with the polynomial 0x1021 and the start value 0xffff. */
module CrcArithmetic {
  import opened Bytes
  import opened Crc

  /** Bitwise exclusive or of two numbers. */
  function XorInt(a: nat, b: nat): nat
    decreases a + b
  {
    if a == 0 && b == 0 then 0
    else 2 * XorInt(a / 2, b / 2) + if a % 2 != b % 2 then 1 else 0
  }

  /** `crc & 0x8000 ? (crc << 1) ^ 0x1021 : crc << 1`, in 16 bits */
  function Turn(crc: nat): nat
  {
    if crc >= 0x8000 then XorInt(2 * crc % 0x1_0000, 0x1021) else 2 * crc
  }

  function Turns(crc: nat, n: nat): nat
    decreases n
  {
    if n == 0 then crc else Turns(Turn(crc), n - 1)
  }

  function CrcInt(data: seq<byte>): nat
  {
    if data == [] then 0xffff
    else Turns(XorInt(CrcInt(data[..|data| - 1]), 0x100 * (data[|data| - 1] as int)), 8)
  }

  lemma XorStep(x: nat, y: nat, a: bool, b: bool)
    ensures XorInt(2 * x + (if a then 1 else 0), 2 * y + (if b then 1 else 0)) == 2 * XorInt(x, y) + if a != b then 1 else 0
  {
  }

  lemma {:induction false} ValueXor(a: seq<bool>, b: seq<bool>)
    requires |a| == |b|
    ensures Value(Xor(a, b)) == XorInt(Value(a), Value(b))
    decreases |a|
  {
    hide Xor, XorInt;
    if a == [] {
      NoBits();
      assert Xor(a, b) == [];
    } else {
      var n := |a| - 1;
      ValueXor(a[..n], b[..n]);
      assert Xor(a, b)[..n] == Xor(a[..n], b[..n]);
      XorStep(Value(a[..n]), Value(b[..n]), a[n], b[n]);
    }
  }

  lemma NoBits()
    ensures XorInt(0, 0) == 0 && Value([]) == 0
  {
  }

  lemma {:induction false} ValueFront(x: bool, t: seq<bool>)
    ensures Value([x] + t) == (if x then Pow2(|t|) else 0) + Value(t)
    decreases |t|
  {
    if t != [] {
      var n := |t| - 1;
      ValueFront(x, t[..n]);
      assert ([x] + t)[..|t|] == [x] + t[..n];
    } else {
      assert ([x] + t)[..0] == [];
    }
  }

  lemma ValueBack(a: seq<bool>, x: bool)
    ensures Value(a + [x]) == 2 * Value(a) + if x then 1 else 0
  {
    assert (a + [x])[..|a|] == a;
  }

  lemma ValueNibble(a: seq<bool>, p: bool, q: bool, r: bool, s: bool)
    ensures Value(a + [p, q, r, s])
            == 16 * Value(a) + (if p then 8 else 0) + (if q then 4 else 0) + (if r then 2 else 0) + if s then 1 else 0
  {
    hide Value;
    ValueBack(a, p);
    ValueBack(a + [p], q);
    ValueBack(a + [p] + [q], r);
    ValueBack(a + [p] + [q] + [r], s);
    assert a + [p] + [q] + [r] + [s] == a + [p, q, r, s];
  }

  lemma ConstantValues()
    ensures Value(POLY) == 0x1021 && Value(INIT) == 0xffff
  {
    hide Value;
    ValueOfNone();
    ValueNibble([], false, false, false, true);
    ValueNibble([] + [false, false, false, true], false, false, false, false);
    ValueNibble([] + [false, false, false, true] + [false, false, false, false], false, false, true, false);
    ValueNibble([] + [false, false, false, true] + [false, false, false, false] + [false, false, true, false],
                false, false, false, true);
    assert POLY == [] + [false, false, false, true] + [false, false, false, false] + [false, false, true, false]
                   + [false, false, false, true];
    ValueNibble([], true, true, true, true);
    ValueNibble([] + [true, true, true, true], true, true, true, true);
    ValueNibble([] + [true, true, true, true] + [true, true, true, true], true, true, true, true);
    ValueNibble([] + [true, true, true, true] + [true, true, true, true] + [true, true, true, true], true, true, true, true);
    assert INIT == [] + [true, true, true, true] + [true, true, true, true] + [true, true, true, true] + [true, true, true, true];
  }

  lemma ValueOfNone()
    ensures Value([]) == 0
  {
  }

  lemma HalfValue(t: seq<bool>)
    requires |t| == 15
    ensures Value(t) < 0x8000 && Pow2(15) == 0x8000
  {
    ValueBound(t);
    assert Pow2(3) == 8;
    assert Pow2(7) == 2 * (2 * (2 * (2 * Pow2(3)))) == 128;
    assert Pow2(11) == 2 * (2 * (2 * (2 * Pow2(7)))) == 2048;
    assert Pow2(15) == 2 * (2 * (2 * (2 * Pow2(11))));
  }

  lemma BitStepValue(c: Reg)
    ensures Value(BitStep(c)) == Turn(Value(c))
  {
    hide Value, Xor, XorInt, Pow2;
    var t := c[1..];
    assert c == [c[0]] + t;
    ValueFront(c[0], t);
    HalfValue(t);
    ValueBack(t, false);
    if c[0] {
      ValueXor(t + [false], POLY);
      ConstantValues();
    }
  }

  lemma {:induction false} ShiftValue(c: Reg, n: nat)
    ensures Value(Shift(c, n)) == Turns(Value(c), n)
    decreases n
  {
    hide Value, BitStep, Turn;
    if n > 0 {
      BitStepValue(c);
      ShiftValue(BitStep(c), n - 1);
    }
  }

  lemma OneBitBack(a: seq<bool>, v: nat)
    requires Value(a) == v / 2
    ensures Value(a + [v % 2 == 1]) == v
  {
    hide Value;
    ValueBack(a, v % 2 == 1);
  }

  /** The low four bits of a number behind the value of its upper ones give the number. */
  lemma LowBitsBack(a: seq<bool>, v: nat)
    requires Value(a) == v / 2 / 2 / 2 / 2
    ensures Value(a + LowBits(v)) == v
  {
    hide Value;
    var p, q, r := v / 2 / 2 / 2, v / 2 / 2, v / 2;
    var one := a + [p % 2 == 1];
    var two := one + [q % 2 == 1];
    var three := two + [r % 2 == 1];
    OneBitBack(a, p);
    OneBitBack(one, q);
    OneBitBack(two, r);
    OneBitBack(three, v);
    assert three + [v % 2 == 1] == a + LowBits(v);
  }

  lemma ByteBitsValue(b: byte)
    ensures Value(ByteBits(b)) == b
  {
    hide Value, LowBits;
    var hi := b / 2 / 2 / 2 / 2;
    assert hi / 2 / 2 / 2 / 2 == 0;
    ValueOfNone();
    LowBitsBack([], hi);
    assert [] + LowBits(hi) == LowBits(hi);
    LowBitsBack(LowBits(hi), b);
  }

  /** A byte's bits followed by eight zeros are the byte times 256. */
  lemma ByteValue(b: byte)
    ensures Value(ByteBits(b) + ZERO[..8]) == 0x100 * (b as int)
  {
    hide Value, ByteBits;
    ByteBitsValue(b);
    ValueNibble(ByteBits(b), false, false, false, false);
    var some := ByteBits(b) + [false, false, false, false];
    ValueNibble(some, false, false, false, false);
    assert some + [false, false, false, false] == ByteBits(b) + ZERO[..8];
  }

  lemma XorTopValue(c: Reg, b: byte)
    ensures Value(XorTop(c, ByteBits(b))) == XorInt(Value(c), 0x100 * (b as int))
  {
    hide Value, XorInt, ByteBits;
    var e := ByteBits(b);
    assert XorTop(c, e) == Xor(c, e + ZERO[..8]);
    ValueXor(c, e + ZERO[..8]);
    ByteValue(b);
  }

  /** The register computes exactly that arithmetic. */
  lemma {:induction false} CrcIsArithmetic(data: seq<byte>)
    ensures Crc16(data) == CrcInt(data)
    decreases |data|
  {
    hide Value, XorInt, Turns, Shift, XorTop, ByteBits;
    if data == [] {
      ConstantValues();
    } else {
      var n := |data| - 1;
      CrcIsArithmetic(data[..n]);
      var c := Fold(INIT, data[..n]);
      XorTopValue(c, data[n]);
      ShiftValue(XorTop(c, ByteBits(data[n])), 8);
    }
  }
}
