/** The CRC-16 of serial-line Modbus frames (src/ModbusRtu.cpp), bytewise as the gateway computes it and bitwise as the
    error-detection argument needs it. */
module ModbusCrc {
  import opened Bytes

  const POLYNOMIAL: word := 0xA001
  const SEED: word := 0xFFFF

  lemma Pow2Sixteen()
    ensures Pow2(8) == 0x100 && Pow2(15) == 0x8000 && Pow2(16) == 0x1_0000
  {
    assert Pow2(8) == 0x100;
    assert Pow2(12) == 0x1000;
    assert Pow2(16) == 2 * Pow2(15);
  }

  /** One turn of the inner loop. */
  function Shift(crc: word): word {
    if Odd(crc) then ShiftOdd(crc) else crc / 2
  }

  function ShiftOdd(crc: word): (r: word)
    ensures r >= 0x8000
  {
    Pow2Sixteen();
    XorTop(crc / 2, POLYNOMIAL, 15);
    Xor(crc / 2, POLYNOMIAL)
  }

  function XorWord(x: word, y: word): (r: word)
    ensures r == Xor(x, y)
  {
    Pow2Sixteen();
    XorBelow(x, y, 16);
    Xor(x, y)
  }

  function Shifts(crc: word, n: nat): word
    decreases n
  {
    if n == 0 then crc else Shifts(Shift(crc), n - 1)
  }

  /** The checksum register after a byte string. */
  function CrcFrom(crc: word, data: seq<byte>): word
    decreases data
  {
    if data == [] then crc else CrcFrom(Shifts(XorWord(crc, data[0]), 8), data[1..])
  }

  function Crc(data: seq<byte>): word {
    CrcFrom(SEED, data)
  }

  /** The nested loops of ModbusRtuCrc16. */
  method ModbusRtuCrc16(data: seq<byte>) returns (crc: word)
    ensures crc == Crc(data)
  {
    crc := SEED;
    for i := 0 to |data|
      invariant CrcFrom(crc, data[i..]) == Crc(data)
    {
      ghost var start := XorWord(crc, data[i]);
      crc := XorWord(crc, data[i]);
      for bit := 0 to 8
        invariant Shifts(crc, 8 - bit) == Shifts(start, 8)
      {
        crc := if Odd(crc) then ShiftOdd(crc) else crc / 2;
      }
      assert data[i..][1..] == data[i + 1..];
    }
  }

  // ----- The same register fed one bit at a time -----

  function CrcBits(crc: word, bits: seq<bool>): word
    decreases bits
  {
    if bits == [] then crc else CrcBits(Shift(XorWord(crc, Bit(bits[0]))), bits[1..])
  }

  /** The n low bits of a number, least significant first: the order in which a serial line sends them. */
  function LowBits(value: nat, n: nat): (bits: seq<bool>)
    ensures |bits| == n
  {
    if n == 0 then [] else [Odd(value)] + LowBits(value / 2, n - 1)
  }

  function Bits(data: seq<byte>): (bits: seq<bool>)
    ensures |bits| == 8 * |data|
  {
    if data == [] then [] else LowBits(data[0], 8) + Bits(data[1..])
  }

  /** The number whose bits, least significant first, are these. */
  function Pack(bits: seq<bool>): nat {
    if bits == [] then 0 else Bit(bits[0]) + 2 * Pack(bits[1..])
  }

  /** Positions at which two bit strings differ. */
  function Difference(xs: seq<bool>, ys: seq<bool>): (ds: seq<bool>)
    requires |xs| == |ys|
    ensures |ds| == |xs|
    ensures forall i :: 0 <= i < |ds| ==> ds[i] == (xs[i] != ys[i])
  {
    seq(|xs|, i requires 0 <= i < |xs| == |ys| => xs[i] != ys[i])
  }

  function Zeros(n: nat): (bits: seq<bool>)
    ensures |bits| == n && forall i :: 0 <= i < n ==> !bits[i]
  {
    seq(n, _ => false)
  }

  /** Whether an odd number of the bits are set. */
  predicate OddOnes(bits: seq<bool>) {
    bits != [] && bits[0] != OddOnes(bits[1..])
  }

  // ----- Algebra of the step -----

  lemma XorSwap(a: nat, b: nat, c: nat, d: nat)
    ensures Xor(Xor(a, b), Xor(c, d)) == Xor(Xor(a, c), Xor(b, d))
  {
    XorAssociates(a, b, Xor(c, d));
    XorAssociates(b, c, d);
    XorCommutes(b, c);
    XorAssociates(c, b, d);
    XorAssociates(a, c, Xor(b, d));
  }

  function Tap(crc: word): word {
    if Odd(crc) then POLYNOMIAL else 0
  }

  lemma ShiftIsTap(crc: word)
    ensures Shift(crc) == Xor(crc / 2, Tap(crc))
  {
    XorZero(crc / 2);
  }

  /** The step is linear over exclusive-or. */
  lemma ShiftLinear(x: word, y: word)
    ensures Shift(XorWord(x, y)) == Xor(Shift(x), Shift(y))
  {
    var p, q := Tap(x), Tap(y);
    XorHalves(x, y);
    ShiftIsTap(x);
    ShiftIsTap(y);
    ShiftIsTap(XorWord(x, y));
    XorSwap(x / 2, p, y / 2, q);
    XorZero(POLYNOMIAL);
    XorSelf(POLYNOMIAL);
  }

  /** The step is invertible on small results: only 2y shifts to y. */
  lemma ShiftUndo(x: word, y: nat)
    requires y < 0x8000
    ensures Shift(x) == y <==> x == 2 * y
  {
  }

  lemma {:induction false} PackBelow(bits: seq<bool>)
    ensures Pack(bits) < Pow2(|bits|)
  {
    if bits != [] {
      PackBelow(bits[1..]);
    }
  }

  lemma {:induction false} Pow2Monotone(m: nat, n: nat)
    requires m <= n
    ensures Pow2(m) <= Pow2(n)
  {
    if m < n {
      Pow2Monotone(m, n - 1);
    }
  }

  /** Feeding a bit to a zero low end of an even register just sets it. */
  lemma XorLowBit(y: nat, b: bool)
    ensures Xor(2 * y, Bit(b)) == 2 * y + Bit(b)
  {
    XorZero(y);
  }

  lemma XorBitUndo(x: word, b: bool, y: nat)
    requires 2 * y < 0x1_0000
    ensures Xor(x, Bit(b)) == 2 * y <==> x == 2 * y + Bit(b)
  {
    XorLowBit(y, b);
    XorAssociates(x, Bit(b), Bit(b));
    XorAssociates(2 * y, Bit(b), Bit(b));
    XorSelf(Bit(b));
    XorZero(x);
    XorZero(2 * y);
  }

  /** The heart of error detection: at most sixteen bits drive the register to zero exactly when the register held those
      very bits. */
  lemma {:induction false} ZeroAfterBits(crc: word, bits: seq<bool>)
    requires |bits| <= 16
    ensures CrcBits(crc, bits) == 0 <==> crc == Pack(bits)
    decreases bits
  {
    if bits != [] {
      var rest := Pack(bits[1..]);
      Pow2Sixteen();
      PackBelow(bits[1..]);
      Pow2Monotone(|bits| - 1, 15);
      ZeroAfterBits(Shift(XorWord(crc, Bit(bits[0]))), bits[1..]);
      ShiftUndo(XorWord(crc, Bit(bits[0])), rest);
      XorBitUndo(crc, bits[0], rest);
    }
  }

  lemma {:induction false} CrcBitsAppend(crc: word, xs: seq<bool>, ys: seq<bool>)
    ensures CrcBits(crc, xs + ys) == CrcBits(CrcBits(crc, xs), ys)
    decreases xs
  {
    if xs == [] {
      assert xs + ys == ys;
    } else {
      assert (xs + ys)[1..] == xs[1..] + ys;
      CrcBitsAppend(Shift(XorWord(crc, Bit(xs[0]))), xs[1..], ys);
    }
  }

  /** Eight shifts after mixing in a byte are eight single-bit steps. */
  lemma {:induction false} ShiftsAreBits(crc: word, value: word, n: nat)
    requires value < Pow2(n)
    ensures Shifts(XorWord(crc, value), n) == CrcBits(crc, LowBits(value, n))
    decreases n
  {
    if n == 0 {
      XorZero(crc);
    } else {
      var b := Odd(value);
      var half := value / 2;
      calc {
        Xor(crc, value);
        { XorLowBit(half, b); XorCommutes(2 * half, Bit(b)); }
        Xor(crc, Xor(Bit(b), 2 * half));
        { XorAssociates(crc, Bit(b), 2 * half); }
        Xor(XorWord(crc, Bit(b)), 2 * half);
      }
      ShiftLinear(XorWord(crc, Bit(b)), 2 * half);
      ShiftsAreBits(Shift(XorWord(crc, Bit(b))), half, n - 1);
      assert LowBits(value, n)[1..] == LowBits(half, n - 1);
    }
  }

  lemma {:induction false} CrcIsBitwise(crc: word, data: seq<byte>)
    ensures CrcFrom(crc, data) == CrcBits(crc, Bits(data))
    decreases data
  {
    if data != [] {
      Pow2Sixteen();
      ShiftsAreBits(crc, data[0], 8);
      CrcBitsAppend(crc, LowBits(data[0], 8), Bits(data[1..]));
      CrcIsBitwise(Shifts(XorWord(crc, data[0]), 8), data[1..]);
    }
  }

  /** Linearity over whole strings. */
  lemma {:induction false} CrcBitsLinear(x: word, y: word, xs: seq<bool>, ys: seq<bool>)
    requires |xs| == |ys|
    ensures Xor(CrcBits(x, xs), CrcBits(y, ys)) == CrcBits(XorWord(x, y), Difference(xs, ys))
    decreases xs
  {
    if xs != [] {
      var x', y' := XorWord(x, Bit(xs[0])), XorWord(y, Bit(ys[0]));
      XorSwap(x, Bit(xs[0]), y, Bit(ys[0]));
      assert Xor(Bit(xs[0]), Bit(ys[0])) == Bit(xs[0] != ys[0]) by {
        XorZero(0);
      }
      ShiftLinear(x', y');
      CrcBitsLinear(Shift(x'), Shift(y'), xs[1..], ys[1..]);
      assert Difference(xs, ys)[1..] == Difference(xs[1..], ys[1..]);
    }
  }

  lemma {:induction false} ZerosKeepZero(crc: word, n: nat)
    ensures CrcBits(crc, Zeros(n)) == 0 <==> crc == 0
    decreases n
  {
    if n > 0 {
      assert Zeros(n)[1..] == Zeros(n - 1);
      XorZero(crc);
      ShiftUndo(crc, 0);
      ZerosKeepZero(Shift(crc), n - 1);
    }
  }

  lemma {:induction false} PackZero(bits: seq<bool>)
    requires Pack(bits) == 0
    ensures bits == Zeros(|bits|)
  {
    if bits != [] {
      PackZero(bits[1..]);
      assert bits == [bits[0]] + bits[1..];
    }
  }

  /** A nonzero burst of at most sixteen bits never leaves the register at zero. */
  lemma BurstDetected(before: nat, burst: seq<bool>, after: nat)
    requires |burst| <= 16
    requires CrcBits(0, Zeros(before) + burst + Zeros(after)) == 0
    ensures burst == Zeros(|burst|)
  {
    CrcBitsAppend(0, Zeros(before) + burst, Zeros(after));
    CrcBitsAppend(0, Zeros(before), burst);
    ZerosKeepZero(0, before);
    ZerosKeepZero(CrcBits(0, burst), after);
    ZeroAfterBits(0, burst);
    PackZero(burst);
  }

  lemma {:induction false} ZerosShift(crc: word, n: nat)
    ensures CrcBits(crc, Zeros(n)) == Shifts(crc, n)
    decreases n
  {
    if n > 0 {
      assert Zeros(n)[1..] == Zeros(n - 1);
      XorZero(crc);
      ZerosShift(Shift(crc), n - 1);
    }
  }

  lemma OneBit(crc: word)
    ensures CrcBits(crc, [true]) == Shift(XorWord(crc, 1))
  {
    var one := [true];
    assert one[1..] == [] && Bit(one[0]) == 1;
  }

  /** A set bit, d - 1 clear ones and another set bit bring a zero register back to zero if and only if d steps of the register
      lead from 1 back to 1. */
  lemma PairDetectedIff(d: nat)
    requires d >= 1
    ensures CrcBits(0, [true] + Zeros(d - 1) + [true]) == 0 <==> Shifts(1, d) == 1
  {
    CrcBitsAppend(0, [true] + Zeros(d - 1), [true]);
    CrcBitsAppend(0, [true], Zeros(d - 1));
    OneBit(0);
    XorZero(1);
    ZerosShift(Shift(1), d - 1);
    var last := Shifts(1, d);
    OneBit(last);
    ShiftUndo(XorWord(last, 1), 0);
    if Xor(last, 1) == 0 {
      XorCancels(last, 1);
    }
    XorSelf(1);
  }

  /** The same with clear bits around the pair. */
  lemma PairAnywhere(before: nat, d: nat, after: nat)
    requires d >= 1
    ensures CrcBits(0, Zeros(before) + ([true] + Zeros(d - 1) + [true]) + Zeros(after)) == 0 <==> Shifts(1, d) == 1
  {
    var pair := [true] + Zeros(d - 1) + [true];
    CrcBitsAppend(0, Zeros(before) + pair, Zeros(after));
    CrcBitsAppend(0, Zeros(before), pair);
    ZerosKeepZero(0, before);
    ZerosKeepZero(CrcBits(0, pair), after);
    PairDetectedIff(d);
  }

  lemma ShiftParity(crc: word)
    ensures OddParity(Shift(crc)) == OddParity(crc)
  {
    if Odd(crc) {
      assert OddParity(0xA001) by {
        assert !OddParity(0xA0) && !OddParity(0xA00);
      }
      XorParity(crc / 2, POLYNOMIAL);
    }
  }

  /** The polynomial has the factor x + 1: the register's parity follows the parity of the bits fed in. */
  lemma {:induction false} CrcBitsParity(crc: word, bits: seq<bool>)
    ensures OddParity(CrcBits(crc, bits)) == (OddParity(crc) != OddOnes(bits))
    decreases bits
  {
    if bits != [] {
      var mixed := XorWord(crc, Bit(bits[0]));
      assert OddParity(Bit(bits[0])) == bits[0];
      XorParity(crc, Bit(bits[0]));
      ShiftParity(mixed);
      CrcBitsParity(Shift(mixed), bits[1..]);
    }
  }
}
