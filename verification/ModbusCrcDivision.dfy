/** What the checksum of src/ModbusRtu.cpp is: the remainder of a long division of polynomials over GF(2), as section
    2.5.1.2 of MODBUS over Serial Line V1.02 and its generator x^16 + x^15 + x^2 + 1 define it. The division knows nothing
    of the shift register. */
module ModbusCrcDivision {
  import opened Bytes
  import opened ModbusCrc
  import opened ModbusRtuFrame

  /** The generator's coefficients, highest power first. */
  predicate Generator(i: nat) {
    i == 0 || i == 1 || i == 14 || i == 16
  }

  /** Subtracting the generator from the first seventeen coefficients and dropping the leading one, which is then zero. */
  function Reduced(coefficients: seq<bool>): (r: seq<bool>)
    requires |coefficients| >= 17 && coefficients[0]
    ensures |r| == |coefficients| - 1
  {
    seq(|coefficients| - 1, i requires 0 <= i < |coefficients| - 1 =>
      if i < 16 then coefficients[i + 1] != Generator(i + 1) else coefficients[i + 1])
  }

  /** Long division by the generator: the last sixteen coefficients that remain. */
  function Remainder(coefficients: seq<bool>): (r: seq<bool>)
    requires |coefficients| >= 16
    ensures |r| == 16
    decreases |coefficients|
  {
    if |coefficients| == 16 then coefficients
    else if coefficients[0] then Remainder(Reduced(coefficients))
    else Remainder(coefficients[1..])
  }

  /** The message polynomial: the data bits in transmission order and sixteen zeros, the first sixteen complemented. */
  function Message(data: seq<byte>): (coefficients: seq<bool>)
    ensures |coefficients| == 8 * |data| + 16
  {
    var bits := Bits(data);
    seq(|bits| + 16, i requires 0 <= i < |bits| + 16 =>
      (i < |bits| && bits[i]) != (i < 16))
  }

  // ----- The register holds the coefficients in hand -----

  /** Bits with others added onto the first sixteen. */
  function Added(bits: seq<bool>, onto: seq<bool>): (r: seq<bool>)
    requires |bits| >= 16 == |onto|
    ensures |r| == |bits|
  {
    seq(|bits|, i requires 0 <= i < |bits| => if i < 16 then bits[i] != onto[i] else bits[i])
  }

  /** Exclusive-or bit by bit. */
  lemma {:induction false} LowBitsXor(x: nat, y: nat, n: nat, i: nat)
    requires i < n
    ensures LowBits(Xor(x, y), n)[i] == (LowBits(x, n)[i] != LowBits(y, n)[i])
  {
    XorHalves(x, y);
    if i > 0 {
      LowBitsXor(x / 2, y / 2, n - 1, i - 1);
    }
  }

  /** A number that fits has a zero above its bits. */
  lemma {:induction false} LowBitsFit(value: nat, n: nat)
    requires value < Pow2(n)
    ensures LowBits(value, n + 1) == LowBits(value, n) + [false]
  {
    if n > 0 {
      LowBitsFit(value / 2, n - 1);
    }
  }

  /** Halving drops the first bit and brings in a zero at the end. */
  lemma HalvedBits(value: word)
    ensures LowBits(value / 2, 16) == LowBits(value, 16)[1..] + [false]
  {
    Pow2Sixteen();
    LowBitsFit(value / 2, 15);
    assert LowBits(value, 16) == [Odd(value)] + LowBits(value / 2, 15);
  }

  lemma FiveBits()
    ensures LowBits(5, 3) == [true, false, true]
  {
    assert LowBits(1, 1) == [true];
    assert LowBits(2, 2) == [false, true];
  }

  lemma PolynomialList(p: nat)
    requires p == POLYNOMIAL
    ensures LowBits(p, 16) == [true] + (Zeros(12) + [true, false, true])
  {
    var half := p / 2;
    assert Pow2(12) == 0x1000 && half == 5 * Pow2(12) by {
      Pow2Sixteen();
      assert Pow2(15) == 8 * Pow2(12);
    }
    ClearThen(12, 5, 15);
    FiveBits();
    assert LowBits(p, 16) == [Odd(p)] + LowBits(half, 15);
  }

  /** The polynomial constant of the source is the generator without its leading term, lowest bit for the highest power. */
  lemma PolynomialBits(i: nat)
    requires i < 16
    ensures LowBits(POLYNOMIAL, 16)[i] == Generator(i + 1)
  {
    var p: nat := POLYNOMIAL;
    PolynomialList(p);
  }

  /** Powers of two in a number are clear bits at its low end. */
  lemma {:induction false} ClearThen(k: nat, value: nat, n: nat)
    requires k <= n
    ensures LowBits(value * Pow2(k), n) == Zeros(k) + LowBits(value, n - k)
    decreases k
  {
    if k > 0 {
      var half := value * Pow2(k - 1);
      assert value * Pow2(k) == 2 * half;
      ClearThen(k - 1, value, n - 1);
      assert Zeros(k) == [false] + Zeros(k - 1);
    } else {
      assert Zeros(0) + LowBits(value, n) == LowBits(value, n);
    }
  }

  /** The seed is sixteen ones. */
  lemma SeedBits(i: nat)
    requires i < 16
    ensures LowBits(SEED, 16)[i]
  {
    Pow2Sixteen();
    OnesBits(16, i);
  }

  lemma {:induction false} OnesBits(n: nat, i: nat)
    requires i < n
    ensures LowBits(Pow2(n) - 1, n)[i]
  {
    assert Pow2(n) - 1 == 2 * (Pow2(n - 1) - 1) + 1;
    if i > 0 {
      OnesBits(n - 1, i - 1);
    }
  }

  // ----- Division and register in step -----

  /** The coefficients in hand when the register holds `crc` and these bits are still to come. */
  function InHand(crc: word, bits: seq<bool>): (r: seq<bool>)
    ensures |r| == |bits| + 16
  {
    Added(bits + Zeros(16), LowBits(crc, 16))
  }

  lemma MixedLead(crc: word, bit: bool)
    ensures Odd(XorWord(crc, Bit(bit))) == (LowBits(crc, 16)[0] != bit)
    ensures XorWord(crc, Bit(bit)) / 2 == crc / 2
  {
    XorHalves(crc, Bit(bit));
    XorZero(crc / 2);
  }

  /** The register after a step, bit by bit: one further on, with the generator added where the lead was one. */
  lemma ShiftedBit(crc: word, bit: bool, i: nat)
    requires i < 16
    ensures var lead := LowBits(crc, 16)[0] != bit;
      LowBits(Shift(XorWord(crc, Bit(bit))), 16)[i] ==
      ((i < 15 && LowBits(crc, 16)[i + 1]) != (lead && Generator(i + 1)))
  {
    var mixed := XorWord(crc, Bit(bit));
    MixedLead(crc, bit);
    ShiftIsTap(mixed);
    LowBitsXor(mixed / 2, Tap(mixed), 16, i);
    HalvedBits(crc);
    PolynomialBits(i);
    ZeroBits(16, i);
  }

  lemma InHandAt(crc: word, bits: seq<bool>, i: nat)
    requires i < |bits| + 16
    ensures InHand(crc, bits)[i] == ((i < |bits| && bits[i]) != (i < 16 && LowBits(crc, 16)[i]))
  {
  }

  lemma DivisionAt(crc: word, bits: seq<bool>, i: nat)
    requires bits != [] && i < |bits| + 15
    ensures var c := InHand(crc, bits); var next := InHand(Shift(XorWord(crc, Bit(bits[0]))), bits[1..]);
      next[i] == (if c[0] then Reduced(c) else c[1..])[i]
  {
    InHandAt(crc, bits, 0);
    InHandAt(crc, bits, i + 1);
    InHandAt(Shift(XorWord(crc, Bit(bits[0]))), bits[1..], i);
    if i < 16 {
      ShiftedBit(crc, bits[0], i);
    }
  }

  /** One step of the division is one step of the register. */
  lemma DivisionStep(crc: word, bits: seq<bool>)
    requires bits != []
    ensures var c := InHand(crc, bits); var next := InHand(Shift(XorWord(crc, Bit(bits[0]))), bits[1..]);
      next == if c[0] then Reduced(c) else c[1..]
  {
    forall i | 0 <= i < |bits| + 15
      ensures var c := InHand(crc, bits); var next := InHand(Shift(XorWord(crc, Bit(bits[0]))), bits[1..]);
        next[i] == (if c[0] then Reduced(c) else c[1..])[i]
    {
      DivisionAt(crc, bits, i);
    }
  }

  lemma {:induction false} ZeroBits(n: nat, i: nat)
    requires i < n
    ensures !LowBits(0, n)[i]
  {
    if i > 0 {
      ZeroBits(n - 1, i - 1);
    }
  }

  /** The register after a bit string is the remainder of the coefficients in hand before it. */
  lemma {:induction false} RegisterIsRemainder(crc: word, bits: seq<bool>)
    ensures LowBits(CrcBits(crc, bits), 16) == Remainder(InHand(crc, bits))
    decreases bits
  {
    if bits == [] {
      assert InHand(crc, bits) == LowBits(crc, 16);
    } else {
      DivisionStep(crc, bits);
      RegisterIsRemainder(Shift(XorWord(crc, Bit(bits[0]))), bits[1..]);
    }
  }

  /** For every byte string, the checksum is the remainder of its message polynomial, with the coefficient of the highest
      power in the lowest bit. */
  lemma CrcIsRemainder(data: seq<byte>)
    ensures Crc(data) == Pack(Remainder(Message(data)))
  {
    var bits := Bits(data);
    CrcIsBitwise(SEED, data);
    RegisterIsRemainder(SEED, bits);
    forall i | 0 <= i < |bits| + 16 ensures InHand(SEED, bits)[i] == Message(data)[i] {
      if i < 16 {
        SeedBits(i);
      }
    }
    assert InHand(SEED, bits) == Message(data);
    Pow2Sixteen();
    PackLowBits(Crc(data), 16);
  }
}
