/** Serial-line frames: unit id, PDU and checksum (src/ModbusRtu.cpp). */
module ModbusRtuFrame {
  import opened Bytes
  import opened ModbusCrc

  datatype ParseResult = Parsed(unitId: byte, pdu: seq<byte>) | TooShort | CrcMismatch

  /** BuildModbusRtuFrame: the low byte of the checksum goes first. */
  function BuildFrame(unitId: byte, pdu: seq<byte>): (frame: seq<byte>)
    ensures |frame| == |pdu| + 3
    ensures frame[0] == unitId && frame[1..|pdu| + 1] == pdu
  {
    var body := [unitId] + pdu;
    body + [Crc(body) % 0x100, Crc(body) / 0x100]
  }

  /** ParseModbusRtuFrame. */
  function ParseFrame(frame: seq<byte>): ParseResult {
    if |frame| < 4 then TooShort
    else
      var n := |frame| - 2;
      if Crc(frame[..n]) != frame[n] as int + 0x100 * (frame[n + 1] as int) then CrcMismatch
      else Parsed(frame[0], frame[1..n])
  }

  /** Parsing accepts exactly the frames that building makes from a nonempty PDU, and returns their parts. */
  lemma ParseInvertsBuild(frame: seq<byte>, unitId: byte, pdu: seq<byte>)
    ensures ParseFrame(frame) == Parsed(unitId, pdu) <==> pdu != [] && frame == BuildFrame(unitId, pdu)
  {
    if pdu != [] && frame == BuildFrame(unitId, pdu) {
      assert frame[..|frame| - 2] == [unitId] + pdu;
    }
    if ParseFrame(frame) == Parsed(unitId, pdu) {
      var n := |frame| - 2;
      assert frame[..n] == [unitId] + pdu;
      assert frame == frame[..n] + [frame[n], frame[n + 1]];
    }
  }

  // ----- Bits of byte strings -----

  lemma {:induction false} PackLowBits(value: nat, n: nat)
    requires value < Pow2(n)
    ensures Pack(LowBits(value, n)) == value
  {
    if n > 0 {
      PackLowBits(value / 2, n - 1);
      assert LowBits(value, n)[1..] == LowBits(value / 2, n - 1);
    }
  }

  lemma DoubleProduct(p: nat, q: nat)
    ensures 2 * (p * q) == (2 * p) * q
  {
  }

  lemma {:induction false} PackAppend(xs: seq<bool>, ys: seq<bool>)
    ensures Pack(xs + ys) == Pack(xs) + Pow2(|xs|) * Pack(ys)
  {
    if xs == [] {
      assert xs + ys == ys;
    } else {
      assert (xs + ys)[1..] == xs[1..] + ys;
      PackAppend(xs[1..], ys);
      DoubleProduct(Pow2(|xs| - 1), Pack(ys));
    }
  }

  lemma {:induction false} BitsAppend(a: seq<byte>, b: seq<byte>)
    ensures Bits(a + b) == Bits(a) + Bits(b)
  {
    if a == [] {
      assert a + b == b;
    } else {
      assert (a + b)[1..] == a[1..] + b;
      BitsAppend(a[1..], b);
      assert LowBits(a[0], 8) + (Bits(a[1..]) + Bits(b)) == Bits(a) + Bits(b);
    }
  }

  lemma {:induction false} BitsInjective(a: seq<byte>, b: seq<byte>)
    requires |a| == |b| && Bits(a) == Bits(b)
    ensures a == b
  {
    if a != [] {
      Pow2Sixteen();
      assert Bits(a)[..8] == LowBits(a[0], 8) && Bits(b)[..8] == LowBits(b[0], 8);
      PackLowBits(a[0], 8);
      PackLowBits(b[0], 8);
      assert Bits(a)[8..] == Bits(a[1..]) && Bits(b)[8..] == Bits(b[1..]);
      BitsInjective(a[1..], b[1..]);
      assert a == [a[0]] + a[1..] && b == [b[0]] + b[1..];
    }
  }

  lemma {:induction false} BitsOfPair(lo: byte, hi: byte)
    ensures |Bits([lo, hi])| == 16 && Pack(Bits([lo, hi])) == lo as int + 0x100 * (hi as int)
  {
    Pow2Sixteen();
    assert Bits([lo, hi]) == LowBits(lo, 8) + LowBits(hi, 8) by {
      assert [lo, hi][1..] == [hi] && [hi][1..] == [];
      assert Bits([hi]) == LowBits(hi, 8) + [];
    }
    PackAppend(LowBits(lo, 8), LowBits(hi, 8));
    PackLowBits(lo, 8);
    PackLowBits(hi, 8);
  }

  // ----- Error detection -----

  /** The register after the whole frame, checksum included. */
  function Residue(frame: seq<byte>): word {
    CrcBits(SEED, Bits(frame))
  }

  lemma {:induction false} ZeroIffChecksum(seed: word, body: seq<byte>, lo: byte, hi: byte)
    ensures CrcBits(seed, Bits(body + [lo, hi])) == 0 <==> CrcFrom(seed, body) == lo as int + 0x100 * (hi as int)
  {
    BitsAppend(body, [lo, hi]);
    CrcBitsAppend(seed, Bits(body), Bits([lo, hi]));
    CrcIsBitwise(seed, body);
    BitsOfPair(lo, hi);
    ZeroAfterBits(CrcFrom(seed, body), Bits([lo, hi]));
  }

  lemma {:induction false} ResidueOfParts(body: seq<byte>, lo: byte, hi: byte)
    ensures Residue(body + [lo, hi]) == 0 <==> Crc(body) == lo as int + 0x100 * (hi as int)
  {
    ZeroIffChecksum(SEED, body, lo, hi);
  }

  /** A frame is accepted exactly when its whole bit string, checksum included, drives the register to zero. */
  lemma {:induction false} AcceptedIffZero(frame: seq<byte>)
    requires |frame| >= 4
    ensures ParseFrame(frame).Parsed? <==> Residue(frame) == 0
  {
    var n := |frame| - 2;
    ResidueOfParts(frame[..n], frame[n], frame[n + 1]);
    assert frame[..n] + [frame[n], frame[n + 1]] == frame;
  }

  /** Two accepted frames of one length differ by a bit pattern that keeps a zero register at zero. */
  lemma {:induction false} AcceptedDifference(frame: seq<byte>, other: seq<byte>)
    requires |other| == |frame|
    requires ParseFrame(frame).Parsed? && ParseFrame(other).Parsed?
    ensures CrcBits(0, Difference(Bits(frame), Bits(other))) == 0
  {
    AcceptedIffZero(frame);
    AcceptedIffZero(other);
    CrcBitsLinear(SEED, SEED, Bits(frame), Bits(other));
    XorSelf(SEED);
    XorSelf(0);
  }

  /** A difference confined to sixteen bits that keeps a zero register at zero is no difference. */
  lemma {:induction false} ConfinedDifference(xs: seq<bool>, ys: seq<bool>, from: nat, width: nat)
    requires |xs| == |ys| && width <= 16 && from + width <= |xs|
    requires forall i :: 0 <= i < |xs| && !(from <= i < from + width) ==> xs[i] == ys[i]
    requires CrcBits(0, Difference(xs, ys)) == 0
    ensures xs == ys
  {
    var diff := Difference(xs, ys);
    var burst := diff[from..from + width];
    var after := |diff| - from - width;
    assert diff == Zeros(from) + burst + Zeros(after);
    BurstDetected(from, burst, after);
    forall i | 0 <= i < |xs| ensures xs[i] == ys[i] {
      assert from <= i < from + width ==> diff[i] == burst[i - from];
    }
  }

  /** Every burst error of at most sixteen consecutive bits is rejected, at any bit position of a frame of any length. */
  lemma {:induction false} BurstRejected(frame: seq<byte>, altered: seq<byte>, from: nat, width: nat)
    requires ParseFrame(frame).Parsed?
    requires |altered| == |frame| && altered != frame
    requires width <= 16 && from + width <= 8 * |frame|
    requires forall i :: 0 <= i < 8 * |frame| && !(from <= i < from + width) ==> Bits(frame)[i] == Bits(altered)[i]
    ensures ParseFrame(altered) == CrcMismatch
  {
    if ParseFrame(altered).Parsed? {
      AcceptedDifference(frame, altered);
      ConfinedDifference(Bits(frame), Bits(altered), from, width);
      BitsInjective(frame, altered);
      assert false;
    }
  }

  lemma {:induction false} BitsInThree(data: seq<byte>, k: nat)
    requires k + 2 <= |data|
    ensures Bits(data) == Bits(data[..k]) + Bits(data[k..k + 2]) + Bits(data[k + 2..])
  {
    assert data == data[..k] + data[k..k + 2] + data[k + 2..];
    BitsAppend(data[..k] + data[k..k + 2], data[k + 2..]);
    BitsAppend(data[..k], data[k..k + 2]);
  }

  lemma AgreeAround<T>(before: seq<T>, xs: seq<T>, ys: seq<T>, after: seq<T>)
    requires |xs| == |ys|
    ensures forall i :: 0 <= i < |before + xs + after| && !(|before| <= i < |before| + |xs|) ==>
      (before + xs + after)[i] == (before + ys + after)[i]
  {
  }

  lemma {:induction false} BitsAgreeOutside(a: seq<byte>, b: seq<byte>, k: nat)
    requires |a| == |b| && k + 2 <= |a|
    requires a[..k] == b[..k] && a[k + 2..] == b[k + 2..]
    ensures forall i :: 0 <= i < 8 * |a| && !(8 * k <= i < 8 * k + 16) ==> Bits(a)[i] == Bits(b)[i]
  {
    BitsInThree(a, k);
    BitsInThree(b, k);
    AgreeAround(Bits(a[..k]), Bits(a[k..k + 2]), Bits(b[k..k + 2]), Bits(a[k + 2..]));
  }

  /** In particular, any change confined to two adjacent bytes is rejected. */
  lemma AdjacentBytesRejected(frame: seq<byte>, altered: seq<byte>, k: nat)
    requires ParseFrame(frame).Parsed?
    requires |altered| == |frame| && altered != frame && k + 2 <= |frame|
    requires altered[..k] == frame[..k] && altered[k + 2..] == frame[k + 2..]
    ensures ParseFrame(altered) == CrcMismatch
  {
    BitsAgreeOutside(frame, altered, k);
    BurstRejected(frame, altered, 8 * k, 16);
  }

  /** Every change of an odd number of bits, however spread, is rejected. */
  lemma {:induction false} OddFlipsRejected(frame: seq<byte>, altered: seq<byte>)
    requires ParseFrame(frame).Parsed? && |altered| == |frame|
    requires OddOnes(Difference(Bits(frame), Bits(altered)))
    ensures ParseFrame(altered) == CrcMismatch
  {
    if ParseFrame(altered).Parsed? {
      AcceptedDifference(frame, altered);
      CrcBitsParity(0, Difference(Bits(frame), Bits(altered)));
      assert false;
    }
  }

  lemma {:induction false} DifferenceAccepted(frame: seq<byte>, other: seq<byte>)
    requires |other| == |frame| && ParseFrame(frame).Parsed?
    ensures ParseFrame(other).Parsed? <==> CrcBits(0, Difference(Bits(frame), Bits(other))) == 0
  {
    AcceptedIffZero(frame);
    AcceptedIffZero(other);
    CrcBitsLinear(SEED, SEED, Bits(frame), Bits(other));
    XorSelf(SEED);
    XorZero(Residue(other));
  }

  /** Exactly two bits differ, at positions i and i + d. */
  predicate TwoFlips(xs: seq<bool>, ys: seq<bool>, i: nat, d: nat) {
    && |xs| == |ys| && d >= 1 && i + d < |xs|
    && forall k :: 0 <= k < |xs| ==> (xs[k] != ys[k] <==> k == i || k == i + d)
  }

  lemma TwoFlipsDifference(xs: seq<bool>, ys: seq<bool>, i: nat, d: nat)
    requires TwoFlips(xs, ys, i, d)
    ensures Difference(xs, ys) == Zeros(i) + ([true] + Zeros(d - 1) + [true]) + Zeros(|xs| - i - d - 1)
  {
  }

  /** A frame with two flipped bits is accepted if and only if their distance is a period of the checksum register started
      at 1, whatever the frame, its length and the position. */
  lemma {:induction false} TwoFlipsAcceptedIff(frame: seq<byte>, altered: seq<byte>, i: nat, d: nat)
    requires ParseFrame(frame).Parsed? && |altered| == |frame| && TwoFlips(Bits(frame), Bits(altered), i, d)
    ensures ParseFrame(altered).Parsed? <==> Shifts(1, d) == 1
  {
    DifferenceAccepted(frame, altered);
    TwoFlipsDifference(Bits(frame), Bits(altered), i, d);
    PairAnywhere(i, d, 8 * |frame| - i - d - 1);
  }
}
