/** The request handler in bytes (src/ModbusProtocol.cpp): for each function code, what every request says and what its
    answer carries, in plain arithmetic on the bytes of the PDU. */
module ModbusWire {
  import opened Bytes
  import opened ModbusRegisterStore
  import opened ModbusPdu
  import opened ModbusProtocol

  function Number(high: byte, low: byte): word {
    0x100 * (high as int) + low as int
  }

  /** Every address of the span is in the map. */
  ghost predicate Configured<T>(cells: map<int, T>, address: int, count: int) {
    forall a :: address <= a < address + count ==> a in cells
  }

  /** Bit i of packed data: eight to a byte, the first is the lowest. */
  predicate DataBit(data: seq<byte>, i: nat)
    requires i < 8 * |data|
  {
    if i < 8 then TestBit(data[0], i) else DataBit(data[1..], i - 8)
  }

  /** Which is a digit of a byte in base two. */
  lemma {:induction false} TestBitIsDigit(b: nat, k: nat)
    ensures TestBit(b, k) <==> b / Pow2(k) % 2 == 1
    decreases k
  {
    if k > 0 {
      TestBitIsDigit(b / 2, k - 1);
      DivideTwice(b, 2, Pow2(k - 1));
    }
  }

  lemma {:induction false} DataBitAt(data: seq<byte>, i: nat)
    requires i < 8 * |data|
    ensures DataBit(data, i) == TestBit(data[i / 8], i % 8)
  {
    if i >= 8 {
      DataBitAt(data[1..], i - 8);
      assert (i - 8) / 8 == i / 8 - 1 && (i - 8) % 8 == i % 8;
    }
  }

  lemma PackedBits(bits: seq<bool>)
    ensures forall i :: 0 <= i < |bits| ==> DataBit(PackBits(bits), i) == bits[i]
  {
    forall i | 0 <= i < |bits| ensures DataBit(PackBits(bits), i) == bits[i] {
      UnpackOfPack(bits);
      assert UnpackBits(PackBits(bits), |bits|)[i] == TestBit(PackBits(bits)[i / 8], i % 8);
      DataBitAt(PackBits(bits), i);
    }
  }

  lemma UnpackedBits(data: seq<byte>, count: nat)
    requires count <= 8 * |data|
    ensures forall i :: 0 <= i < count ==> UnpackBits(data, count)[i] == DataBit(data, i)
  {
    forall i | 0 <= i < count ensures UnpackBits(data, count)[i] == DataBit(data, i) {
      DataBitAt(data, i);
    }
  }

  /** The two numbers every request carries. */
  function Address(pdu: seq<byte>): int
    requires |pdu| >= 5
  {
    Number(pdu[1], pdu[2])
  }

  function Quantity(pdu: seq<byte>): int
    requires |pdu| >= 5
  {
    Number(pdu[3], pdu[4])
  }

  /** The exception a request earns. */
  function Refusal(f: byte, code: byte): Reply
    requires f < 0x80
  {
    Response([0x80 + f, code])
  }

  // ----- Functions 1 and 2 -----

  /** A byte count and the cells of the span, packed. */
  ghost predicate BitsAnswered(cells: map<int, bool>, address: int, count: nat, reply: Reply)
    requires Configured(cells, address, count)
  {
    && reply.Response? && reply.pdu != [] && reply.pdu[0] as int == (count + 7) / 8 == |reply.pdu[1..]|
    && forall i :: 0 <= i < count ==> DataBit(reply.pdu[1..], i) == cells[address + i]
  }

  lemma BitReadAnswer(points: Points, f: byte, area: Area, address: word, count: nat)
    requires (area == Coils || area == DiscreteInputs) && 1 <= count <= 2000
    requires Configured(BitArea(points, area), address, count)
    ensures BitsAnswered(BitArea(points, area), address, count, Execute(points, ReadBitSpan(f, area, address, count)).1)
  {
    var bits := Slice(BitArea(points, area), address, count);
    var reply := Execute(points, ReadBitSpan(f, area, address, count)).1;
    assert reply.pdu[1..] == PackBits(bits);
    PackedBits(bits);
  }

  lemma BitReadRequest(pdu: seq<byte>)
    requires |pdu| >= 5 && (pdu[0] == 1 || pdu[0] == 2)
    ensures Decode(pdu) ==
      if Quantity(pdu) == 0 || Quantity(pdu) > 2000 then Refused(pdu[0], 3)
      else ReadBitSpan(pdu[0], if pdu[0] == 1 then Coils else DiscreteInputs, Address(pdu), Quantity(pdu))
  {
  }

  /** Functions 1 and 2 read up to 2000 coils or discrete inputs and change nothing. */
  lemma BitReads(points: Points, pdu: seq<byte>)
    requires |pdu| >= 5 && (pdu[0] == 1 || pdu[0] == 2)
    ensures var cells := if pdu[0] == 1 then points.coils else points.discreteInputs;
      var address, count := Address(pdu), Quantity(pdu);
      var (after, reply) := Meaning(points, pdu);
      && after == points
      && (count == 0 || count > 2000 ==> reply == Refusal(pdu[0], 3))
      && (1 <= count <= 2000 && !Configured(cells, address, count) ==> reply == Refusal(pdu[0], 2))
      && (1 <= count <= 2000 && Configured(cells, address, count) ==> BitsAnswered(cells, address, count, reply))
  {
    var area := if pdu[0] == 1 then Coils else DiscreteInputs;
    BitReadRequest(pdu);
    if 1 <= Quantity(pdu) <= 2000 && Configured(BitArea(points, area), Address(pdu), Quantity(pdu)) {
      BitReadAnswer(points, pdu[0], area, Address(pdu), Quantity(pdu));
    }
  }

  // ----- Functions 3 and 4 -----

  /** A byte count and the cells of the span, high byte first. */
  ghost predicate RegistersAnswered(cells: map<int, word>, address: int, count: nat, reply: Reply)
    requires Configured(cells, address, count)
  {
    && reply.Response? && reply.pdu != [] && reply.pdu[0] as int == 2 * count == |reply.pdu[1..]|
    && forall i :: 0 <= i < count ==> Number(reply.pdu[1..][2 * i], reply.pdu[1..][2 * i + 1]) == cells[address + i]
  }

  lemma RegisterReadAnswer(points: Points, f: byte, area: Area, address: word, count: nat)
    requires (area == HoldingRegisters || area == InputRegisters) && 1 <= count <= 125
    requires Configured(RegisterArea(points, area), address, count)
    ensures RegistersAnswered(RegisterArea(points, area), address, count,
                              Execute(points, ReadRegisterSpan(f, area, address, count)).1)
  {
    var words := Slice(RegisterArea(points, area), address, count);
    var reply := Execute(points, ReadRegisterSpan(f, area, address, count)).1;
    var data := WordsToBytes(words);
    assert reply.pdu[1..] == data;
    forall i | 0 <= i < count ensures Number(data[2 * i], data[2 * i + 1]) == words[i] {
      WordsToBytesAt(words, i);
    }
  }

  lemma RegisterReadRequest(pdu: seq<byte>)
    requires |pdu| >= 5 && (pdu[0] == 3 || pdu[0] == 4)
    ensures Decode(pdu) ==
      if Quantity(pdu) == 0 || Quantity(pdu) > 125 then Refused(pdu[0], 3)
      else ReadRegisterSpan(pdu[0], if pdu[0] == 3 then HoldingRegisters else InputRegisters, Address(pdu), Quantity(pdu))
  {
  }

  /** Functions 3 and 4 read up to 125 holding or input registers and change nothing. */
  lemma RegisterReads(points: Points, pdu: seq<byte>)
    requires |pdu| >= 5 && (pdu[0] == 3 || pdu[0] == 4)
    ensures var cells := if pdu[0] == 3 then points.holdingRegisters else points.inputRegisters;
      var address, count := Address(pdu), Quantity(pdu);
      var (after, reply) := Meaning(points, pdu);
      && after == points
      && (count == 0 || count > 125 ==> reply == Refusal(pdu[0], 3))
      && (1 <= count <= 125 && !Configured(cells, address, count) ==> reply == Refusal(pdu[0], 2))
      && (1 <= count <= 125 && Configured(cells, address, count) ==> RegistersAnswered(cells, address, count, reply))
  {
    var area := if pdu[0] == 3 then HoldingRegisters else InputRegisters;
    RegisterReadRequest(pdu);
    if 1 <= Quantity(pdu) <= 125 && Configured(RegisterArea(points, area), Address(pdu), Quantity(pdu)) {
      RegisterReadAnswer(points, pdu[0], area, Address(pdu), Quantity(pdu));
    }
  }

  // ----- Functions 5 and 6 -----

  /** Function 5 sets one coil, on for FF00 and off for 0000, and echoes the request. */
  lemma CoilWrites(points: Points, pdu: seq<byte>)
    requires |pdu| >= 5 && pdu[0] == 5
    ensures var address := Address(pdu);
      var (after, reply) := Meaning(points, pdu);
      var good := pdu[4] == 0 && (pdu[3] == 0 || pdu[3] == 0xFF);
      && (!good ==> after == points && reply == Refusal(5, 3))
      && (good && address !in points.coils ==> after == points && reply == Refusal(5, 2))
      && (good && address in points.coils ==>
            after == points.(coils := points.coils[address := pdu[3] == 0xFF]) && reply == Response(pdu))
  {
    var address := Address(pdu);
    if address in points.coils {
      assert Covers(points.coils, address, 1);
      assert Overwrite(points.coils, address, [pdu[3] == 0xFF]) == points.coils[address := pdu[3] == 0xFF];
    }
  }

  /** Function 6 sets one holding register and echoes the request. */
  lemma RegisterWrites(points: Points, pdu: seq<byte>)
    requires |pdu| >= 5 && pdu[0] == 6
    ensures var address := Address(pdu);
      var (after, reply) := Meaning(points, pdu);
      && (address !in points.holdingRegisters ==> after == points && reply == Refusal(6, 2))
      && (address in points.holdingRegisters ==>
            && after == points.(holdingRegisters := points.holdingRegisters[address := Number(pdu[3], pdu[4])])
            && reply == Response(pdu))
  {
    var address, value := Address(pdu), Number(pdu[3], pdu[4]);
    if address in points.holdingRegisters {
      assert Covers(points.holdingRegisters, address, 1);
      assert Overwrite(points.holdingRegisters, address, [value]) == points.holdingRegisters[address := value];
    }
  }

  // ----- Functions 15 and 16 -----

  /** Each coil of the span is its data bit, all others are as before. */
  ghost predicate CoilSpanWritten(points: Points, after: Points, address: int, count: int, data: seq<byte>)
    requires 0 <= count <= 8 * |data|
  {
    && after == points.(coils := after.coils) && after.coils.Keys == points.coils.Keys
    && forall a :: a in points.coils ==>
         after.coils[a] == if address <= a < address + count then DataBit(data, a - address) else points.coils[a]
  }

  lemma CoilSpanExecuted(points: Points, address: word, bits: seq<bool>, data: seq<byte>, echo: seq<byte>)
    requires bits != [] && |bits| <= 8 * |data| && forall i :: 0 <= i < |bits| ==> bits[i] == DataBit(data, i)
    ensures var (after, reply) := Execute(points, WriteBitSpan(15, address, bits, echo));
      && (!Configured(points.coils, address, |bits|) ==> after == points && reply == Refusal(15, 2))
      && (Configured(points.coils, address, |bits|) ==>
            reply == Response(echo) && CoilSpanWritten(points, after, address, |bits|, data))
  {
  }

  lemma CoilSpanRequest(pdu: seq<byte>)
    requires |pdu| >= 6 && pdu[0] == 15
    ensures var count, data := Quantity(pdu), pdu[6..];
      Decode(pdu) ==
      if 1 <= count <= 1968 && pdu[5] as int == (count + 7) / 8 == |data|
      then WriteBitSpan(15, Address(pdu), UnpackBits(data, count), pdu[..5]) else Refused(15, 3)
  {
  }

  /** Function 15 sets up to 1968 coils and echoes the header. */
  lemma CoilSpanWrites(points: Points, pdu: seq<byte>)
    requires |pdu| >= 6 && pdu[0] == 15
    ensures var address, count, data := Address(pdu), Quantity(pdu), pdu[6..];
      var good := 1 <= count <= 1968 && pdu[5] as int == (count + 7) / 8 == |data|;
      var (after, reply) := Meaning(points, pdu);
      && (!good ==> after == points && reply == Refusal(15, 3))
      && (good && !Configured(points.coils, address, count) ==> after == points && reply == Refusal(15, 2))
      && (good && Configured(points.coils, address, count) ==>
            reply == Response(pdu[..5]) && CoilSpanWritten(points, after, address, count, data))
  {
    var count, data := Quantity(pdu), pdu[6..];
    CoilSpanRequest(pdu);
    if 1 <= count <= 1968 && pdu[5] as int == (count + 7) / 8 == |data| {
      UnpackedBits(data, count);
      CoilSpanExecuted(points, Address(pdu), UnpackBits(data, count), data, pdu[..5]);
    }
  }

  /** Each register of the span is its pair of data bytes, all others are as before. */
  ghost predicate RegisterSpanWritten(points: Points, after: Points, address: int, count: int, data: seq<byte>)
    requires 0 <= 2 * count <= |data|
  {
    && after == points.(holdingRegisters := after.holdingRegisters)
    && after.holdingRegisters.Keys == points.holdingRegisters.Keys
    && forall a :: a in points.holdingRegisters ==>
         after.holdingRegisters[a] ==
         if address <= a < address + count then Number(data[2 * (a - address)], data[2 * (a - address) + 1])
         else points.holdingRegisters[a]
  }

  lemma RegisterSpanExecuted(points: Points, address: word, words: seq<word>, data: seq<byte>, echo: seq<byte>)
    requires words != [] && |data| == 2 * |words|
    requires forall i :: 0 <= i < |words| ==> words[i] == Number(data[2 * i], data[2 * i + 1])
    ensures var (after, reply) := Execute(points, WriteRegisterSpan(16, address, words, echo));
      && (!Configured(points.holdingRegisters, address, |words|) ==> after == points && reply == Refusal(16, 2))
      && (Configured(points.holdingRegisters, address, |words|) ==>
            reply == Response(echo) && RegisterSpanWritten(points, after, address, |words|, data))
  {
  }

  lemma DataWords(pdu: seq<byte>, count: nat)
    requires |pdu| == 6 + 2 * count
    ensures var data := pdu[6..];
      forall i :: 0 <= i < count ==> BytesToWords(pdu, 6, count)[i] == Number(data[2 * i], data[2 * i + 1])
  {
    var data := pdu[6..];
    forall i | 0 <= i < count ensures BytesToWords(pdu, 6, count)[i] == Number(data[2 * i], data[2 * i + 1]) {
      assert pdu[6 + 2 * i] == data[2 * i] && pdu[6 + 2 * i + 1] == data[2 * i + 1];
    }
  }

  lemma RegisterSpanRequest(pdu: seq<byte>)
    requires |pdu| >= 6 && pdu[0] == 16
    ensures var count, data := Quantity(pdu), pdu[6..];
      Decode(pdu) ==
      if 1 <= count <= 123 && pdu[5] as int == 2 * count == |data|
      then WriteRegisterSpan(16, Address(pdu), BytesToWords(pdu, 6, count), pdu[..5]) else Refused(16, 3)
  {
  }

  /** Function 16 sets up to 123 holding registers and echoes the header. */
  lemma RegisterSpanWrites(points: Points, pdu: seq<byte>)
    requires |pdu| >= 6 && pdu[0] == 16
    ensures var address, count, data := Address(pdu), Quantity(pdu), pdu[6..];
      var good := 1 <= count <= 123 && pdu[5] as int == 2 * count == |data|;
      var (after, reply) := Meaning(points, pdu);
      && (!good ==> after == points && reply == Refusal(16, 3))
      && (good && !Configured(points.holdingRegisters, address, count) ==> after == points && reply == Refusal(16, 2))
      && (good && Configured(points.holdingRegisters, address, count) ==>
            reply == Response(pdu[..5]) && RegisterSpanWritten(points, after, address, count, data))
  {
    var count, data := Quantity(pdu), pdu[6..];
    RegisterSpanRequest(pdu);
    if 1 <= count <= 123 && pdu[5] as int == 2 * count == |data| {
      DataWords(pdu, count);
      RegisterSpanExecuted(points, Address(pdu), BytesToWords(pdu, 6, count), data, pdu[..5]);
    }
  }

  /** A PDU too short for its function is not answered; any other function code is refused with code 1. */
  lemma OtherRequests(points: Points, pdu: seq<byte>)
    ensures var short := |pdu| == 0 || (1 <= pdu[0] <= 6 && |pdu| < 5) || ((pdu[0] == 15 || pdu[0] == 16) && |pdu| < 6);
      && (short <==> Meaning(points, pdu).1 == Silence)
      && (short ==> Meaning(points, pdu).0 == points)
      && (|pdu| > 0 && !(1 <= pdu[0] <= 6) && pdu[0] != 15 && pdu[0] != 16 ==>
            Meaning(points, pdu) == (points, Response([if pdu[0] < 0x80 then pdu[0] + 0x80 else pdu[0], 1])))
  {
  }
}
