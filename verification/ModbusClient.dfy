/** Request building and response decoding of the Modbus client (src/ModbusClient.cpp), proved against the server side
    of the same repository. The socket half is not part of this model: a request PDU is what Transact sends after the
    unit id, and a response is the byte-count-and-data block. */
module ModbusClient {
  import opened Bytes
  import opened ModbusPdu
  import opened ModbusRegisterStore
  import opened ModbusProtocol

  const WRITE_MULTIPLE_COILS: byte := 15
  const WRITE_MULTIPLE_REGISTERS: byte := 16

  /** Function code, address and quantity, both truncated to sixteen bits as the casts do. */
  function Header(function_: byte, address: int, count: int): (pdu: seq<byte>)
    ensures |pdu| == 5 && pdu[0] == function_
    ensures Word16(pdu, 1) == Truncate16(address) && Word16(pdu, 3) == Truncate16(count)
  {
    [function_] + BigEndian16(Truncate16(address)) + BigEndian16(Truncate16(count))
  }

  /** The PDU DoWriteCoils sends; None is its refusal of an empty vector. */
  method WriteCoilsPdu(address: int, values: seq<bool>) returns (pdu: Option<seq<byte>>)
    ensures pdu == if values == [] then None else Some(CoilsPdu(address, values))
  {
    if values == [] {
      return None;
    }
    var byteCount := (|values| + 7) / 8;
    var packed := PackLoop(values);
    return Some(Header(WRITE_MULTIPLE_COILS, address, |values|) + [byteCount % 0x100] + packed);
  }

  function CoilsPdu(address: int, values: seq<bool>): seq<byte> {
    Header(WRITE_MULTIPLE_COILS, address, |values|) + [((|values| + 7) / 8) % 0x100] + PackBits(values)
  }

  /** The PDU DoWriteHoldingRegisters sends. */
  method WriteRegistersPdu(address: int, values: seq<word>) returns (pdu: Option<seq<byte>>)
    ensures pdu == if values == [] then None else Some(RegistersPdu(address, values))
  {
    if values == [] {
      return None;
    }
    var data := Header(WRITE_MULTIPLE_REGISTERS, address, |values|) + [(2 * |values|) % 0x100];
    ghost var start := data;
    for i := 0 to |values|
      invariant data == start + WordsToBytes(values[..i])
    {
      assert values[..i + 1] == values[..i] + [values[i]];
      WordsToBytesAppend(values[..i], values[i]);
      data := data + BigEndian16(values[i]);
    }
    assert values[..|values|] == values;
    return Some(data);
  }

  function RegistersPdu(address: int, values: seq<word>): seq<byte> {
    Header(WRITE_MULTIPLE_REGISTERS, address, |values|) + [(2 * |values|) % 0x100] + WordsToBytes(values)
  }

  /** The decoding loop of DoReadBits: it stops early when the response is too short. */
  method DecodeBits(response: seq<byte>, count: int) returns (values: seq<bool>)
    requires response != [] && count > 0
    ensures values == UnpackBits(response[1..], Min(count, 8 * (|response| - 1)))
  {
    values := [];
    var i := 0;
    while i < count
      invariant 0 <= i <= count && i <= 8 * (|response| - 1)
      invariant values == UnpackBits(response[1..], i)
    {
      var byteIndex := 1 + i / 8;
      if byteIndex >= |response| {
        break;
      }
      values := values + [TestBit(response[byteIndex], i % 8)];
      i := i + 1;
    }
  }

  /** The decoding loop of DoReadRegisters: the byte count decides how many, a short response cuts it off. */
  method DecodeRegisterBlock(response: seq<byte>) returns (values: seq<word>)
    requires response != []
    ensures values == BytesToWords(response, 1, Min(response[0] / 2, (|response| - 1) / 2))
  {
    values := [];
    var registerCount: int := response[0] / 2;
    var i := 0;
    while i < registerCount
      invariant 0 <= i <= registerCount && 1 + 2 * i <= |response|
      invariant values == BytesToWords(response, 1, i)
    {
      var offset := 1 + i * 2;
      if offset + 1 >= |response| {
        break;
      }
      values := values + [Word16(response, offset)];
      i := i + 1;
    }
  }

  // ----- The two ends of the protocol undo each other -----

  /** No oversized vector slips past the handler's length checks, even where the casts wrap. */
  lemma OversizedCoils(n: nat)
    requires n > 1968
    ensures var bytes := (n + 7) / 8;
      var quantity := n % 0x1_0000;
      quantity == 0 || quantity > 1968 || bytes % 0x100 != (quantity + 7) / 8 || bytes != bytes % 0x100
  {
  }

  lemma LayoutAt(header: seq<byte>, n: byte, data: seq<byte>)
    requires |header| == 5
    ensures var pdu := header + [n] + data;
      && |pdu| == 6 + |data| && pdu[0] == header[0] && pdu[5] == n && pdu[..5] == header && pdu[6..] == data
      && Word16(pdu, 1) == Word16(header, 1) && Word16(pdu, 3) == Word16(header, 3)
  {
  }

  lemma {:induction false} CoilsDecode(address: int, values: seq<bool>)
    requires values != []
    ensures Decode(CoilsPdu(address, values)) ==
      if |values| > 1968 then Refused(15, ILLEGAL_VALUE)
      else WriteBitSpan(15, Truncate16(address), values, Header(15, address, |values|))
  {
    var n, bytes := |values|, (|values| + 7) / 8;
    LayoutAt(Header(WRITE_MULTIPLE_COILS, address, n), bytes % 0x100, PackBits(values));
    if n <= 1968 {
      assert bytes % 0x100 == bytes && Truncate16(n) == n;
      UnpackOfPack(values);
    } else {
      OversizedCoils(n);
    }
  }

  /** A written vector reaches the store exactly, or not at all: it is stored when it has 1 to 1968 coils and the span is
      configured, and otherwise the request is answered with an exception and changes nothing. */
  lemma {:induction false} CoilsArrive(points: Points, address: int, values: seq<bool>)
    requires values != []
    ensures var start := Truncate16(address);
      Meaning(points, CoilsPdu(address, values)) ==
      if |values| > 1968 then (points, Exception(15, ILLEGAL_VALUE))
      else if Covers(points.coils, start, |values|)
      then (points.(coils := Overwrite(points.coils, start, values)), Response(Header(15, address, |values|)))
      else (points, Exception(15, ILLEGAL_ADDRESS))
  {
    CoilsDecode(address, values);
  }

  lemma OversizedRegisters(n: nat)
    requires n > 123
    ensures var quantity := n % 0x1_0000;
      quantity == 0 || quantity > 123 || (2 * n) % 0x100 != 2 * quantity || 2 * n != (2 * n) % 0x100
  {
  }

  lemma {:induction false} RegistersDecode(address: int, values: seq<word>)
    requires values != []
    ensures Decode(RegistersPdu(address, values)) ==
      if |values| > 123 then Refused(16, ILLEGAL_VALUE)
      else WriteRegisterSpan(16, Truncate16(address), values, Header(16, address, |values|))
  {
    var n := |values|;
    var prefix := Header(WRITE_MULTIPLE_REGISTERS, address, n) + [(2 * n) % 0x100];
    LayoutAt(Header(WRITE_MULTIPLE_REGISTERS, address, n), (2 * n) % 0x100, WordsToBytes(values));
    if n <= 123 {
      assert (2 * n) % 0x100 == 2 * n && Truncate16(n) == n;
      assert RegistersPdu(address, values) == prefix + WordsToBytes(values) + [];
      WordsOfBytes(prefix, values, []);
    } else {
      OversizedRegisters(n);
    }
  }

  lemma {:induction false} RegistersArrive(points: Points, address: int, values: seq<word>)
    requires values != []
    ensures var start := Truncate16(address);
      Meaning(points, RegistersPdu(address, values)) ==
      if |values| > 123 then (points, Exception(16, ILLEGAL_VALUE))
      else if Covers(points.holdingRegisters, start, |values|)
      then (points.(holdingRegisters := Overwrite(points.holdingRegisters, start, values)),
            Response(Header(16, address, |values|)))
      else (points, Exception(16, ILLEGAL_ADDRESS))
  {
    RegistersDecode(address, values);
  }

  lemma BitsRequest(discrete: bool, address: word, count: nat)
    requires 1 <= count <= 2000
    ensures Decode(Header(if discrete then 2 else 1, address, count)) ==
      ReadBitSpan(if discrete then 2 else 1, if discrete then DiscreteInputs else Coils, address, count)
  {
  }

  lemma RegistersRequest(input: bool, address: word, count: nat)
    requires 1 <= count <= 125
    ensures Decode(Header(if input then 4 else 3, address, count)) ==
      ReadRegisterSpan(if input then 4 else 3, if input then InputRegisters else HoldingRegisters, address, count)
  {
  }

  /** Reading 1 to 2000 bits of a configured span returns exactly the stored bits. */
  lemma {:induction false} BitsComeBack(points: Points, discrete: bool, address: word, count: nat)
    requires 1 <= count <= 2000
    requires Covers(if discrete then points.discreteInputs else points.coils, address, count)
    ensures var cells := if discrete then points.discreteInputs else points.coils;
      var (after, reply) := Meaning(points, Header(if discrete then 2 else 1, address, count));
      && after == points && reply.Response? && reply.pdu != []
      && Min(count, 8 * (|reply.pdu| - 1)) == count
      && UnpackBits(reply.pdu[1..], count) == Slice(cells, address, count)
  {
    var cells := if discrete then points.discreteInputs else points.coils;
    var values := Slice(cells, address, count);
    var reply := Meaning(points, Header(if discrete then 2 else 1, address, count)).1;
    BitsRequest(discrete, address, count);
    assert reply.pdu[1..] == PackBits(values);
    UnpackOfPack(values);
  }

  /** Reading 1 to 125 registers of a configured span returns exactly the stored registers. */
  lemma {:induction false} RegistersComeBack(points: Points, input: bool, address: word, count: nat)
    requires 1 <= count <= 125
    requires Covers(if input then points.inputRegisters else points.holdingRegisters, address, count)
    ensures var cells := if input then points.inputRegisters else points.holdingRegisters;
      var (after, reply) := Meaning(points, Header(if input then 4 else 3, address, count));
      && after == points && reply.Response? && reply.pdu != []
      && Min(reply.pdu[0] / 2, (|reply.pdu| - 1) / 2) == count
      && BytesToWords(reply.pdu, 1, count) == Slice(cells, address, count)
  {
    var cells := if input then points.inputRegisters else points.holdingRegisters;
    var values := Slice(cells, address, count);
    var reply := Meaning(points, Header(if input then 4 else 3, address, count)).1;
    RegistersRequest(input, address, count);
    assert reply.pdu == [2 * count] + WordsToBytes(values) + [];
    WordsOfBytes([2 * count], values, []);
  }
}
