/** The serial master (ModbusRtuMaster in src/ModbusRtu.cpp) and its exchanges with the slave of the same repository.
    The serial port is a sequence of reads; running out of reads is the response timeout. */
module ModbusRtuMaster {
  import opened Bytes
  import opened ModbusPdu
  import opened ModbusRegisterStore
  import opened ModbusProtocol
  import opened ModbusRtuFrame
  import opened ModbusRtuSlave
  import ModbusClient

  /** ModbusRtuMaster::ExpectedFrameSize for a response. */
  function ResponseSize(bytes: seq<byte>): nat {
    if |bytes| < 2 then 0
    else if bytes[1] >= 0x80 then 5
    else if 1 <= bytes[1] <= 4 then (if |bytes| < 3 then 0 else 5 + bytes[2] as int)
    else if bytes[1] == 5 || bytes[1] == 6 || bytes[1] == 15 || bytes[1] == 16 then 8
    else 0
  }

  datatype Outcome = Answer(pdu: seq<byte>) | BadFrame | Unexpected | Timeout

  predicate Ready(bytes: seq<byte>) {
    0 < ResponseSize(bytes) <= |bytes|
  }

  /** What Transact makes of the bytes once enough have come. */
  function Judge(bytes: seq<byte>, unitId: byte, requestFunction: byte): Outcome {
    if !Ready(bytes) then Timeout
    else
      match ParseFrame(bytes[..ResponseSize(bytes)])
      case Parsed(unit, pdu) =>
        if unit != unitId || pdu == [] || (pdu[0] != requestFunction && pdu[0] != ExceptionCode(requestFunction))
        then Unexpected else Answer(pdu)
      case _ => BadFrame
  }

  lemma {:induction false} FlatAppend(xs: seq<seq<byte>>, ys: seq<seq<byte>>)
    ensures Flat(xs + ys) == Flat(xs) + Flat(ys)
  {
    if xs == [] {
      assert xs + ys == ys;
    } else {
      assert (xs + ys)[1..] == xs[1..] + ys;
      FlatAppend(xs[1..], ys);
    }
  }

  /** Once the size is known, later bytes do not change the verdict. */
  lemma VerdictIsStable(bytes: seq<byte>, more: seq<byte>, unitId: byte, requestFunction: byte)
    requires Ready(bytes)
    ensures Judge(bytes + more, unitId, requestFunction) == Judge(bytes, unitId, requestFunction)
  {
    var n := ResponseSize(bytes);
    assert (bytes + more)[1] == bytes[1] && ResponseSize(bytes + more) == n;
    CutInFirst(bytes, more, n);
  }

  /** The receive loop of Transact: its outcome depends on the bytes, not on how they were split. */
  method Receive(chunks: seq<seq<byte>>, unitId: byte, requestFunction: byte) returns (outcome: Outcome)
    ensures outcome == Judge(Flat(chunks), unitId, requestFunction)
  {
    var frame: seq<byte> := [];
    for i := 0 to |chunks|
      invariant frame == Flat(chunks[..i])
      invariant !Ready(frame)
    {
      assert chunks[..i + 1] == chunks[..i] + [chunks[i]];
      FlatAppend(chunks[..i], [chunks[i]]);
      assert Flat([chunks[i]]) == chunks[i] + Flat([chunks[i]][1..]) == chunks[i];
      frame := frame + chunks[i];
      var expected := ResponseSize(frame);
      if expected > 0 && |frame| >= expected {
        assert chunks == chunks[..i + 1] + chunks[i + 1..];
        FlatAppend(chunks[..i + 1], chunks[i + 1..]);
        VerdictIsStable(frame, Flat(chunks[i + 1..]), unitId, requestFunction);
        var parsed := ParseFrame(frame[..expected]);
        if !parsed.Parsed? {
          return BadFrame;
        }
        if parsed.unitId != unitId || parsed.pdu == [] ||
           (parsed.pdu[0] != requestFunction && parsed.pdu[0] != ExceptionCode(requestFunction)) {
          return Unexpected;
        }
        return Answer(parsed.pdu);
      }
    }
    assert chunks[..|chunks|] == chunks;
    return Timeout;
  }

  // ----- Writes -----

  datatype Write =
    | Coil(address: int, on: bool)
    | Register(address: int, value: word)
    | Registers(address: int, values: seq<word>)

  /** The request PDU of WriteCoil, WriteHoldingRegister and WriteHoldingRegisters; None is their refusal. */
  function WritePdu(w: Write): Option<seq<byte>> {
    match w
    case Coil(address, on) =>
      if address < 0 || address > 65535 then None
      else Some([5] + BigEndian16(Truncate16(address)) + BigEndian16(if on then 0xFF00 else 0))
    case Register(address, value) =>
      if address < 0 || address > 65535 then None
      else Some([6] + BigEndian16(Truncate16(address)) + BigEndian16(value))
    case Registers(address, values) =>
      if address < 0 || address > 65535 || values == [] || |values| > 123 || address > 65536 - |values| then None
      else Some(ModbusClient.RegistersPdu(address, values))
  }

  predicate Addressable(address: int, count: int) {
    0 <= address && address + count <= 65536
  }

  /** The write requests byte by byte, and exactly when there is none. */
  lemma WriteLayout(w: Write)
    ensures WritePdu(w).None? <==>
      !Addressable(w.address, 1) ||
      (w.Registers? && (!(1 <= |w.values| <= 123) || !Addressable(w.address, |w.values|)))
    ensures WritePdu(w).Some? ==>
      var pdu := WritePdu(w).value;
      && |pdu| >= 5 && 0x100 * (pdu[1] as int) + pdu[2] as int == w.address
      && (w.Coil? ==> pdu[0] == 5 && |pdu| == 5 && pdu[3..] == (if w.on then [0xFF, 0] else [0, 0]))
      && (w.Register? ==> pdu[0] == 6 && |pdu| == 5 && 0x100 * (pdu[3] as int) + pdu[4] as int == w.value)
      && (w.Registers? ==>
            && pdu[0] == 16 && |pdu| == 6 + 2 * |w.values| && pdu[5] as int == 2 * |w.values|
            && 0x100 * (pdu[3] as int) + pdu[4] as int == |w.values|
            && forall i :: 0 <= i < |w.values| ==>
                 0x100 * (pdu[6..][2 * i] as int) + pdu[6..][2 * i + 1] as int == w.values[i])
  {
    if w.Registers? && WritePdu(w).Some? {
      var n := |w.values|;
      ModbusClient.LayoutAt(ModbusClient.Header(16, w.address, n), (2 * n) % 0x100, WordsToBytes(w.values));
      forall i | 0 <= i < n
        ensures 0x100 * (WordsToBytes(w.values)[2 * i] as int) + WordsToBytes(w.values)[2 * i + 1] as int == w.values[i]
      {
        WordsToBytesAt(w.values, i);
      }
    }
  }

  /** The points with exactly the written values in place; None when part of the span is not configured. */
  ghost function Written(points: Points, w: Write): Option<Points> {
    match w
    case Coil(address, on) =>
      if Covers(points.coils, address, 1)
      then Some(points.(coils := points.coils[address := on])) else None
    case Register(address, value) =>
      if Covers(points.holdingRegisters, address, 1)
      then Some(points.(holdingRegisters := points.holdingRegisters[address := value])) else None
    case Registers(address, values) =>
      if Covers(points.holdingRegisters, address, |values|)
      then Some(points.(holdingRegisters := Overwrite(points.holdingRegisters, address, values))) else None
  }

  lemma SingleHeader(f: byte, address: word, value: word)
    ensures var pdu := [f] + BigEndian16(address) + BigEndian16(value);
      |pdu| == 5 && Word16(pdu, 1) == address && Word16(pdu, 3) == value
  {
  }

  lemma OverwriteOne<T>(cells: map<int, T>, address: int, value: T)
    requires Covers(cells, address, 1)
    ensures Overwrite(cells, address, [value]) == cells[address := value]
  {
  }

  ghost predicate Handled(points: Points, unitId: byte, w: Write)
    requires WritePdu(w).Some?
  {
    var pdu := WritePdu(w).value;
    && WellFormedRequest(Addressed(unitId, pdu))
    && Meaning(points, pdu) == match Written(points, w) {
         case Some(stored) => (stored, Response(pdu[..5]))
         case None => (points, Exception(pdu[0], ILLEGAL_ADDRESS))
       }
  }

  lemma {:induction false} CoilHandled(points: Points, unitId: byte, w: Write)
    requires w.Coil? && WritePdu(w).Some?
    ensures Handled(points, unitId, w)
  {
    var pdu := WritePdu(w).value;
    SingleHeader(5, w.address, if w.on then 0xFF00 else 0);
    assert Decode(pdu) == WriteBitSpan(5, w.address, [w.on], pdu);
    assert pdu[..5] == pdu;
    if Covers(points.coils, w.address, 1) {
      OverwriteOne(points.coils, w.address, w.on);
    }
  }

  lemma {:induction false} RegisterHandled(points: Points, unitId: byte, w: Write)
    requires w.Register? && WritePdu(w).Some?
    ensures Handled(points, unitId, w)
  {
    var pdu := WritePdu(w).value;
    SingleHeader(6, w.address, w.value);
    assert Decode(pdu) == WriteRegisterSpan(6, w.address, [w.value], pdu);
    assert pdu[..5] == pdu;
    if Covers(points.holdingRegisters, w.address, 1) {
      OverwriteOne(points.holdingRegisters, w.address, w.value);
    }
  }

  lemma {:induction false} RegistersHandled(points: Points, unitId: byte, w: Write)
    requires w.Registers? && WritePdu(w).Some?
    ensures Handled(points, unitId, w)
  {
    var n := |w.values|;
    assert Truncate16(w.address) == w.address && (2 * n) % 0x100 == 2 * n;
    ModbusClient.RegistersDecode(w.address, w.values);
    ModbusClient.LayoutAt(ModbusClient.Header(16, w.address, n), 2 * n, WordsToBytes(w.values));
  }

  /** The write request is well formed, and handling it either stores exactly the values and echoes the header or changes
      nothing and answers with the exception for the same function. */
  lemma WriteHandled(points: Points, unitId: byte, w: Write)
    requires WritePdu(w).Some?
    ensures Handled(points, unitId, w)
  {
    match w {
      case Coil(_, _) => CoilHandled(points, unitId, w);
      case Register(_, _) => RegisterHandled(points, unitId, w);
      case Registers(_, _) => RegistersHandled(points, unitId, w);
    }
  }

  /** The slave's answers to a write have the size the master waits for and pass its checks. */
  lemma {:induction false} ReplyAccepted(unitId: byte, f: byte, reply: seq<byte>)
    requires f == 5 || f == 6 || f == 16
    requires (|reply| == 5 && reply[0] == f) || (|reply| == 2 && reply[0] == ExceptionCode(f))
    ensures Judge(BuildFrame(unitId, reply), unitId, f) == Answer(reply)
  {
    var frame := BuildFrame(unitId, reply);
    assert frame[1] == reply[0] by {
      assert frame[1..|reply| + 1][0] == reply[0];
    }
    assert frame[..ResponseSize(frame)] == frame;
    ParseInvertsBuild(frame, unitId, reply);
  }

  /** A write from end to end: however request and reply are split on the line, the slave handles exactly that request
      once, the store then holds exactly the written values or, when the span is not configured, what it held before,
      and the master accepts the reply. It accepts an exception as well as an echo: only the first byte of the answer
      tells the two apart. */
  lemma {:induction false} WriteEndToEnd(points: Points, unitId: byte, w: Write, request: seq<seq<byte>>, reply: seq<seq<byte>>)
    requires WritePdu(w).Some? && Flat(request) == BuildFrame(unitId, WritePdu(w).value)
    requires var answer := Meaning(points, WritePdu(w).value).1;
      answer.Response? && Flat(reply) == BuildFrame(unitId, answer.pdu)
    ensures Left([], request + [[]]) == []
    ensures Handed([], request + [[]], unitId) == [WritePdu(w).value]
    ensures var (after, answer) := Meaning(points, WritePdu(w).value);
      && after == (match Written(points, w) case Some(stored) => stored case None => points)
      && Judge(Flat(reply), unitId, WritePdu(w).value[0]) == Answer(answer.pdu)
      && (answer.pdu[0] >= 0x80 <==> Written(points, w).None?)
  {
    var pdu := WritePdu(w).value;
    var sent := [Addressed(unitId, pdu)];
    WriteHandled(points, unitId, w);
    assert sent[1..] == [] && Stream(sent) == BuildFrame(unitId, pdu) + Stream(sent[1..]) == BuildFrame(unitId, pdu);
    assert AllWellFormed(sent);
    Reassembly([], sent, request, [[]], unitId);
    assert MailFor(sent, unitId) == [pdu] + MailFor(sent[1..], unitId) == [pdu];
    var answer := Meaning(points, pdu).1.pdu;
    ReplyAccepted(unitId, pdu[0], answer);
  }

  // ----- Reads -----

  /** The length checks of ReadBits and ReadRegisters on an accepted answer, for `bytes` data bytes. */
  predicate ReadAccepted(outcome: Outcome, bytes: nat) {
    outcome.Answer? && |outcome.pdu| >= 2 && outcome.pdu[1] as int == bytes && |outcome.pdu| == bytes + 2
  }

  /** What ReadBits makes of its arguments and the bytes on the line; None is its refusal. */
  function BitsRead(bytes: seq<byte>, unitId: byte, address: int, count: int, discrete: bool): Option<seq<bool>> {
    var outcome := Judge(bytes, unitId, if discrete then 2 else 1);
    if address < 0 || address > 65535 || count <= 0 || count > 2000 || !ReadAccepted(outcome, (count + 7) / 8) then None
    else Some(UnpackBits(outcome.pdu[2..], count))
  }

  function RegistersRead(bytes: seq<byte>, unitId: byte, address: int, count: int, input: bool): Option<seq<word>> {
    var outcome := Judge(bytes, unitId, if input then 4 else 3);
    if address < 0 || address > 65535 || count <= 0 || count > 125 || !ReadAccepted(outcome, 2 * count) then None
    else Some(BytesToWords(outcome.pdu, 2, count))
  }

  /** ReadBits from its answer on, decoding loop included. */
  method ReadBits(reply: seq<seq<byte>>, unitId: byte, address: int, count: int, discrete: bool)
    returns (values: Option<seq<bool>>)
    ensures values == BitsRead(Flat(reply), unitId, address, count, discrete)
  {
    if address < 0 || address > 65535 || count <= 0 || count > 2000 {
      return None;
    }
    var outcome := Receive(reply, unitId, if discrete then 2 else 1);
    if !outcome.Answer? || |outcome.pdu| < 2 {
      return None;
    }
    var response, bytes := outcome.pdu, outcome.pdu[1] as int;
    if bytes != (count + 7) / 8 || |response| != bytes + 2 {
      return None;
    }
    var bits := ReadBitLoop(response, count);
    return Some(bits);
  }

  /** The decoding loop of ReadBits. */
  method ReadBitLoop(response: seq<byte>, count: nat) returns (bits: seq<bool>)
    requires |response| == 2 + (count + 7) / 8
    ensures bits == UnpackBits(response[2..], count)
  {
    bits := [];
    var i := 0;
    while i < count
      invariant 0 <= i <= count && bits == UnpackBits(response[2..], i)
    {
      bits := bits + [TestBit(response[2 + i / 8], i % 8)];
      i := i + 1;
    }
  }

  /** ReadRegisters from its answer on, decoding loop included. */
  method ReadRegisters(reply: seq<seq<byte>>, unitId: byte, address: int, count: int, input: bool)
    returns (values: Option<seq<word>>)
    ensures values == RegistersRead(Flat(reply), unitId, address, count, input)
  {
    if address < 0 || address > 65535 || count <= 0 || count > 125 {
      return None;
    }
    var outcome := Receive(reply, unitId, if input then 4 else 3);
    if !outcome.Answer? || |outcome.pdu| < 2 {
      return None;
    }
    var response, bytes := outcome.pdu, outcome.pdu[1] as int;
    if bytes != 2 * count || |response| != bytes + 2 {
      return None;
    }
    var words := ReadRegisterLoop(response, count);
    return Some(words);
  }

  /** The decoding loop of ReadRegisters. */
  method ReadRegisterLoop(response: seq<byte>, count: nat) returns (words: seq<word>)
    requires |response| == 2 + 2 * count
    ensures words == BytesToWords(response, 2, count)
  {
    words := [];
    var i := 0;
    while i < count
      invariant 0 <= i <= count && words == BytesToWords(response, 2, i)
    {
      words := words + [Word16(response, 2 + 2 * i)];
      i := i + 1;
    }
  }

  /** The answer of a slave that keeps to the standard: function code, byte count, data. */
  function StandardReply(f: byte, data: seq<byte>): seq<byte>
    requires |data| < 0x100
  {
    [f, |data|] + data
  }

  /** The master accepts it, to the last byte and not before. */
  lemma {:induction false} StandardReplyAccepted(unitId: byte, f: byte, data: seq<byte>)
    requires 1 <= f <= 4 && 1 <= |data| < 0x100
    ensures var frame, reply := BuildFrame(unitId, StandardReply(f, data)), StandardReply(f, data);
      && Judge(frame, unitId, f) == Answer(reply) && ReadAccepted(Judge(frame, unitId, f), |data|)
      && forall n :: 0 <= n < |frame| ==> !Ready(frame[..n])
  {
    var reply := StandardReply(f, data);
    var frame := BuildFrame(unitId, reply);
    assert frame[1] == reply[0] && frame[2] == reply[1] by {
      assert frame[1..|reply| + 1][0] == reply[0] && frame[1..|reply| + 1][1] == reply[1];
    }
    assert ResponseSize(frame) == |frame|;
    assert frame[..|frame|] == frame;
    ParseInvertsBuild(frame, unitId, reply);
    forall n | 0 <= n < |frame| ensures !Ready(frame[..n]) {
      assert n >= 2 ==> frame[..n][1] == frame[1];
      assert n >= 3 ==> frame[..n][2] == frame[2];
    }
  }

  /** Reading 1 to 2000 bits from such a slave returns exactly the bits it packed, however its answer is split. */
  lemma StandardBitsRead(unitId: byte, address: word, bits: seq<bool>, discrete: bool, reply: seq<seq<byte>>)
    requires 1 <= |bits| <= 2000
    requires Flat(reply) == BuildFrame(unitId, StandardReply(if discrete then 2 else 1, PackBits(bits)))
    ensures BitsRead(Flat(reply), unitId, address, |bits|, discrete) == Some(bits)
  {
    var f: byte := if discrete then 2 else 1;
    StandardReplyAccepted(unitId, f, PackBits(bits));
    assert StandardReply(f, PackBits(bits))[2..] == PackBits(bits);
    UnpackOfPack(bits);
  }

  /** Reading 1 to 125 registers from such a slave returns exactly the registers it sent. */
  lemma StandardRegistersRead(unitId: byte, address: word, words: seq<word>, input: bool, reply: seq<seq<byte>>)
    requires 1 <= |words| <= 125
    requires Flat(reply) == BuildFrame(unitId, StandardReply(if input then 4 else 3, WordsToBytes(words)))
    ensures RegistersRead(Flat(reply), unitId, address, |words|, input) == Some(words)
  {
    var f: byte, none: seq<byte> := if input then 4 else 3, [];
    var data := WordsToBytes(words);
    StandardReplyAccepted(unitId, f, data);
    assert StandardReply(f, data) == [f, |data|] + data + none;
    WordsOfBytes([f, |data|], words, none);
  }

  /** The slave's read replies lack the function code, so the master takes the byte count for it: no reply that carries
      data is ever accepted. */
  lemma {:induction false} DataBlockRejected(unitId: byte, f: byte, data: seq<byte>)
    requires 1 <= f <= 4 && 1 <= |data| < 0x100
    ensures !ReadAccepted(Judge(BuildFrame(unitId, DataBlock(data)), unitId, f), |data|)
  {
    var block := DataBlock(data);
    var frame := BuildFrame(unitId, block);
    var n := ResponseSize(frame);
    assert frame[1] == block[0] && frame[2] == block[1] by {
      assert frame[1..|block| + 1][0] == block[0] && frame[1..|block| + 1][1] == block[1];
    }
    if Ready(frame) {
      var parsed := ParseFrame(frame[..n]);
      if parsed.Parsed? {
        assert parsed.pdu == frame[..n][1..n - 2];
        assert parsed.pdu[0] == block[0] && (n >= 5 ==> parsed.pdu[1] == block[1]);
      }
    }
  }

  lemma ExceptionRejected(unitId: byte, f: byte, code: byte, bytes: nat)
    requires 1 <= f <= 4 && 1 <= code && 1 <= bytes
    ensures !ReadAccepted(Judge(BuildFrame(unitId, [ExceptionCode(f), code]), unitId, f), bytes)
  {
    var reply := [ExceptionCode(f), code];
    var frame := BuildFrame(unitId, reply);
    assert frame[1] == reply[0] by {
      assert frame[1..3][0] == reply[0];
    }
    assert frame[..5] == frame;
    ParseInvertsBuild(frame, unitId, reply);
  }

  lemma {:induction false} ReadReply(points: Points, f: byte, address: word, count: nat)
    requires 1 <= f <= 4 && 1 <= count <= (if f <= 2 then 2000 else 125)
    ensures var bytes := if f <= 2 then (count + 7) / 8 else 2 * count;
      var answer := Meaning(points, ModbusClient.Header(f, address, count)).1;
      answer == Exception(f, ILLEGAL_ADDRESS) ||
      (answer.Response? && |answer.pdu| == bytes + 1 && answer.pdu[0] == bytes)
  {
    var header := ModbusClient.Header(f, address, count);
    assert Word16(header, 1) == address && Word16(header, 3) == count;
  }

  /** A master read of this repository's slave never succeeds: for every store, function, address and quantity. */
  lemma {:induction false} ReadsNeverSucceed(points: Points, unitId: byte, f: byte, address: word, count: nat, reply: seq<seq<byte>>)
    requires 1 <= f <= 4 && 1 <= count <= (if f <= 2 then 2000 else 125)
    requires var answer := Meaning(points, ModbusClient.Header(f, address, count)).1;
      answer.Response? && Flat(reply) == BuildFrame(unitId, answer.pdu)
    ensures !ReadAccepted(Judge(Flat(reply), unitId, f), if f <= 2 then (count + 7) / 8 else 2 * count)
  {
    var answer := Meaning(points, ModbusClient.Header(f, address, count)).1;
    var bytes := if f <= 2 then (count + 7) / 8 else 2 * count;
    ReadReply(points, f, address, count);
    if answer == Exception(f, ILLEGAL_ADDRESS) {
      ExceptionRejected(unitId, f, ILLEGAL_ADDRESS, bytes);
    } else {
      DataBlockRejected(unitId, f, answer.pdu[1..]);
    }
  }
}
