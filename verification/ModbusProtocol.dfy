/** The transport-neutral request handler (src/ModbusProtocol.cpp).

    `Decode` and `Execute` are the simple form: a PDU means a request, and a request acts on the four address maps. The
    method `Handle` is the source's form, over the vectors of the register store. */
module ModbusProtocol {
  import opened Bytes
  import opened ModbusRegisterStore
  import opened ModbusPdu

  const ILLEGAL_FUNCTION: byte := 1
  const ILLEGAL_ADDRESS: byte := 2
  const ILLEGAL_VALUE: byte := 3

  datatype Request =
    | Truncated
    | Refused(function_: byte, code: byte)
    | ReadBitSpan(function_: byte, area: Area, address: word, quantity: nat)
    | ReadRegisterSpan(function_: byte, area: Area, address: word, quantity: nat)
    | WriteBitSpan(function_: byte, address: word, bits: seq<bool>, echo: seq<byte>)
    | WriteRegisterSpan(function_: byte, address: word, words: seq<word>, echo: seq<byte>)

  /** What Handle leaves behind: false (nothing is sent) or a response PDU. */
  datatype Reply = Silence | Response(pdu: seq<byte>)

  /** function | 0x80 */
  function ExceptionCode(f: byte): byte {
    if f >= 0x80 then f else f + 0x80
  }

  function Exception(f: byte, code: byte): Reply {
    Response([ExceptionCode(f), code])
  }

  function Decode(pdu: seq<byte>): Request {
    if |pdu| < 1 then Truncated
    else if pdu[0] == 1 || pdu[0] == 2 then
      if |pdu| < 5 then Truncated
      else if Word16(pdu, 3) == 0 || Word16(pdu, 3) > 2000 then Refused(pdu[0], ILLEGAL_VALUE)
      else ReadBitSpan(pdu[0], if pdu[0] == 1 then Coils else DiscreteInputs, Word16(pdu, 1), Word16(pdu, 3))
    else if pdu[0] == 3 || pdu[0] == 4 then
      if |pdu| < 5 then Truncated
      else if Word16(pdu, 3) == 0 || Word16(pdu, 3) > 125 then Refused(pdu[0], ILLEGAL_VALUE)
      else ReadRegisterSpan(pdu[0], if pdu[0] == 3 then HoldingRegisters else InputRegisters,
                            Word16(pdu, 1), Word16(pdu, 3))
    else if pdu[0] == 5 then
      if |pdu| < 5 then Truncated
      else if Word16(pdu, 3) != 0 && Word16(pdu, 3) != 0xFF00 then Refused(5, ILLEGAL_VALUE)
      else WriteBitSpan(5, Word16(pdu, 1), [Word16(pdu, 3) == 0xFF00], pdu)
    else if pdu[0] == 6 then
      if |pdu| < 5 then Truncated
      else WriteRegisterSpan(6, Word16(pdu, 1), [Word16(pdu, 3)], pdu)
    else if pdu[0] == 15 then
      if |pdu| < 6 then Truncated
      else if !(1 <= Word16(pdu, 3) <= 1968) || pdu[5] as int != (Word16(pdu, 3) + 7) / 8 || |pdu| != 6 + pdu[5]
      then Refused(15, ILLEGAL_VALUE)
      else WriteBitSpan(15, Word16(pdu, 1), UnpackBits(pdu[6..], Word16(pdu, 3)), pdu[..5])
    else if pdu[0] == 16 then
      if |pdu| < 6 then Truncated
      else if !(1 <= Word16(pdu, 3) <= 123) || pdu[5] as int != 2 * Word16(pdu, 3) || |pdu| != 6 + pdu[5]
      then Refused(16, ILLEGAL_VALUE)
      else WriteRegisterSpan(16, Word16(pdu, 1), BytesToWords(pdu, 6, Word16(pdu, 3)), pdu[..5])
    else Refused(pdu[0], ILLEGAL_FUNCTION)
  }

  ghost function BitArea(points: Points, area: Area): map<int, bool> {
    if area.Coils? then points.coils else if area.DiscreteInputs? then points.discreteInputs else map[]
  }

  ghost function RegisterArea(points: Points, area: Area): map<int, word> {
    if area.InputRegisters? then points.inputRegisters
    else if area.HoldingRegisters? then points.holdingRegisters else map[]
  }

  /** A read response as the gateway sends it: byte count and data, without the function code. */
  function DataBlock(data: seq<byte>): seq<byte>
    requires |data| < 0x100
  {
    [|data|] + data
  }

  ghost predicate WellFormed(request: Request) {
    match request
    case ReadBitSpan(_, _, _, quantity) => quantity <= 2000
    case ReadRegisterSpan(_, _, _, quantity) => quantity <= 125
    case _ => true
  }

  ghost function Execute(points: Points, request: Request): (Points, Reply)
    requires WellFormed(request)
  {
    match request
    case Truncated => (points, Silence)
    case Refused(f, code) => (points, Exception(f, code))
    case ReadBitSpan(f, area, address, quantity) =>
      var cells := BitArea(points, area);
      if Covers(cells, address, quantity)
      then (points, Response(DataBlock(PackBits(Slice(cells, address, quantity)))))
      else (points, Exception(f, ILLEGAL_ADDRESS))
    case ReadRegisterSpan(f, area, address, quantity) =>
      var cells := RegisterArea(points, area);
      if Covers(cells, address, quantity)
      then (points, Response(DataBlock(WordsToBytes(Slice(cells, address, quantity)))))
      else (points, Exception(f, ILLEGAL_ADDRESS))
    case WriteBitSpan(f, address, bits, echo) =>
      if Covers(points.coils, address, |bits|)
      then (points.(coils := Overwrite(points.coils, address, bits)), Response(echo))
      else (points, Exception(f, ILLEGAL_ADDRESS))
    case WriteRegisterSpan(f, address, words, echo) =>
      if Covers(points.holdingRegisters, address, |words|)
      then (points.(holdingRegisters := Overwrite(points.holdingRegisters, address, words)), Response(echo))
      else (points, Exception(f, ILLEGAL_ADDRESS))
  }

  /** What one PDU does to the points and what is answered. */
  ghost function Meaning(points: Points, pdu: seq<byte>): (Points, Reply) {
    Execute(points, Decode(pdu))
  }

  class ModbusProtocol {
    const store: RegisterStore

    constructor (store: RegisterStore)
      ensures this.store == store
    {
      this.store := store;
    }

    /** The source's handler does to the vectors what the simple form does to the maps, for every PDU. */
    method Handle(pdu: seq<byte>) returns (reply: Reply)
      requires store.Valid()
      modifies store
      ensures store.Valid()
      ensures (store.View(), reply) == Meaning(old(store.View()), pdu)
    {
      if |pdu| < 1 {
        return Silence;
      }
      var f := pdu[0];
      if f == 1 || f == 2 {
        reply := HandleReadBits(pdu);
      } else if f == 3 || f == 4 {
        reply := HandleReadRegisters(pdu);
      } else if f == 5 || f == 6 {
        reply := HandleWriteSingle(pdu);
      } else if f == 15 {
        reply := HandleWriteCoils(pdu);
      } else if f == 16 {
        reply := HandleWriteRegisters(pdu);
      } else {
        reply := Exception(f, ILLEGAL_FUNCTION);
      }
    }

    method HandleReadBits(pdu: seq<byte>) returns (reply: Reply)
      requires store.Valid()
      requires |pdu| >= 1 && (pdu[0] == 1 || pdu[0] == 2)
      ensures (store.View(), reply) == Meaning(store.View(), pdu)
    {
      if |pdu| < 5 {
        return Silence;
      }
      var address, quantity := Word16(pdu, 1), Word16(pdu, 3);
      if quantity == 0 || quantity > 2000 {
        return Exception(pdu[0], ILLEGAL_VALUE);
      }
      var values := store.ReadBits(if pdu[0] == 1 then Coils else DiscreteInputs, address, quantity);
      if values.None? {
        return Exception(pdu[0], ILLEGAL_ADDRESS);
      }
      var data := PackLoop(values.value);
      var byteCount: int := (quantity + 7) / 8;
      reply := Response([byteCount] + data);
    }

    method HandleReadRegisters(pdu: seq<byte>) returns (reply: Reply)
      requires store.Valid()
      requires |pdu| >= 1 && (pdu[0] == 3 || pdu[0] == 4)
      ensures (store.View(), reply) == Meaning(store.View(), pdu)
    {
      if |pdu| < 5 {
        return Silence;
      }
      var address, quantity := Word16(pdu, 1), Word16(pdu, 3);
      if quantity == 0 || quantity > 125 {
        return Exception(pdu[0], ILLEGAL_VALUE);
      }
      var read := store.ReadRegisters(if pdu[0] == 3 then HoldingRegisters else InputRegisters, address, quantity);
      if read.None? {
        return Exception(pdu[0], ILLEGAL_ADDRESS);
      }
      var values := read.value;
      var response: seq<byte> := [quantity * 2];
      for i := 0 to |values|
        invariant response == [quantity * 2] + WordsToBytes(values[..i])
      {
        assert values[..i + 1] == values[..i] + [values[i]];
        WordsToBytesAppend(values[..i], values[i]);
        response := response + BigEndian16(values[i]);
      }
      assert values[..|values|] == values;
      reply := Response(response);
    }

    method HandleWriteSingle(pdu: seq<byte>) returns (reply: Reply)
      requires store.Valid()
      requires |pdu| >= 1 && (pdu[0] == 5 || pdu[0] == 6)
      modifies store
      ensures store.Valid()
      ensures (store.View(), reply) == Meaning(old(store.View()), pdu)
    {
      if |pdu| < 5 {
        return Silence;
      }
      var address, raw := Word16(pdu, 1), Word16(pdu, 3);
      var ok;
      if pdu[0] == 5 {
        if raw != 0 && raw != 0xFF00 {
          return Exception(5, ILLEGAL_VALUE);
        }
        ok := store.WriteBits(Coils, address, [raw == 0xFF00]);
      } else {
        ok := store.WriteRegisters(HoldingRegisters, address, [raw]);
      }
      reply := if ok then Response(pdu) else Exception(pdu[0], ILLEGAL_ADDRESS);
    }

    method HandleWriteCoils(pdu: seq<byte>) returns (reply: Reply)
      requires store.Valid()
      requires |pdu| >= 1 && pdu[0] == 15
      modifies store
      ensures store.Valid()
      ensures (store.View(), reply) == Meaning(old(store.View()), pdu)
    {
      if |pdu| < 6 {
        return Silence;
      }
      var address, quantity := Word16(pdu, 1), Word16(pdu, 3);
      if quantity == 0 || quantity > 1968 || pdu[5] as int != (quantity + 7) / 8 || |pdu| != 6 + pdu[5] {
        return Exception(15, ILLEGAL_VALUE);
      }
      var values := seq(quantity, _ => false);
      for i := 0 to quantity
        invariant |values| == quantity
        invariant forall k :: 0 <= k < i ==> values[k] == TestBit(pdu[6..][k / 8], k % 8)
      {
        values := values[i := TestBit(pdu[6 + i / 8], i % 8)];
      }
      assert values == UnpackBits(pdu[6..], quantity);
      var ok := store.WriteBits(Coils, address, values);
      reply := if ok then Response(pdu[..5]) else Exception(15, ILLEGAL_ADDRESS);
    }

    method HandleWriteRegisters(pdu: seq<byte>) returns (reply: Reply)
      requires store.Valid()
      requires |pdu| >= 1 && pdu[0] == 16
      modifies store
      ensures store.Valid()
      ensures (store.View(), reply) == Meaning(old(store.View()), pdu)
    {
      if |pdu| < 6 {
        return Silence;
      }
      var address, quantity := Word16(pdu, 1), Word16(pdu, 3);
      if quantity == 0 || quantity > 123 || pdu[5] as int != quantity * 2 || |pdu| != 6 + pdu[5] {
        return Exception(16, ILLEGAL_VALUE);
      }
      var values: seq<word> := [];
      for i := 0 to quantity
        invariant |values| == i
        invariant forall k :: 0 <= k < i ==> values[k] == Word16(pdu, 6 + 2 * k)
      {
        values := values + [Word16(pdu, 6 + i * 2)];
      }
      assert values == BytesToWords(pdu, 6, quantity);
      var ok := store.WriteRegisters(HoldingRegisters, address, values);
      reply := if ok then Response(pdu[..5]) else Exception(16, ILLEGAL_ADDRESS);
    }
  }

  // ----- What one PDU and what a run of PDUs may change -----

  /** The points after a run of PDUs. */
  ghost function AfterRun(points: Points, pdus: seq<seq<byte>>): Points
    decreases pdus
  {
    if pdus == [] then points else AfterRun(Meaning(points, pdus[0]).0, pdus[1..])
  }

  /** The value a PDU gives one coil of a store whose configured coils are `configured`, if it writes it. */
  ghost function CoilWritten(configured: set<int>, pdu: seq<byte>, a: int): Option<bool> {
    CoilGiven(configured, Decode(pdu), a)
  }

  ghost function RegisterWritten(configured: set<int>, pdu: seq<byte>, a: int): Option<word> {
    RegisterGiven(configured, Decode(pdu), a)
  }

  ghost function CoilGiven(configured: set<int>, request: Request, a: int): Option<bool> {
    match request
    case WriteBitSpan(_, address, bits, _) =>
      if address <= a < address + |bits| && forall x :: address <= x < address + |bits| ==> x in configured
      then Some(bits[a - address]) else None
    case _ => None
  }

  ghost function RegisterGiven(configured: set<int>, request: Request, a: int): Option<word> {
    match request
    case WriteRegisterSpan(_, address, words, _) =>
      if address <= a < address + |words| && forall x :: address <= x < address + |words| ==> x in configured
      then Some(words[a - address]) else None
    case _ => None
  }

  /** The last value a run gives a coil, counting from the end. */
  ghost function LastCoil(configured: set<int>, pdus: seq<seq<byte>>, a: int): Option<bool> {
    if pdus == [] then None
    else
      var last := CoilWritten(configured, pdus[|pdus| - 1], a);
      if last.Some? then last else LastCoil(configured, pdus[..|pdus| - 1], a)
  }

  ghost function LastRegister(configured: set<int>, pdus: seq<seq<byte>>, a: int): Option<word> {
    if pdus == [] then None
    else
      var last := RegisterWritten(configured, pdus[|pdus| - 1], a);
      if last.Some? then last else LastRegister(configured, pdus[..|pdus| - 1], a)
  }

  /** One PDU: the read-only areas never change, no address appears or disappears, and a refusal changes nothing. */
  lemma {:induction false} OnePdu(points: Points, pdu: seq<byte>)
    ensures var (after, reply) := Meaning(points, pdu);
      && after.discreteInputs == points.discreteInputs && after.inputRegisters == points.inputRegisters
      && after.coils.Keys == points.coils.Keys && after.holdingRegisters.Keys == points.holdingRegisters.Keys
      && (reply.Silence? || (|reply.pdu| == 2 && reply.pdu[0] >= 0x80) ==> after == points)
  {
    var request := Decode(pdu);
    if request.WriteBitSpan? || request.WriteRegisterSpan? {
      assert |request.echo| >= 5;
    }
  }

  /** Every coil and register keeps its value unless this PDU writes it. */
  lemma {:induction false} OnlyNamedCellsChange(points: Points, pdu: seq<byte>)
    ensures var after := Meaning(points, pdu).0;
      && after.coils.Keys == points.coils.Keys && after.holdingRegisters.Keys == points.holdingRegisters.Keys
      && (forall a :: a in points.coils ==>
          var w := CoilWritten(points.coils.Keys, pdu, a);
          after.coils[a] == if w.Some? then w.value else points.coils[a])
      && (forall a :: a in points.holdingRegisters ==>
          var w := RegisterWritten(points.holdingRegisters.Keys, pdu, a);
          after.holdingRegisters[a] == if w.Some? then w.value else points.holdingRegisters[a])
  {
    CoilsOf(points, Decode(pdu));
    RegistersOf(points, Decode(pdu));
  }

  lemma CoilsOf(points: Points, request: Request)
    requires WellFormed(request)
    ensures var after := Execute(points, request).0.coils;
      && after.Keys == points.coils.Keys
      && forall a :: a in points.coils ==>
          var w := CoilGiven(points.coils.Keys, request, a); after[a] == if w.Some? then w.value else points.coils[a]
  {
    ChangeOf(points, request);
  }

  lemma RegistersOf(points: Points, request: Request)
    requires WellFormed(request)
    ensures var after := Execute(points, request).0.holdingRegisters;
      && after.Keys == points.holdingRegisters.Keys
      && forall a :: a in points.holdingRegisters ==>
          var w := RegisterGiven(points.holdingRegisters.Keys, request, a);
          after[a] == if w.Some? then w.value else points.holdingRegisters[a]
  {
    ChangeOf(points, request);
  }

  lemma ChangeOf(points: Points, request: Request)
    requires WellFormed(request)
    ensures var after := Execute(points, request).0;
      && (!request.WriteBitSpan? ==> after.coils == points.coils)
      && (!request.WriteRegisterSpan? ==> after.holdingRegisters == points.holdingRegisters)
      && (request.WriteBitSpan? ==>
          after.coils == if Covers(points.coils, request.address, |request.bits|)
                         then Overwrite(points.coils, request.address, request.bits) else points.coils)
      && (request.WriteRegisterSpan? ==>
          after.holdingRegisters == if Covers(points.holdingRegisters, request.address, |request.words|)
                                    then Overwrite(points.holdingRegisters, request.address, request.words)
                                    else points.holdingRegisters)
  {
  }

  lemma {:induction false} AfterRunSnoc(points: Points, pdus: seq<seq<byte>>, pdu: seq<byte>)
    ensures AfterRun(points, pdus + [pdu]) == Meaning(AfterRun(points, pdus), pdu).0
    decreases pdus
  {
    if pdus == [] {
      assert ([] + [pdu])[1..] == [];
    } else {
      assert (pdus + [pdu])[1..] == pdus[1..] + [pdu];
      AfterRunSnoc(Meaning(points, pdus[0]).0, pdus[1..], pdu);
    }
  }

  /** Every run of PDUs: the read-only areas and the configured addresses stay as they were, and each coil and register
      holds the last value an accepted write gave it, or else its first value. */
  lemma {:induction false} EveryRun(points: Points, pdus: seq<seq<byte>>)
    ensures var after := AfterRun(points, pdus);
      && after.discreteInputs == points.discreteInputs && after.inputRegisters == points.inputRegisters
      && after.coils.Keys == points.coils.Keys && after.holdingRegisters.Keys == points.holdingRegisters.Keys
      && (forall a :: a in points.coils ==>
          var w := LastCoil(points.coils.Keys, pdus, a);
          after.coils[a] == if w.Some? then w.value else points.coils[a])
      && (forall a :: a in points.holdingRegisters ==>
          var w := LastRegister(points.holdingRegisters.Keys, pdus, a);
          after.holdingRegisters[a] == if w.Some? then w.value else points.holdingRegisters[a])
    decreases pdus
  {
    if pdus != [] {
      var n := |pdus| - 1;
      var before := AfterRun(points, pdus[..n]);
      assert pdus == pdus[..n] + [pdus[n]];
      AfterRunSnoc(points, pdus[..n], pdus[n]);
      EveryRun(points, pdus[..n]);
      OnePdu(before, pdus[n]);
      OnlyNamedCellsChange(before, pdus[n]);
    }
  }
}
