/** The four Modbus address areas shared by the slave transports (src/ModbusRegisterStore.cpp).

    The simple picture is `Points`: for each area, a map from protocol address to value whose domain is the configured
    range. The class keeps one vector per area plus its range, and is proved against that picture. */
module ModbusRegisterStore {
  import opened Bytes

  const MAX_POINTS := 65536

  datatype Area = Coils | DiscreteInputs | InputRegisters | HoldingRegisters

  datatype Points = Points(
    coils: map<int, bool>,
    discreteInputs: map<int, bool>,
    inputRegisters: map<int, word>,
    holdingRegisters: map<int, word>)

  /** Every address of a nonempty span is configured. */
  ghost predicate Covers<T>(cells: map<int, T>, address: int, quantity: int) {
    quantity > 0 && forall a :: address <= a < address + quantity ==> a in cells
  }

  ghost function Slice<T>(cells: map<int, T>, address: int, quantity: int): (values: seq<T>)
    requires Covers(cells, address, quantity)
    ensures |values| == quantity
    ensures forall i :: 0 <= i < quantity ==> values[i] == cells[address + i]
  {
    seq(quantity, i requires 0 <= i < quantity && Covers(cells, address, quantity) => cells[address + i])
  }

  function Overwrite<T>(cells: map<int, T>, address: int, values: seq<T>): map<int, T> {
    map a | a in cells :: if address <= a < address + |values| then values[a - address] else cells[a]
  }

  /** The cells of a vector that begins at a start address. */
  function Cells<T>(start: int, vector: seq<T>): (cells: map<int, T>)
    ensures forall a :: a in cells <==> start <= a < start + |vector|
  {
    map a | start <= a < start + |vector| && Within(a, start, |vector|) :: vector[a - start]
  }

  predicate Within(a: int, start: int, count: int) {
    start <= a < start + count
  }

  /** One value at every address of a range. */
  function Filled<T>(start: int, count: nat, value: T): map<int, T> {
    map a | start <= a < start + count && Within(a, start, count) :: value
  }

  datatype Storage = Storage(start: int, count: int, bits: seq<bool>, registers: seq<word>) {
    predicate ValidBits() {
      0 <= count == |bits| && registers == []
    }

    predicate ValidRegisters() {
      0 <= count == |registers| && bits == []
    }

    /** ValidateSpan, in the source's own comparisons. */
    predicate InSpan(address: int, quantity: int) {
      !(quantity <= 0 || address < start || quantity > count || address > start + count - quantity)
    }
  }

  /** The comparisons of ValidateSpan say exactly that the whole span is configured. */
  lemma SpanIsCovered<T>(start: int, vector: seq<T>, address: int, quantity: int)
    ensures Covers(Cells(start, vector), address, quantity) <==>
            !(quantity <= 0 || address < start || quantity > |vector| || address > start + |vector| - quantity)
  {
    var cells := Cells(start, vector);
    if Covers(cells, address, quantity) {
      assert address in cells && address + quantity - 1 in cells;
    }
  }

  /** std::copy into the middle of a vector. */
  function Splice<T>(vector: seq<T>, offset: nat, values: seq<T>): (r: seq<T>)
    requires offset + |values| <= |vector|
    ensures |r| == |vector|
  {
    vector[..offset] + values + vector[offset + |values|..]
  }

  lemma SpliceIsOverwrite<T>(start: int, vector: seq<T>, address: int, values: seq<T>)
    requires start <= address && address + |values| <= start + |vector|
    ensures Cells(start, Splice(vector, address - start, values)) == Overwrite(Cells(start, vector), address, values)
  {
  }

  lemma SliceOfCells<T>(start: int, vector: seq<T>, address: int, quantity: int)
    requires Covers(Cells(start, vector), address, quantity)
    ensures start <= address && address + quantity <= start + |vector|
    ensures Slice(Cells(start, vector), address, quantity) == vector[address - start..address - start + quantity]
  {
    SpanIsCovered(start, vector, address, quantity);
  }

  class RegisterStore {
    var coils: Storage
    var discreteInputs: Storage
    var inputRegisters: Storage
    var holdingRegisters: Storage

    ghost predicate Valid()
      reads this
    {
      && coils.ValidBits()
      && discreteInputs.ValidBits()
      && inputRegisters.ValidRegisters()
      && holdingRegisters.ValidRegisters()
    }

    ghost function View(): Points
      reads this
    {
      Points(
        Cells(coils.start, coils.bits),
        Cells(discreteInputs.start, discreteInputs.bits),
        Cells(inputRegisters.start, inputRegisters.registers),
        Cells(holdingRegisters.start, holdingRegisters.registers))
    }

    constructor ()
      ensures Valid() && View() == Points(map[], map[], map[], map[])
    {
      var empty := Storage(0, 0, [], []);
      coils, discreteInputs, inputRegisters, holdingRegisters := empty, empty, empty, empty;
    }

    /** Configure gives an area a fresh range of zeros; a range that leaves 0..65535 is refused. */
    method Configure(area: Area, start: int, count: int) returns (ok: bool)
      requires Valid()
      modifies this
      ensures Valid()
      ensures ok <==> 0 <= start && 0 < count && start + count <= 65536
      ensures !ok ==> View() == old(View())
      ensures ok && area.Coils? ==>
        View() == old(View()).(coils := Filled(start, count, false))
      ensures ok && area.DiscreteInputs? ==>
        View() == old(View()).(discreteInputs := Filled(start, count, false))
      ensures ok && area.InputRegisters? ==>
        View() == old(View()).(inputRegisters := Filled(start, count, 0))
      ensures ok && area.HoldingRegisters? ==>
        View() == old(View()).(holdingRegisters := Filled(start, count, 0))
    {
      if start < 0 || count <= 0 || start > 65535 || count > MAX_POINTS || start > 65536 - count {
        return false;
      }
      match area {
        case Coils => coils := Storage(start, count, seq(count, _ => false), []);
        case DiscreteInputs => discreteInputs := Storage(start, count, seq(count, _ => false), []);
        case InputRegisters => inputRegisters := Storage(start, count, [], seq(count, _ => 0));
        case HoldingRegisters => holdingRegisters := Storage(start, count, [], seq(count, _ => 0));
      }
      return true;
    }

    ghost function BitCells(area: Area): map<int, bool>
      reads this
    {
      if area.Coils? then View().coils else if area.DiscreteInputs? then View().discreteInputs else map[]
    }

    ghost function RegisterCells(area: Area): map<int, word>
      reads this
    {
      if area.InputRegisters? then View().inputRegisters
      else if area.HoldingRegisters? then View().holdingRegisters else map[]
    }

    method ReadBits(area: Area, address: int, quantity: int) returns (values: Option<seq<bool>>)
      requires Valid()
      ensures values.Some? <==> Covers(BitCells(area), address, quantity)
      ensures values.Some? ==> values.value == Slice(BitCells(area), address, quantity)
    {
      if !area.Coils? && !area.DiscreteInputs? {
        assert quantity > 0 ==> address !in BitCells(area);
        return None;
      }
      var storage := if area.Coils? then coils else discreteInputs;
      SpanIsCovered(storage.start, storage.bits, address, quantity);
      if !storage.InSpan(address, quantity) {
        return None;
      }
      SliceOfCells(storage.start, storage.bits, address, quantity);
      var offset := address - storage.start;
      return Some(storage.bits[offset..offset + quantity]);
    }

    method ReadRegisters(area: Area, address: int, quantity: int) returns (values: Option<seq<word>>)
      requires Valid()
      ensures values.Some? <==> Covers(RegisterCells(area), address, quantity)
      ensures values.Some? ==> values.value == Slice(RegisterCells(area), address, quantity)
    {
      if !area.InputRegisters? && !area.HoldingRegisters? {
        assert quantity > 0 ==> address !in RegisterCells(area);
        return None;
      }
      var storage := if area.InputRegisters? then inputRegisters else holdingRegisters;
      SpanIsCovered(storage.start, storage.registers, address, quantity);
      if !storage.InSpan(address, quantity) {
        return None;
      }
      SliceOfCells(storage.start, storage.registers, address, quantity);
      var offset := address - storage.start;
      return Some(storage.registers[offset..offset + quantity]);
    }

    /** Only coils can be written as bits; a span that is not wholly configured changes nothing. */
    method WriteBits(area: Area, address: int, values: seq<bool>) returns (ok: bool)
      requires Valid()
      modifies this
      ensures Valid()
      ensures ok <==> area.Coils? && Covers(old(View()).coils, address, |values|)
      ensures ok ==> View() == old(View()).(coils := Overwrite(old(View()).coils, address, values))
      ensures !ok ==> View() == old(View())
    {
      if !area.Coils? {
        return false;
      }
      SpanIsCovered(coils.start, coils.bits, address, |values|);
      if !coils.InSpan(address, |values|) {
        return false;
      }
      SpliceIsOverwrite(coils.start, coils.bits, address, values);
      coils := coils.(bits := Splice(coils.bits, address - coils.start, values));
      return true;
    }

    /** Only holding registers can be written. */
    method WriteRegisters(area: Area, address: int, values: seq<word>) returns (ok: bool)
      requires Valid()
      modifies this
      ensures Valid()
      ensures ok <==> area.HoldingRegisters? && Covers(old(View()).holdingRegisters, address, |values|)
      ensures ok ==>
        View() == old(View()).(holdingRegisters := Overwrite(old(View()).holdingRegisters, address, values))
      ensures !ok ==> View() == old(View())
    {
      if !area.HoldingRegisters? {
        return false;
      }
      SpanIsCovered(holdingRegisters.start, holdingRegisters.registers, address, |values|);
      if !holdingRegisters.InSpan(address, |values|) {
        return false;
      }
      SpliceIsOverwrite(holdingRegisters.start, holdingRegisters.registers, address, values);
      holdingRegisters :=
        holdingRegisters.(registers := Splice(holdingRegisters.registers, address - holdingRegisters.start, values));
      return true;
    }
  }
}
