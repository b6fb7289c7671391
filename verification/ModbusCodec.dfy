/** Typed values in runs of sixteen-bit registers under four byte orders (src/ModbusCodec.cpp). The two floating-point
    types are not part of this model. */
module ModbusCodec {
  import opened Bytes

  datatype Kind = UInt16 | Int16 | UInt32 | Int32 | UInt64 | Int64 | String

  datatype Format = Format(kind: Kind, byteSwap: bool, wordSwap: bool, length: int)

  /** JSON values as EncodeRegisters tells them apart. */
  datatype Value = Integer(n: int) | Text(bytes: seq<byte>) | Other

  datatype Result<+T> = Ok(value: T) | Err

  const TWO63: int := 0x8000_0000_0000_0000
  const TWO64: int := 0x1_0000_0000_0000_0000

  /** The integers a JSON number can hold: signed or unsigned 64-bit. */
  predicate JsonInteger(n: int) {
    -TWO63 <= n < TWO64
  }

  // ----- Byte order -----

  function WordBytes(w: word, byteSwap: bool): (bytes: seq<byte>)
    ensures |bytes| == 2
  {
    if byteSwap then [w % 0x100, w / 0x100] else [w / 0x100, w % 0x100]
  }

  function PairWord(first: byte, second: byte, byteSwap: bool): word {
    if byteSwap then 0x100 * (second as int) + first as int else 0x100 * (first as int) + second as int
  }

  function Reverse<T>(s: seq<T>): (r: seq<T>)
    ensures |r| == |s|
    ensures forall i :: 0 <= i < |s| ==> r[i] == s[|s| - 1 - i]
  {
    seq(|s|, i requires 0 <= i < |s| => s[|s| - 1 - i])
  }

  function Ordered<T>(words: seq<T>, wordSwap: bool): (r: seq<T>)
    ensures |r| == |words|
  {
    if wordSwap then Reverse(words) else words
  }

  function Spread(words: seq<word>, byteSwap: bool): (bytes: seq<byte>)
    ensures |bytes| == 2 * |words|
  {
    if words == [] then [] else WordBytes(words[0], byteSwap) + Spread(words[1..], byteSwap)
  }

  function Gather(bytes: seq<byte>, byteSwap: bool): (words: seq<word>)
    ensures |words| == |bytes| / 2
  {
    if |bytes| < 2 then [] else [PairWord(bytes[0], bytes[1], byteSwap)] + Gather(bytes[2..], byteSwap)
  }

  /** Registers to a flat big-endian buffer. */
  function BytesOf(registers: seq<word>, byteSwap: bool, wordSwap: bool): (bytes: seq<byte>)
    ensures |bytes| == 2 * |registers|
  {
    Spread(Ordered(registers, wordSwap), byteSwap)
  }

  function RegistersOf(bytes: seq<byte>, byteSwap: bool, wordSwap: bool): (words: seq<word>)
    ensures |words| == |bytes| / 2
  {
    Ordered(Gather(bytes, byteSwap), wordSwap)
  }

  lemma SpreadStep(words: seq<word>, i: nat, byteSwap: bool)
    requires i < |words|
    ensures Spread(words[i..], byteSwap) == WordBytes(words[i], byteSwap) + Spread(words[i + 1..], byteSwap)
  {
    assert words[i..][1..] == words[i + 1..];
  }

  lemma AppendAssociates<T>(a: seq<T>, b: seq<T>, c: seq<T>)
    ensures a + (b + c) == a + b + c
  {
  }

  lemma NothingLeft<T>(a: seq<T>, b: seq<T>)
    requires b == []
    ensures a + b == a
  {
  }

  method ToBytes(registers: seq<word>, byteSwap: bool, wordSwap: bool) returns (bytes: seq<byte>)
    ensures bytes == BytesOf(registers, byteSwap, wordSwap)
  {
    var words := if wordSwap then Reverse(registers) else registers;
    bytes := [];
    for i := 0 to |words|
      invariant bytes + Spread(words[i..], byteSwap) == Spread(words, byteSwap)
    {
      SpreadStep(words, i, byteSwap);
      var pair: seq<byte>;
      if byteSwap {
        pair := [words[i] % 0x100, words[i] / 0x100];
      } else {
        pair := [words[i] / 0x100, words[i] % 0x100];
      }
      AppendAssociates(bytes, pair, Spread(words[i + 1..], byteSwap));
      bytes := bytes + pair;
    }
  }

  lemma GatherStep(bytes: seq<byte>, i: nat, byteSwap: bool)
    requires i + 1 < |bytes|
    ensures Gather(bytes[i..], byteSwap) == [PairWord(bytes[i], bytes[i + 1], byteSwap)] + Gather(bytes[i + 2..], byteSwap)
  {
    assert bytes[i..][2..] == bytes[i + 2..];
  }

  method FromBytes(bytes: seq<byte>, byteSwap: bool, wordSwap: bool) returns (words: seq<word>)
    ensures words == RegistersOf(bytes, byteSwap, wordSwap)
  {
    words := [];
    var i := 0;
    while i + 1 < |bytes|
      invariant 0 <= i <= |bytes|
      invariant words + Gather(bytes[i..], byteSwap) == Gather(bytes, byteSwap)
    {
      var first, second := bytes[i], bytes[i + 1];
      if byteSwap {
        first, second := second, first;
      }
      GatherStep(bytes, i, byteSwap);
      AppendAssociates(words, [PairWord(first, second, false)], Gather(bytes[i + 2..], byteSwap));
      words := words + [PairWord(first, second, false)];
      i := i + 2;
    }
    NothingLeft(words, Gather(bytes[i..], byteSwap));
    if wordSwap {
      words := Reverse(words);
    }
  }

  lemma ReverseTwice<T>(s: seq<T>)
    ensures Reverse(Reverse(s)) == s
  {
  }

  lemma PairOfWord(w: word, byteSwap: bool)
    ensures PairWord(WordBytes(w, byteSwap)[0], WordBytes(w, byteSwap)[1], byteSwap) == w
  {
  }

  lemma WordOfPair(a: byte, b: byte, byteSwap: bool)
    ensures WordBytes(PairWord(a, b, byteSwap), byteSwap) == [a, b]
  {
  }

  lemma {:induction false} GatherOfSpread(words: seq<word>, byteSwap: bool)
    ensures Gather(Spread(words, byteSwap), byteSwap) == words
  {
    if words != [] {
      assert Spread(words, byteSwap)[2..] == Spread(words[1..], byteSwap);
      GatherOfSpread(words[1..], byteSwap);
      PairOfWord(words[0], byteSwap);
    }
  }

  lemma {:induction false} SpreadOfGather(bytes: seq<byte>, byteSwap: bool)
    requires |bytes| % 2 == 0
    ensures Spread(Gather(bytes, byteSwap), byteSwap) == bytes
  {
    if bytes != [] {
      SpreadOfGather(bytes[2..], byteSwap);
      WordOfPair(bytes[0], bytes[1], byteSwap);
      assert Gather(bytes, byteSwap)[1..] == Gather(bytes[2..], byteSwap);
      assert bytes == [bytes[0], bytes[1]] + bytes[2..];
    }
  }

  /** The two directions undo each other under every byte and word swap. */
  lemma {:induction false} OrdersInvert(registers: seq<word>, bytes: seq<byte>, byteSwap: bool, wordSwap: bool)
    ensures RegistersOf(BytesOf(registers, byteSwap, wordSwap), byteSwap, wordSwap) == registers
    ensures |bytes| % 2 == 0 ==> BytesOf(RegistersOf(bytes, byteSwap, wordSwap), byteSwap, wordSwap) == bytes
  {
    GatherOfSpread(Ordered(registers, wordSwap), byteSwap);
    ReverseTwice(registers);
    if |bytes| % 2 == 0 {
      SpreadOfGather(bytes, byteSwap);
      ReverseTwice(Gather(bytes, byteSwap));
    }
  }

  // ----- Big-endian integers -----

  function Pow256(n: nat): (p: nat)
    ensures p >= 1
  {
    if n == 0 then 1 else 0x100 * Pow256(n - 1)
  }

  /** The number a byte string spells, most significant byte first. */
  function Spelled(bytes: seq<byte>): nat {
    if bytes == [] then 0 else 0x100 * Spelled(bytes[..|bytes| - 1]) + bytes[|bytes| - 1]
  }

  /** The low `count` bytes of a number, most significant first. */
  function Spell(value: nat, count: nat): (bytes: seq<byte>)
    ensures |bytes| == count
  {
    if count == 0 then [] else Spell(value / 0x100, count - 1) + [value % 0x100]
  }

  /** value >> (8 * k) */
  function ShiftedRight(value: nat, k: nat): nat {
    if k == 0 then value else ShiftedRight(value / 0x100, k - 1)
  }

  lemma {:induction false} SpellAt(value: nat, count: nat, i: nat)
    requires i < count
    ensures Spell(value, count)[i] == ShiftedRight(value, count - 1 - i) % 0x100
  {
    if i < count - 1 {
      SpellAt(value / 0x100, count - 1, i);
    }
  }

  /** WriteBigEndian appends one byte per turn, each a shift and a mask. */
  method WriteBigEndian(bytes: seq<byte>, value: nat, count: nat) returns (r: seq<byte>)
    ensures r == bytes + Spell(value, count)
  {
    r := bytes;
    for i := 0 to count
      invariant |r| == |bytes| + i
      invariant r == bytes + Spell(value, count)[..i]
    {
      SpellAt(value, count, i);
      r := r + [ShiftedRight(value, count - 1 - i) % 0x100];
    }
  }

  lemma {:induction false} SpelledBelow(bytes: seq<byte>)
    ensures Spelled(bytes) < Pow256(|bytes|)
  {
    if bytes != [] {
      SpelledBelow(bytes[..|bytes| - 1]);
    }
  }

  lemma {:induction false} Pow256Monotone(m: nat, n: nat)
    requires m <= n
    ensures Pow256(m) <= Pow256(n)
  {
    if m < n {
      Pow256Monotone(m, n - 1);
    }
  }

  lemma Pow256Values()
    ensures Pow256(2) == 0x1_0000 && Pow256(4) == 0x1_0000_0000 && Pow256(8) == TWO64
  {
    assert Pow256(4) == 0x1_0000_0000;
    assert Pow256(8) == 0x100 * (0x100 * (0x100 * (0x100 * Pow256(4))));
  }

  /** ReadBigEndian accumulates in an unsigned 64-bit variable; up to eight bytes nothing is lost. */
  method ReadBigEndian(bytes: seq<byte>, count: nat) returns (value: nat)
    requires count <= 8
    ensures value == Spelled(if count <= |bytes| then bytes[..count] else bytes)
  {
    value := 0;
    var i := 0;
    while i < count && i < |bytes|
      invariant 0 <= i <= count && i <= |bytes|
      invariant value == Spelled(bytes[..i])
    {
      assert bytes[..i + 1][..i] == bytes[..i];
      SpelledBelow(bytes[..i + 1]);
      Pow256Monotone(i + 1, 8);
      Pow256Values();
      value := (0x100 * value + bytes[i] as int) % TWO64;
      i := i + 1;
    }
    assert bytes[..|bytes|] == bytes;
  }

  lemma {:induction false} SpelledOfSpell(value: nat, count: nat)
    requires value < Pow256(count)
    ensures Spelled(Spell(value, count)) == value
  {
    if count > 0 {
      SpelledOfSpell(value / 0x100, count - 1);
      assert Spell(value, count)[..count - 1] == Spell(value / 0x100, count - 1);
    }
  }

  lemma {:induction false} SpellOfSpelled(bytes: seq<byte>)
    ensures Spell(Spelled(bytes), |bytes|) == bytes
  {
    if bytes != [] {
      var n := |bytes| - 1;
      var high := Spelled(bytes[..n]);
      SpellOfSpelled(bytes[..n]);
      assert (0x100 * high + bytes[n]) / 0x100 == high && (0x100 * high + bytes[n]) % 0x100 == bytes[n];
    }
  }

  // ----- The codec -----

  /** RegisterCount. */
  function RegisterCount(format: Format): (n: nat)
    ensures n >= 1
  {
    match format.kind
    case UInt16 => 1
    case Int16 => 1
    case UInt32 => 2
    case Int32 => 2
    case UInt64 => 4
    case Int64 => 4
    case String => if (Max0(format.length) + 1) / 2 > 1 then (Max0(format.length) + 1) / 2 else 1
  }

  function Max0(n: int): nat {
    if n < 0 then 0 else n
  }

  predicate Signed(kind: Kind) {
    kind.Int16? || kind.Int32? || kind.Int64?
  }

  function Modulus(kind: Kind): (m: int)
    ensures m > 0 && m % 2 == 0
  {
    match kind
    case UInt16 => 0x1_0000
    case Int16 => 0x1_0000
    case UInt32 => 0x1_0000_0000
    case Int32 => 0x1_0000_0000
    case _ => TWO64
  }

  /** The values a register type can represent. */
  predicate InRange(kind: Kind, n: int) {
    if Signed(kind) then -(Modulus(kind) / 2) <= n < Modulus(kind) / 2 else 0 <= n < Modulus(kind)
  }

  /** value.get<long long>() and value.get<unsigned long long>() of a JSON integer. */
  function AsInt64(n: int): int {
    if n >= TWO63 then n - TWO64 else n
  }

  function AsUInt64(n: int): int {
    if n < 0 then n + TWO64 else n
  }

  /** The integer the encoder works with after the cast. */
  function Cast(kind: Kind, n: int): int {
    if kind.UInt64? then AsUInt64(n) else AsInt64(n)
  }

  /** Two's complement. */
  function ToRaw(kind: Kind, n: int): nat {
    n % Modulus(kind)
  }

  function FromRaw(kind: Kind, raw: nat): int {
    if Signed(kind) && raw >= Modulus(kind) / 2 then raw - Modulus(kind) else raw
  }

  function ZeroBytes(n: nat): (zeros: seq<byte>)
    ensures |zeros| == n && forall i :: 0 <= i < n ==> zeros[i] == 0
  {
    seq(n, _ => 0)
  }

  function Padded(text: seq<byte>, width: nat): (field: seq<byte>)
    requires |text| <= width
    ensures |field| == width
  {
    text + ZeroBytes(width - |text|)
  }

  function Encode(format: Format, value: Value): Result<seq<word>> {
    if format.kind.String? then
      if !value.Text? || |value.bytes| > 2 * RegisterCount(format) then Err
      else Ok(RegistersOf(Padded(value.bytes, 2 * RegisterCount(format)), format.byteSwap, format.wordSwap))
    else if !value.Integer? then Err
    else if !format.kind.UInt64? && !format.kind.Int64? && !InRange(format.kind, AsInt64(value.n)) then Err
    else Ok(RegistersOf(Spell(ToRaw(format.kind, Cast(format.kind, value.n)), 2 * RegisterCount(format)),
                        format.byteSwap, format.wordSwap))
  }

  predicate Blank(b: byte) {
    b == 32 || b == 9
  }

  function UpToNul(bytes: seq<byte>): (r: seq<byte>)
    ensures r <= bytes && 0 !in r
  {
    if bytes == [] || bytes[0] == 0 then [] else [bytes[0]] + UpToNul(bytes[1..])
  }

  function TrimRight(bytes: seq<byte>): (r: seq<byte>)
    ensures r <= bytes && (r == [] || !Blank(r[|r| - 1]))
  {
    if bytes != [] && Blank(bytes[|bytes| - 1]) then TrimRight(bytes[..|bytes| - 1]) else bytes
  }

  function FieldText(bytes: seq<byte>): seq<byte> {
    TrimRight(UpToNul(bytes))
  }

  function Decode(format: Format, registers: seq<word>): Result<Value> {
    if |registers| < RegisterCount(format) then Err
    else
      var bytes := BytesOf(registers[..RegisterCount(format)], format.byteSwap, format.wordSwap);
      if format.kind.String? then
        var limit := if Max0(format.length) < |bytes| then Max0(format.length) else |bytes|;
        Ok(Text(FieldText(bytes[..limit])))
      else Ok(Integer(FromRaw(format.kind, Spelled(bytes))))
  }

  /** DecodeRegisters, loops and all. */
  method DecodeRegisters(format: Format, registers: seq<word>) returns (out: Result<Value>)
    ensures out == Decode(format, registers)
  {
    var needed := RegisterCount(format);
    if |registers| < needed {
      return Err;
    }
    var bytes := ToBytes(registers[..needed], format.byteSwap, format.wordSwap);
    if format.kind.String? {
      var limit := if Max0(format.length) < |bytes| then Max0(format.length) else |bytes|;
      var text := DecodeText(bytes[..limit]);
      return Ok(Text(text));
    }
    var raw := ReadBigEndian(bytes, 2 * needed);
    assert bytes[..2 * needed] == bytes;
    return Ok(Integer(FromRaw(format.kind, raw)));
  }

  method DecodeText(bytes: seq<byte>) returns (text: seq<byte>)
    ensures text == FieldText(bytes)
  {
    text := [];
    var i := 0;
    while i < |bytes| && bytes[i] != 0
      invariant 0 <= i <= |bytes|
      invariant text + UpToNul(bytes[i..]) == UpToNul(bytes)
    {
      assert bytes[i..][1..] == bytes[i + 1..];
      AppendAssociates(text, [bytes[i]], UpToNul(bytes[i + 1..]));
      text := text + [bytes[i]];
      i := i + 1;
    }
    assert UpToNul(bytes[i..]) == [];
    assert text + [] == text;
    while text != [] && Blank(text[|text| - 1])
      invariant TrimRight(text) == FieldText(bytes)
    {
      text := text[..|text| - 1];
    }
  }

  /** EncodeRegisters: the range checks apply to the 16- and 32-bit types only. */
  method EncodeRegisters(format: Format, value: Value) returns (out: Result<seq<word>>)
    ensures out == Encode(format, value)
  {
    var bytes: seq<byte> := [];
    var width := 2 * RegisterCount(format);
    if format.kind.String? {
      if !value.Text? || |value.bytes| > width {
        return Err;
      }
      bytes := Padded(value.bytes, width);
    } else {
      if !value.Integer? {
        return Err;
      }
      if !format.kind.UInt64? && !format.kind.Int64? && !InRange(format.kind, AsInt64(value.n)) {
        return Err;
      }
      bytes := WriteBigEndian([], ToRaw(format.kind, Cast(format.kind, value.n)), width);
      assert bytes == Spell(ToRaw(format.kind, Cast(format.kind, value.n)), width);
    }
    var words := FromBytes(bytes, format.byteSwap, format.wordSwap);
    return Ok(words);
  }

  // ----- What survives -----

  /** A value written to registers and read back. */
  function RoundTrip(format: Format, value: Value): Result<Value> {
    match Encode(format, value)
    case Ok(registers) => Decode(format, registers)
    case Err => Err
  }

  lemma RawInverts(kind: Kind, n: int)
    requires InRange(kind, n)
    ensures FromRaw(kind, ToRaw(kind, n)) == n
  {
    if n >= 0 {
      assert n % Modulus(kind) == n;
    } else {
      assert (n + Modulus(kind)) % Modulus(kind) == n + Modulus(kind);
    }
  }

  lemma WidthIsModulus(format: Format)
    requires !format.kind.String?
    ensures Pow256(2 * RegisterCount(format)) == Modulus(format.kind)
  {
    Pow256Values();
  }

  lemma {:induction false} BufferOfRegisters(format: Format, buffer: seq<byte>)
    requires |buffer| == 2 * RegisterCount(format)
    ensures var registers := RegistersOf(buffer, format.byteSwap, format.wordSwap);
      && |registers| == RegisterCount(format)
      && BytesOf(registers[..RegisterCount(format)], format.byteSwap, format.wordSwap) == buffer
  {
    OrdersInvert([], buffer, format.byteSwap, format.wordSwap);
    var registers := RegistersOf(buffer, format.byteSwap, format.wordSwap);
    assert registers[..RegisterCount(format)] == registers;
  }

  lemma DecodeIntegerBuffer(format: Format, buffer: seq<byte>)
    requires !format.kind.String? && |buffer| == 2 * RegisterCount(format)
    ensures Decode(format, RegistersOf(buffer, format.byteSwap, format.wordSwap)) ==
            Ok(Integer(FromRaw(format.kind, Spelled(buffer))))
  {
    BufferOfRegisters(format, buffer);
  }

  /** Decoding an accepted integer gives the integer the casts left. */
  lemma {:induction false} EncodeThenDecode(format: Format, n: int)
    requires JsonInteger(n) && !format.kind.String? && Encode(format, Integer(n)).Ok?
    ensures RoundTrip(format, Integer(n)) == Ok(Integer(Cast(format.kind, n)))
  {
    var raw := ToRaw(format.kind, Cast(format.kind, n));
    WidthIsModulus(format);
    DecodeIntegerBuffer(format, Spell(raw, 2 * RegisterCount(format)));
    SpelledOfSpell(raw, 2 * RegisterCount(format));
    RawInverts(format.kind, Cast(format.kind, n));
  }

  /** For every integer type and byte order, a JSON integer survives encode and decode exactly when the type can represent
      it; the 16- and 32-bit types accept a value exactly when its signed 64-bit reading is in range. */
  lemma IntegerSurvivesIff(format: Format, n: int)
    requires JsonInteger(n) && !format.kind.String?
    ensures RoundTrip(format, Integer(n)) == Ok(Integer(n)) <==> InRange(format.kind, n)
    ensures Encode(format, Integer(n)).Ok? <==>
            format.kind.UInt64? || format.kind.Int64? || InRange(format.kind, AsInt64(n))
  {
    if Encode(format, Integer(n)).Ok? {
      EncodeThenDecode(format, n);
    }
  }

  /** The refusal of values that do not fit has a gap: an unsigned value of 2^63 or more is read as negative first. */
  lemma LargeUnsignedSlipsThrough(byteSwap: bool, wordSwap: bool)
    ensures !InRange(Int16, TWO64 - 1)
    ensures RoundTrip(Format(Int16, byteSwap, wordSwap, 0), Integer(TWO64 - 1)) == Ok(Integer(-1))
  {
    EncodeThenDecode(Format(Int16, byteSwap, wordSwap, 0), TWO64 - 1);
  }

  lemma FromRawInRange(kind: Kind, raw: nat)
    requires !kind.String? && raw < Modulus(kind)
    ensures InRange(kind, FromRaw(kind, raw)) && JsonInteger(FromRaw(kind, raw))
    ensures ToRaw(kind, Cast(kind, FromRaw(kind, raw))) == raw
  {
    var n := FromRaw(kind, raw);
    if n < 0 {
      assert Cast(kind, n) == n && n + Modulus(kind) == raw;
      assert n % Modulus(kind) == raw % Modulus(kind);
    } else if kind.UInt64? {
      assert Cast(kind, n) == n;
    } else {
      assert Cast(kind, n) == n;
    }
  }

  /** Encoding what was decoded gives the same registers back, for every integer type and byte order. */
  lemma {:induction false} DecodeThenEncode(format: Format, registers: seq<word>)
    requires !format.kind.String? && |registers| == RegisterCount(format)
    ensures var decoded := Decode(format, registers);
      decoded.Ok? && Encode(format, decoded.value) == Ok(registers)
  {
    var bytes := BytesOf(registers, format.byteSwap, format.wordSwap);
    assert registers[..RegisterCount(format)] == registers;
    SpelledBelow(bytes);
    WidthIsModulus(format);
    FromRawInRange(format.kind, Spelled(bytes));
    SpellOfSpelled(bytes);
    OrdersInvert(registers, bytes, format.byteSwap, format.wordSwap);
  }

  lemma {:induction false} UpToNulOfPadded(text: seq<byte>, zeros: nat)
    requires 0 !in text
    ensures UpToNul(text + ZeroBytes(zeros)) == text
  {
    if text != [] {
      assert (text + ZeroBytes(zeros))[1..] == text[1..] + ZeroBytes(zeros);
      UpToNulOfPadded(text[1..], zeros);
    }
  }

  lemma FieldHoldsLength(format: Format)
    requires format.kind.String?
    ensures Max0(format.length) <= 2 * RegisterCount(format)
  {
  }

  lemma {:induction false} DecodeBuffer(format: Format, buffer: seq<byte>)
    requires format.kind.String? && |buffer| == 2 * RegisterCount(format)
    ensures Max0(format.length) <= |buffer|
    ensures Decode(format, RegistersOf(buffer, format.byteSwap, format.wordSwap)) ==
            Ok(Text(FieldText(buffer[..Max0(format.length)])))
  {
    FieldHoldsLength(format);
    BufferOfRegisters(format, buffer);
  }

  lemma {:induction false} TextRoundTrip(format: Format, text: seq<byte>)
    requires format.kind.String? && |text| <= 2 * RegisterCount(format)
    ensures Max0(format.length) <= 2 * RegisterCount(format)
    ensures RoundTrip(format, Text(text)) ==
            Ok(Text(FieldText(Padded(text, 2 * RegisterCount(format))[..Max0(format.length)])))
  {
    DecodeBuffer(format, Padded(text, 2 * RegisterCount(format)));
  }

  /** No NUL, and neither a space nor a tab at the end. */
  predicate Clean(text: seq<byte>) {
    0 !in text && (text == [] || (text[|text| - 1] != 32 && text[|text| - 1] != 9))
  }

  lemma TrimmedIsClean(bytes: seq<byte>)
    requires 0 !in bytes
    ensures Clean(TrimRight(bytes)) && |TrimRight(bytes)| <= |bytes|
  {
    var r := TrimRight(bytes);
    forall b | b in r ensures b in bytes {
      var i :| 0 <= i < |r| && r[i] == b;
      assert bytes[i] == b;
    }
  }

  /** Reading a padded field back gives the text exactly when it is clean and within the limit. */
  lemma {:induction false} FieldReadsBack(text: seq<byte>, width: nat, limit: nat)
    requires |text| <= width && limit <= width
    ensures FieldText(Padded(text, width)[..limit]) == text <==> |text| <= limit && Clean(text)
  {
    var field := Padded(text, width)[..limit];
    TrimmedIsClean(UpToNul(field));
    if |text| <= limit && Clean(text) {
      assert field == text + ZeroBytes(limit - |text|);
      UpToNulOfPadded(text, limit - |text|);
      assert TrimRight(text) == text;
    }
  }

  /** A string survives encode and decode exactly when it is at most `length` bytes, holds no NUL and does not end in a
      space or tab, whatever the byte order. */
  lemma {:induction false} TextSurvivesIff(format: Format, text: seq<byte>)
    requires format.kind.String?
    ensures RoundTrip(format, Text(text)) == Ok(Text(text)) <==> |text| <= Max0(format.length) && Clean(text)
  {
    FieldHoldsLength(format);
    if |text| <= 2 * RegisterCount(format) {
      TextRoundTrip(format, text);
      FieldReadsBack(text, 2 * RegisterCount(format), Max0(format.length));
    }
  }

  /** An odd length accepts one byte more than it returns. */
  lemma OddLengthLosesAByte(format: Format, text: seq<byte>)
    requires format.kind.String? && format.length > 0 && format.length % 2 == 1
    requires |text| == format.length + 1 && Clean(text[..format.length])
    ensures RoundTrip(format, Text(text)) == Ok(Text(text[..format.length]))
  {
    TextRoundTrip(format, text);
    var head := text[..format.length];
    assert Padded(text, 2 * RegisterCount(format))[..format.length] == head;
    FieldReadsBack(head, format.length, format.length);
    assert Padded(head, format.length)[..format.length] == head;
  }
}
