/** Which register and which byte carries which part of a value (src/ModbusCodec.cpp): positional laws of the codec, in
    powers of 65536 and without its buffers. */
module ModbusCodecOrder {
  import opened Bytes
  import opened ModbusCodec

  /** A register's contribution: its value, or its two bytes exchanged. */
  function Digit(register: word, byteSwap: bool): word {
    if byteSwap then 0x100 * (register % 0x100) + register / 0x100 else register
  }

  function Power(n: nat): (p: nat)
    ensures p >= 1
  {
    if n == 0 then 1 else 0x1_0000 * Power(n - 1)
  }

  /** Which power of 65536 register i of n counts: the first is the highest, or the lowest under a word swap. */
  function Exponent(n: nat, i: nat, wordSwap: bool): nat
    requires i < n
  {
    if wordSwap then i else n - 1 - i
  }

  /** The sum of the first k of n registers, each times its power. */
  function Sum(registers: seq<word>, n: nat, k: nat, byteSwap: bool, wordSwap: bool): nat
    requires k <= |registers| && k <= n
  {
    if k == 0 then 0 else
      Sum(registers, n, k - 1, byteSwap, wordSwap) +
      Digit(registers[k - 1], byteSwap) * Power(Exponent(n, k - 1, wordSwap))
  }

  // ----- The buffer of a register run -----

  lemma {:induction false} SpelledConcat(a: seq<byte>, b: seq<byte>)
    ensures Spelled(a + b) == Spelled(a) * Pow256(|b|) + Spelled(b)
    decreases |b|
  {
    if b == [] {
      assert a + b == a;
    } else {
      var front := b[..|b| - 1];
      assert (a + b)[..|a + b| - 1] == a + front;
      SpelledConcat(a, front);
      ScaleSum(Spelled(a), Pow256(|front|), Spelled(front), b[|b| - 1]);
    }
  }

  lemma ScaleSum(x: nat, p: nat, y: nat, z: nat)
    ensures 0x100 * (x * p + y) + z == x * (0x100 * p) + (0x100 * y + z)
  {
    assert 0x100 * (x * p) == x * (0x100 * p);
  }

  lemma {:induction false} SpreadConcat(a: seq<word>, b: seq<word>, byteSwap: bool)
    ensures Spread(a + b, byteSwap) == Spread(a, byteSwap) + Spread(b, byteSwap)
  {
    if a == [] {
      assert a + b == b;
    } else {
      assert (a + b)[1..] == a[1..] + b;
      SpreadConcat(a[1..], b, byteSwap);
    }
  }

  lemma SpreadOne(w: word, byteSwap: bool)
    ensures Spread([w], byteSwap) == WordBytes(w, byteSwap)
  {
    var one, none: seq<word> := [w], [];
    assert one[1..] == none && Spread(none, byteSwap) == [];
  }

  lemma SpelledWord(w: word, byteSwap: bool)
    ensures Spelled(WordBytes(w, byteSwap)) == Digit(w, byteSwap)
  {
    var bytes := WordBytes(w, byteSwap);
    var first := bytes[..1];
    assert first == [bytes[0]] && first[..0] == [];
    assert Spelled(first) == bytes[0];
  }

  lemma {:induction false} Pow256Power(n: nat)
    ensures Pow256(2 * n) == Power(n)
  {
    if n > 0 {
      Pow256Power(n - 1);
      assert Pow256(2 * n) == 0x100 * Pow256(2 * n - 1);
    }
  }

  lemma ScaledTerm(d: nat, p: nat, x: nat)
    ensures 0x1_0000 * x + d * (0x1_0000 * p) == 0x1_0000 * (x + d * p)
  {
    assert d * (0x1_0000 * p) == 0x1_0000 * (d * p);
  }

  lemma {:induction false} ScaledSum(registers: seq<word>, n: nat, k: nat, byteSwap: bool)
    requires k <= |registers| && k <= n
    ensures Sum(registers, n + 1, k, byteSwap, false) == 0x1_0000 * Sum(registers, n, k, byteSwap, false)
    decreases k
  {
    if k > 0 {
      ScaledSum(registers, n, k - 1, byteSwap);
      ScaledTerm(Digit(registers[k - 1], byteSwap), Power(n - k), Sum(registers, n, k - 1, byteSwap, false));
      assert Power(n + 1 - k) == 0x1_0000 * Power(n - k);
    }
  }

  lemma {:induction false} SumOfFront(registers: seq<word>, more: seq<word>, n: nat, k: nat, byteSwap: bool, wordSwap: bool)
    requires k <= |registers| && k <= n
    ensures Sum(registers + more, n, k, byteSwap, wordSwap) == Sum(registers, n, k, byteSwap, wordSwap)
    decreases k
  {
    if k > 0 {
      SumOfFront(registers, more, n, k - 1, byteSwap, wordSwap);
    }
  }

  lemma SpelledSnoc(front: seq<word>, last: word, byteSwap: bool)
    ensures Spelled(Spread(front + [last], byteSwap)) ==
            0x1_0000 * Spelled(Spread(front, byteSwap)) + Digit(last, byteSwap)
  {
    var one := [last];
    SpreadConcat(front, one, byteSwap);
    SpreadOne(last, byteSwap);
    SpelledWord(last, byteSwap);
    SpelledConcat(Spread(front, byteSwap), WordBytes(last, byteSwap));
    Pow256Power(1);
  }

  lemma SpelledCons(first: word, rest: seq<word>, byteSwap: bool)
    ensures Spelled(Spread([first] + rest, byteSwap)) ==
            Digit(first, byteSwap) * Power(|rest|) + Spelled(Spread(rest, byteSwap))
  {
    var one := [first];
    SpreadConcat(one, rest, byteSwap);
    SpreadOne(first, byteSwap);
    SpelledWord(first, byteSwap);
    SpelledConcat(WordBytes(first, byteSwap), Spread(rest, byteSwap));
    Pow256Power(|rest|);
  }

  lemma {:induction false} InOrderIsSum(registers: seq<word>, byteSwap: bool)
    ensures Spelled(Spread(registers, byteSwap)) == Sum(registers, |registers|, |registers|, byteSwap, false)
    decreases |registers|
  {
    if registers != [] {
      var n := |registers| - 1;
      var front, last := registers[..n], registers[n];
      assert registers == front + [last];
      InOrderIsSum(front, byteSwap);
      SpelledSnoc(front, last, byteSwap);
      ScaledSum(front, n, n, byteSwap);
      SumOfFront(front, [last], n + 1, n, byteSwap, false);
    }
  }

  lemma {:induction false} ReversedIsSum(registers: seq<word>, byteSwap: bool)
    ensures Spelled(Spread(Reverse(registers), byteSwap)) == Sum(registers, |registers|, |registers|, byteSwap, true)
    decreases |registers|
  {
    if registers != [] {
      var n := |registers| - 1;
      var front, last := registers[..n], registers[n];
      assert registers == front + [last];
      assert Reverse(registers) == [last] + Reverse(front);
      ReversedIsSum(front, byteSwap);
      SpelledCons(last, Reverse(front), byteSwap);
      SumIgnoresCount(front, n, n + 1, n, byteSwap);
      SumOfFront(front, [last], n + 1, n, byteSwap, true);
    }
  }

  /** What the buffer of a register run spells. */
  lemma BufferIsSum(registers: seq<word>, byteSwap: bool, wordSwap: bool)
    ensures Spelled(BytesOf(registers, byteSwap, wordSwap)) ==
            Sum(registers, |registers|, |registers|, byteSwap, wordSwap)
  {
    if wordSwap {
      ReversedIsSum(registers, byteSwap);
    } else {
      InOrderIsSum(registers, byteSwap);
    }
  }

  lemma {:induction false} SumIgnoresCount(registers: seq<word>, m: nat, n: nat, k: nat, byteSwap: bool)
    requires k <= |registers| && k <= m && k <= n
    ensures Sum(registers, m, k, byteSwap, true) == Sum(registers, n, k, byteSwap, true)
    decreases k
  {
    if k > 0 {
      SumIgnoresCount(registers, m, n, k - 1, byteSwap);
    }
  }

  // ----- Decoding -----

  function Registers(kind: Kind): nat
    requires !kind.String?
  {
    match kind
    case UInt16 | Int16 => 1
    case UInt32 | Int32 => 2
    case UInt64 | Int64 => 4
  }

  /** Two's complement over a width of n registers. */
  function Interpreted(kind: Kind, raw: nat, n: nat): int {
    if (kind.Int16? || kind.Int32? || kind.Int64?) && 2 * raw >= Power(n) then raw - Power(n) else raw
  }

  lemma PowerValues()
    ensures Power(1) == 0x1_0000 && Power(2) == 0x1_0000_0000 && Power(4) == TWO64
  {
    assert Power(2) == 0x1_0000 * Power(1);
    assert Power(3) == 0x1_0000 * Power(2);
  }

  lemma KindWidth(format: Format)
    requires !format.kind.String?
    ensures RegisterCount(format) == Registers(format.kind) && Modulus(format.kind) == Power(Registers(format.kind))
  {
    PowerValues();
  }

  lemma RawIsSum(registers: seq<word>, n: nat, byteSwap: bool, wordSwap: bool)
    requires n <= |registers|
    ensures Spelled(BytesOf(registers[..n], byteSwap, wordSwap)) == Sum(registers, n, n, byteSwap, wordSwap)
  {
    BufferIsSum(registers[..n], byteSwap, wordSwap);
    SumOfFront(registers[..n], registers[n..], n, n, byteSwap, wordSwap);
    assert registers[..n] + registers[n..] == registers;
  }

  lemma InterpretedIs(format: Format, raw: nat)
    requires !format.kind.String?
    ensures Interpreted(format.kind, raw, Registers(format.kind)) == FromRaw(format.kind, raw)
  {
    KindWidth(format);
  }

  /** An integer decodes to the sum of its registers, each as it stands or with its bytes exchanged, times the power of 65536
      its place in the word order says, read in two's complement. */
  lemma DecodePositional(format: Format, registers: seq<word>)
    requires !format.kind.String? && |registers| >= Registers(format.kind)
    ensures var n := Registers(format.kind);
      Decode(format, registers) ==
      Ok(Integer(Interpreted(format.kind, Sum(registers, n, n, format.byteSwap, format.wordSwap), n)))
  {
    var n := Registers(format.kind);
    KindWidth(format);
    RawIsSum(registers, n, format.byteSwap, format.wordSwap);
    InterpretedIs(format, Sum(registers, n, n, format.byteSwap, format.wordSwap));
  }

  // ----- Encoding -----

  lemma {:induction false} GatherAt(bytes: seq<byte>, byteSwap: bool, k: nat)
    requires 2 * k + 1 < |bytes|
    ensures Gather(bytes, byteSwap)[k] == PairWord(bytes[2 * k], bytes[2 * k + 1], byteSwap)
    decreases k
  {
    if k > 0 {
      GatherAt(bytes[2..], byteSwap, k - 1);
    }
  }

  lemma {:induction false} ShiftedIsDivided(value: nat, e: nat)
    ensures ShiftedRight(value, 2 * e) == value / Power(e)
    decreases e
  {
    if e > 0 {
      assert ShiftedRight(value, 2 * e) == ShiftedRight(value / 0x100, 2 * e - 1) ==
             ShiftedRight(value / 0x100 / 0x100, 2 * e - 2);
      assert value / 0x100 / 0x100 == value / 0x1_0000;
      ShiftedIsDivided(value / 0x1_0000, e - 1);
      DivideTwice(value, 0x1_0000, Power(e - 1));
    }
  }

  lemma {:induction false} ShiftedOnce(value: nat, k: nat)
    ensures ShiftedRight(value, k + 1) == ShiftedRight(value, k) / 0x100
    decreases k
  {
    if k > 0 {
      ShiftedOnce(value / 0x100, k - 1);
    }
  }

  /** A pair of spelled bytes is a digit in base 65536. */
  lemma SpelledPair(value: nat, n: nat, k: nat)
    requires k < n
    ensures var bytes := Spell(value, 2 * n);
      0x100 * (bytes[2 * k] as int) + bytes[2 * k + 1] as int == value / Power(n - 1 - k) % 0x1_0000
  {
    var e := n - 1 - k;
    SpellAt(value, 2 * n, 2 * k);
    SpellAt(value, 2 * n, 2 * k + 1);
    ShiftedOnce(value, 2 * e);
    ShiftedIsDivided(value, e);
    TwoDigits(value / Power(e));
  }

  lemma TwoDigits(y: nat)
    ensures 0x100 * (y / 0x100 % 0x100) + y % 0x100 == y % 0x1_0000
  {
  }

  lemma PairDigit(a: byte, b: byte, byteSwap: bool)
    ensures Digit(PairWord(a, b, byteSwap), byteSwap) == 0x100 * (a as int) + b as int
  {
  }

  lemma RegisterDigit(raw: nat, n: nat, i: nat, byteSwap: bool, wordSwap: bool)
    requires i < n
    ensures var words := RegistersOf(Spell(raw, 2 * n), byteSwap, wordSwap);
      |words| == n && Digit(words[i], byteSwap) == raw / Power(Exponent(n, i, wordSwap)) % 0x1_0000
  {
    var bytes := Spell(raw, 2 * n);
    var k := if wordSwap then n - 1 - i else i;
    GatherAt(bytes, byteSwap, k);
    PairDigit(bytes[2 * k], bytes[2 * k + 1], byteSwap);
    SpelledPair(raw, n, k);
  }

  /** Register i of an encoded integer is the digit of the raw value that its place in the word order says, as it stands or
      with its bytes exchanged. */
  lemma EncodePositional(format: Format, n: int, i: nat)
    requires !format.kind.String? && Encode(format, Integer(n)).Ok? && i < Registers(format.kind)
    ensures var words, count := Encode(format, Integer(n)).value, Registers(format.kind);
      && |words| == count
      && Digit(words[i], format.byteSwap) ==
         Cast(format.kind, n) % Power(count) / Power(Exponent(count, i, format.wordSwap)) % 0x1_0000
  {
    KindWidth(format);
    RegisterDigit(ToRaw(format.kind, Cast(format.kind, n)), Registers(format.kind), i, format.byteSwap, format.wordSwap);
  }

  // ----- Ranges -----

  /** The values each type can represent. */
  predicate Represents(kind: Kind, n: int) {
    match kind
    case UInt16 => 0 <= n <= 65535
    case Int16 => -32768 <= n <= 32767
    case UInt32 => 0 <= n <= 4294967295
    case Int32 => -2147483648 <= n <= 2147483647
    case UInt64 => 0 <= n <= 18446744073709551615
    case Int64 => -9223372036854775808 <= n <= 9223372036854775807
    case String => false
  }

  /** An integer comes back if and only if its type can represent it; a signed 64-bit integer is refused if and only if a
      16- or 32-bit type cannot. */
  lemma SurvivesIffRepresents(format: Format, n: int)
    requires JsonInteger(n) && !format.kind.String?
    ensures RoundTrip(format, Integer(n)) == Ok(Integer(n)) <==> Represents(format.kind, n)
    ensures Represents(Int64, n) ==>
      (Encode(format, Integer(n)).Err? <==> Registers(format.kind) < 4 && !Represents(format.kind, n))
  {
    IntegerSurvivesIff(format, n);
    RangesAgree(format.kind, n);
  }

  lemma RangesAgree(kind: Kind, n: int)
    requires !kind.String?
    ensures InRange(kind, n) <==> Represents(kind, n)
  {
  }

  // ----- Text -----

  lemma {:induction false} SpreadAt(words: seq<word>, byteSwap: bool, k: nat)
    requires k < |words|
    ensures Spread(words, byteSwap)[2 * k] == WordBytes(words[k], byteSwap)[0]
    ensures Spread(words, byteSwap)[2 * k + 1] == WordBytes(words[k], byteSwap)[1]
    decreases k
  {
    if k > 0 {
      SpreadAt(words[1..], byteSwap, k - 1);
    }
  }

  /** Byte j of a text field: the high or low byte of the register its place says. */
  function FieldByte(registers: seq<word>, n: nat, j: nat, byteSwap: bool, wordSwap: bool): byte
    requires n <= |registers| && j < 2 * n
  {
    var register := registers[if wordSwap then n - 1 - j / 2 else j / 2];
    if (j % 2 == 0) != byteSwap then register / 0x100 else register % 0x100
  }

  lemma BufferAt(registers: seq<word>, n: nat, j: nat, byteSwap: bool, wordSwap: bool)
    requires n <= |registers| && j < 2 * n
    ensures BytesOf(registers[..n], byteSwap, wordSwap)[j] == FieldByte(registers, n, j, byteSwap, wordSwap)
  {
    SpreadAt(Ordered(registers[..n], wordSwap), byteSwap, j / 2);
  }

  /** A text decodes from the bytes its registers carry, place by place, up to its length. */
  lemma DecodeTextPositional(format: Format, registers: seq<word>, field: seq<byte>)
    requires format.kind.String? && |registers| >= RegisterCount(format) && |field| == Max0(format.length)
    requires forall j :: 0 <= j < |field| && j < 2 * RegisterCount(format) ==>
      field[j] == FieldByte(registers, RegisterCount(format), j, format.byteSwap, format.wordSwap)
    ensures Decode(format, registers) == Ok(Text(FieldText(field)))
  {
    FieldHoldsLength(format);
    FieldIs(registers, RegisterCount(format), field, format.byteSwap, format.wordSwap);
  }

  lemma FieldIs(registers: seq<word>, n: nat, field: seq<byte>, byteSwap: bool, wordSwap: bool)
    requires n <= |registers| && |field| <= 2 * n
    requires forall j :: 0 <= j < |field| ==> field[j] == FieldByte(registers, n, j, byteSwap, wordSwap)
    ensures BytesOf(registers[..n], byteSwap, wordSwap)[..|field|] == field
  {
    var bytes := BytesOf(registers[..n], byteSwap, wordSwap);
    forall j | 0 <= j < |field| ensures bytes[j] == field[j] {
      BufferAt(registers, n, j, byteSwap, wordSwap);
    }
  }

  /** And encodes into registers that carry its bytes, padded with zeros, place by place. */
  lemma EncodeTextPositional(format: Format, text: seq<byte>, j: nat)
    requires format.kind.String? && Encode(format, Text(text)).Ok? && j < 2 * RegisterCount(format)
    ensures var words, n := Encode(format, Text(text)).value, RegisterCount(format);
      && |words| == n
      && FieldByte(words, n, j, format.byteSwap, format.wordSwap) == if j < |text| then text[j] else 0
  {
    var n := RegisterCount(format);
    var buffer := Padded(text, 2 * n);
    var words := RegistersOf(buffer, format.byteSwap, format.wordSwap);
    BufferOfRegisters(format, buffer);
    BufferAt(words, n, j, format.byteSwap, format.wordSwap);
  }
}
