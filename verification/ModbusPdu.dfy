/** Payload layouts common to both ends of the protocol: packed bit arrays and big-endian register arrays
    (src/ModbusProtocol.cpp, src/ModbusClient.cpp). */
module ModbusPdu {
  import opened Bytes
  import opened ModbusCrc

  function Min(a: nat, b: nat): nat {
    if a < b then a else b
  }

  /** (b >> k) & 1 */
  predicate TestBit(b: nat, k: nat) {
    if k == 0 then Odd(b) else TestBit(b / 2, k - 1)
  }

  /** b | (1 << k) */
  function OrBit(b: nat, k: nat): nat {
    if k == 0 then (if Odd(b) then b else b + 1)
    else 2 * OrBit(b / 2, k - 1) + Bit(Odd(b))
  }

  lemma {:induction false} TestBitOfPack(bits: seq<bool>, k: nat)
    requires k < |bits|
    ensures TestBit(Pack(bits), k) == bits[k]
  {
    DoubleThenHalve(Pack(bits[1..]), bits[0]);
    if k > 0 {
      TestBitOfPack(bits[1..], k - 1);
    }
  }

  lemma {:induction false} OrBitOfPack(bits: seq<bool>)
    ensures OrBit(Pack(bits), |bits|) == Pack(bits + [true])
    ensures Pack(bits + [false]) == Pack(bits)
  {
    if bits == [] {
      assert ([] + [true])[1..] == [];
    } else {
      DoubleThenHalve(Pack(bits[1..]), bits[0]);
      OrBitOfPack(bits[1..]);
      assert (bits + [true])[1..] == bits[1..] + [true];
      assert (bits + [false])[1..] == bits[1..] + [false];
    }
  }

  /** The j-th group of eight bits as a byte, first bit least significant, missing bits zero. */
  function Octet(bits: seq<bool>, j: nat): byte {
    var group := bits[Min(8 * j, |bits|)..Min(8 * j + 8, |bits|)];
    PackBelow(group);
    Pow2Monotone(|group|, 8);
    Pow2Sixteen();
    Pack(group)
  }

  function Octets(bits: seq<bool>, n: nat): (bytes: seq<byte>)
    ensures |bytes| == n
    ensures forall j :: 0 <= j < n ==> bytes[j] == Octet(bits, j)
  {
    seq(n, j requires 0 <= j => Octet(bits, j))
  }

  function PackBits(bits: seq<bool>): (bytes: seq<byte>)
    ensures |bytes| == (|bits| + 7) / 8
  {
    Octets(bits, (|bits| + 7) / 8)
  }

  function UnpackBits(bytes: seq<byte>, count: nat): (bits: seq<bool>)
    requires count <= 8 * |bytes|
    ensures |bits| == count
    ensures forall i :: 0 <= i < count ==> bits[i] == TestBit(bytes[i / 8], i % 8)
  {
    seq(count, i requires 0 <= i < count <= 8 * |bytes| => TestBit(bytes[i / 8], i % 8))
  }

  lemma BitOfOctet(bits: seq<bool>, j: nat, k: nat)
    requires k < 8 && 8 * j + k < |bits|
    ensures TestBit(Octet(bits, j), k) == bits[8 * j + k]
  {
    var group := bits[Min(8 * j, |bits|)..Min(8 * j + 8, |bits|)];
    assert group[k] == bits[8 * j + k];
    TestBitOfPack(group, k);
  }

  /** Unpacking undoes packing. */
  lemma {:induction false} UnpackOfPack(bits: seq<bool>)
    ensures UnpackBits(PackBits(bits), |bits|) == bits
  {
    forall i | 0 <= i < |bits| ensures TestBit(PackBits(bits)[i / 8], i % 8) == bits[i] {
      BitOfOctet(bits, i / 8, i % 8);
    }
  }

  /** One more bit, number 8q + r, reaches only byte q. */
  lemma {:induction false} OctetGrows(bits: seq<bool>, bit: bool, q: nat, r: nat, j: nat)
    requires |bits| == 8 * q + r && r < 8
    ensures Octet(bits + [bit], j) == if j == q && bit then OrBit(Octet(bits, j), r) else Octet(bits, j)
  {
    var more := bits + [bit];
    var group := bits[Min(8 * j, |bits|)..Min(8 * j + 8, |bits|)];
    var grown := more[Min(8 * j, |more|)..Min(8 * j + 8, |more|)];
    if j == q {
      assert |group| == r;
      assert grown == group + [bit];
      OrBitOfPack(group);
    } else {
      assert grown == group;
    }
  }

  /** The packing loop of Handle and of DoWriteCoils: a zeroed byte vector with one bit set at a time. */
  method PackLoop(bits: seq<bool>) returns (bytes: seq<byte>)
    ensures bytes == PackBits(bits)
  {
    var n := (|bits| + 7) / 8;
    bytes := seq(n, _ => 0);
    assert bytes == Octets(bits[..0], n);
    for i := 0 to |bits|
      invariant bytes == Octets(bits[..i], n)
    {
      forall j | 0 <= j < n ensures Octet(bits[..i + 1], j) ==
        if j == i / 8 && bits[i] then OrBit(Octet(bits[..i], j), i % 8) else Octet(bits[..i], j)
      {
        assert bits[..i + 1] == bits[..i] + [bits[i]];
        OctetGrows(bits[..i], bits[i], i / 8, i % 8, j);
      }
      if bits[i] {
        assert Octet(bits[..i + 1], i / 8) == OrBit(bytes[i / 8], i % 8);
        bytes := bytes[i / 8 := OrBit(bytes[i / 8], i % 8)];
      }
    }
    assert bits[..|bits|] == bits;
  }

  /** Registers as bytes, most significant byte first. */
  function WordsToBytes(words: seq<word>): (bytes: seq<byte>)
    ensures |bytes| == 2 * |words|
  {
    if words == [] then [] else BigEndian16(words[0]) + WordsToBytes(words[1..])
  }

  function BytesToWords(bytes: seq<byte>, offset: nat, count: nat): (words: seq<word>)
    requires offset + 2 * count <= |bytes|
    ensures |words| == count
    ensures forall i :: 0 <= i < count ==> words[i] == Word16(bytes, offset + 2 * i)
  {
    seq(count, i requires 0 <= i < count && offset + 2 * count <= |bytes| => Word16(bytes, offset + 2 * i))
  }

  lemma {:induction false} WordsToBytesAt(words: seq<word>, i: nat)
    requires i < |words|
    ensures WordsToBytes(words)[2 * i] == words[i] / 0x100
    ensures WordsToBytes(words)[2 * i + 1] == words[i] % 0x100
  {
    if i > 0 {
      WordsToBytesAt(words[1..], i - 1);
    }
  }

  lemma {:induction false} WordsToBytesAppend(words: seq<word>, value: word)
    ensures WordsToBytes(words + [value]) == WordsToBytes(words) + BigEndian16(value)
  {
    if words == [] {
      assert ([] + [value])[1..] == [];
    } else {
      assert (words + [value])[1..] == words[1..] + [value];
      WordsToBytesAppend(words[1..], value);
    }
  }

  lemma Recombine(data: seq<byte>, k: nat, value: word)
    requires k + 1 < |data| && data[k] == value / 0x100 && data[k + 1] == value % 0x100
    ensures Word16(data, k) == value
  {
  }

  lemma MiddleAt<T>(a: seq<T>, b: seq<T>, c: seq<T>)
    ensures forall i :: 0 <= i < |b| ==> (a + b + c)[|a| + i] == b[i]
  {
  }

  lemma WordsByIndex(data: seq<byte>, offset: nat, bytes: seq<byte>, words: seq<word>)
    requires |bytes| == 2 * |words| && offset + |bytes| <= |data|
    requires forall i :: 0 <= i < |bytes| ==> data[offset + i] == bytes[i]
    requires forall i :: 0 <= i < |words| ==> bytes[2 * i] == words[i] / 0x100 && bytes[2 * i + 1] == words[i] % 0x100
    ensures BytesToWords(data, offset, |words|) == words
  {
    forall i | 0 <= i < |words| ensures Word16(data, offset + 2 * i) == words[i] {
      assert data[offset + 2 * i] == bytes[2 * i] && data[offset + (2 * i + 1)] == bytes[2 * i + 1];
      Recombine(data, offset + 2 * i, words[i]);
    }
  }

  /** Reading registers back from any buffer that holds their bytes. */
  lemma {:induction false} WordsOfBytes(prefix: seq<byte>, words: seq<word>, suffix: seq<byte>)
    ensures BytesToWords(prefix + WordsToBytes(words) + suffix, |prefix|, |words|) == words
  {
    var bytes := WordsToBytes(words);
    forall i | 0 <= i < |words| ensures bytes[2 * i] == words[i] / 0x100 && bytes[2 * i + 1] == words[i] % 0x100 {
      WordsToBytesAt(words, i);
    }
    MiddleAt(prefix, bytes, suffix);
    WordsByIndex(prefix + bytes + suffix, |prefix|, bytes, words);
  }
}
