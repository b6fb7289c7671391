/** Machine words of the gateway: bytes, 16-bit registers and exclusive-or on unsigned numbers. */
module Bytes {

  type byte = x: int | 0 <= x < 0x100
  type word = x: int | 0 <= x < 0x1_0000

  datatype Option<+T> = None | Some(value: T)

  /** The two bytes PutU16 appends: most significant first. */
  function BigEndian16(value: word): (bytes: seq<byte>)
    ensures |bytes| == 2
  {
    [value / 0x100, value % 0x100]
  }

  /** GetU16 at an offset. */
  function Word16(data: seq<byte>, offset: nat): word
    requires offset + 1 < |data|
  {
    0x100 * (data[offset] as int) + data[offset + 1] as int
  }

  /** static_cast<uint16_t> of an int. */
  function Truncate16(value: int): word {
    value % 0x1_0000
  }

  function Pow2(n: nat): (p: nat)
    ensures p >= 1
  {
    if n == 0 then 1 else 2 * Pow2(n - 1)
  }

  predicate Odd(x: nat) {
    x % 2 == 1
  }

  function Bit(b: bool): (n: nat)
    ensures n < 2
  {
    if b then 1 else 0
  }

  /** Exclusive-or of two unsigned numbers, bit by bit from the least significant end. */
  function Xor(x: nat, y: nat): nat {
    if x == 0 && y == 0 then 0
    else 2 * Xor(x / 2, y / 2) + Bit(Odd(x) != Odd(y))
  }

  /** Whether the number of one bits is odd. */
  predicate OddParity(x: nat) {
    x != 0 && Odd(x) != OddParity(x / 2)
  }

  lemma DoubleThenHalve(q: nat, b: bool)
    ensures Odd(2 * q + Bit(b)) == b && (2 * q + Bit(b)) / 2 == q
  {
  }

  lemma SameHalves(a: nat, b: nat)
    requires a / 2 == b / 2 && Odd(a) == Odd(b)
    ensures a == b
  {
  }

  lemma {:induction false} XorHalves(x: nat, y: nat)
    ensures Odd(Xor(x, y)) == (Odd(x) != Odd(y))
    ensures Xor(x, y) / 2 == Xor(x / 2, y / 2)
  {
    if x == 0 && y == 0 {
      assert Xor(0, 0) == 0;
    } else {
      DoubleThenHalve(Xor(x / 2, y / 2), Odd(x) != Odd(y));
    }
  }

  lemma {:induction false} XorZero(x: nat)
    ensures Xor(x, 0) == x && Xor(0, x) == x
  {
    if x != 0 {
      XorZero(x / 2);
    }
  }

  lemma {:induction false} XorSelf(x: nat)
    ensures Xor(x, x) == 0
  {
    if x != 0 {
      XorSelf(x / 2);
    }
  }

  lemma {:induction false} XorCommutes(x: nat, y: nat)
    ensures Xor(x, y) == Xor(y, x)
  {
    if x != 0 || y != 0 {
      XorCommutes(x / 2, y / 2);
    }
  }

  lemma {:induction false} XorAssociates(x: nat, y: nat, z: nat)
    ensures Xor(Xor(x, y), z) == Xor(x, Xor(y, z))
    decreases x + y + z
  {
    if x != 0 || y != 0 || z != 0 {
      var xy, yz := Xor(x, y), Xor(y, z);
      XorHalves(x, y);
      XorHalves(y, z);
      XorHalves(xy, z);
      XorHalves(x, yz);
      XorAssociates(x / 2, y / 2, z / 2);
      SameHalves(Xor(xy, z), Xor(x, yz));
    }
  }

  lemma {:induction false} XorCancels(x: nat, y: nat)
    requires Xor(x, y) == 0
    ensures x == y
  {
    if x != 0 || y != 0 {
      XorHalves(x, y);
      XorCancels(x / 2, y / 2);
    }
  }

  lemma {:induction false} XorBelow(x: nat, y: nat, n: nat)
    requires x < Pow2(n) && y < Pow2(n)
    ensures Xor(x, y) < Pow2(n)
  {
    if n > 0 {
      XorBelow(x / 2, y / 2, n - 1);
      XorHalves(x, y);
    }
  }

  /** A bit set in one operand only is set in the result. */
  lemma {:induction false} XorTop(x: nat, y: nat, n: nat)
    requires x < Pow2(n) <= y < Pow2(n + 1)
    ensures Pow2(n) <= Xor(x, y) < Pow2(n + 1)
  {
    XorHalves(x, y);
    if n == 0 {
      XorZero(0);
    } else {
      XorTop(x / 2, y / 2, n - 1);
    }
  }

  lemma {:induction false} XorParity(x: nat, y: nat)
    ensures OddParity(Xor(x, y)) == (OddParity(x) != OddParity(y))
  {
    if x != 0 || y != 0 {
      XorHalves(x, y);
      XorParity(x / 2, y / 2);
    }
  }

  lemma ProductBetween(x: int, p: int, y: int)
    requires p >= 1 && x * p == y && -p < y < p
    ensures x == 0
  {
    assert x >= 1 ==> x * p >= p;
    assert x <= -1 ==> x * p <= -p;
  }

  lemma QuotientIs(value: nat, p: nat, q: nat, r: nat)
    requires p >= 1 && value == q * p + r && r < p
    ensures value / p == q
  {
    var d := value / p;
    assert value == d * p + value % p;
    assert (d - q) * p == r - value % p;
    ProductBetween(d - q, p, r - value % p);
  }

  lemma Distribute(q: nat, p: nat, r: nat, a: nat)
    ensures (q * p + r) * a == q * (a * p) + r * a
  {
    assert (q * p) * a == q * (a * p);
  }

  lemma StaysBelow(r: nat, p: nat, a: nat, s: nat)
    requires r < p && s < a
    ensures r * a + s < a * p
  {
    assert (r + 1) * a <= p * a;
  }

  lemma DivMod(x: nat, y: nat)
    requires y >= 1
    ensures x == (x / y) * y + x % y && x % y < y
  {
  }

  lemma WholePart(value: nat, a: nat, p: nat, h: nat, s: nat, q: nat, r: nat)
    requires value == h * a + s && s < a && h == q * p + r && r < p
    ensures a * p >= 1 && value / (a * p) == q
  {
    Distribute(q, p, r, a);
    StaysBelow(r, p, a, s);
    QuotientIs(value, a * p, q, r * a + s);
  }

  /** Dividing twice is dividing by the product. */
  lemma DivideTwice(value: nat, a: nat, p: nat)
    requires a >= 1 && p >= 1
    ensures a * p >= 1 && value / a / p == value / (a * p)
  {
    DivMod(value, a);
    DivMod(value / a, p);
    WholePart(value, a, p, value / a, value % a, value / a / p, value / a % p);
  }
}
