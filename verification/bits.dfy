/** Fixed-width unsigned integers of the interpreter (uint8_t, uint16_t,
    uint32_t) and the bitwise operators its instructions use.

    AND, OR and XOR are defined on naturals one bit at a time, least
    significant bit first; a right shift by k is division by 2^k and a left
    shift is multiplication, truncated to the width of the destination. */
module Bits {

  const BYTE_LIMIT: int := 0x100
  const WORD_LIMIT: int := 0x1_0000

  type Byte = v: int | 0 <= v < 0x100
  type Word = v: int | 0 <= v < 0x1_0000
  /** One display cell (uint32_t). */
  type Pixel = v: int | 0 <= v < 0x1_0000_0000

  /** Storing an int into a uint8_t: the value modulo 256. */
  function ToByte(v: int): (r: Byte)
    ensures 0 <= v < BYTE_LIMIT ==> r == v
    ensures (v - r) % BYTE_LIMIT == 0
  {
    v % BYTE_LIMIT
  }

  /** Storing an int into a uint16_t: the value modulo 65536. */
  function ToWord(v: int): (r: Word)
    ensures 0 <= v < WORD_LIMIT ==> r == v
    ensures (v - r) % WORD_LIMIT == 0
  {
    v % WORD_LIMIT
  }

  function Pow2(k: nat): (r: nat)
    ensures r >= 1
  {
    if k == 0 then 1 else 2 * Pow2(k - 1)
  }

  lemma Pow2Values()
    ensures Pow2(4) == 0x10 && Pow2(8) == 0x100 && Pow2(12) == 0x1000
  {
    assert Pow2(1) == 2;
    assert Pow2(2) == 4;
    assert Pow2(3) == 8;
    assert Pow2(4) == 0x10;
    assert Pow2(5) == 0x20;
    assert Pow2(6) == 0x40;
    assert Pow2(7) == 0x80;
    assert Pow2(8) == 0x100;
    assert Pow2(9) == 0x200;
    assert Pow2(10) == 0x400;
    assert Pow2(11) == 0x800;
  }

  /** Bitwise AND. */
  function And(a: nat, b: nat): (r: nat)
    ensures r <= a && r <= b
    decreases a
  {
    if a == 0 || b == 0 then 0
    else 2 * And(a / 2, b / 2) + (if a % 2 == 1 && b % 2 == 1 then 1 else 0)
  }

  /** Bitwise OR. */
  function Or(a: nat, b: nat): (r: nat)
    ensures r >= a && r >= b
    decreases a
  {
    if a == 0 then b
    else if b == 0 then a
    else 2 * Or(a / 2, b / 2) + (if a % 2 == 1 || b % 2 == 1 then 1 else 0)
  }

  /** Bitwise XOR. */
  function Xor(a: nat, b: nat): (r: nat)
    decreases a
  {
    if a == 0 then b
    else if b == 0 then a
    else 2 * Xor(a / 2, b / 2) + (a % 2 + b % 2) % 2
  }

  /** OR and XOR of two k-bit values are k-bit values. */
  lemma {:induction false} OrXorBelow(a: nat, b: nat, k: nat)
    requires a < Pow2(k) && b < Pow2(k)
    ensures Or(a, b) < Pow2(k) && Xor(a, b) < Pow2(k)
  {
    if a != 0 && b != 0 {
      OrXorBelow(a / 2, b / 2, k - 1);
    }
  }

  function And8(a: Byte, b: Byte): (r: Byte) {
    And(a, b)
  }

  function Or8(a: Byte, b: Byte): (r: Byte) {
    Pow2Values();
    OrXorBelow(a, b, 8);
    Or(a, b)
  }

  function Xor8(a: Byte, b: Byte): (r: Byte) {
    Pow2Values();
    OrXorBelow(a, b, 8);
    Xor(a, b)
  }

  /** Quotient and remainder are unique. */
  lemma DivModUnique(a: int, d: int, q: int, r: int)
    requires d > 0 && 0 <= r < d && a == q * d + r
    ensures a / d == q && a % d == r
  {
    var q0, r0 := a / d, a % d;
    assert q * d + r == q0 * d + r0;
    assert (q - q0) * d == q * d - q0 * d;
    if q > q0 {
      MulAtLeast(q - q0, d);
    } else if q < q0 {
      assert (q0 - q) * d == q0 * d - q * d;
      MulAtLeast(q0 - q, d);
    }
  }

  lemma MulAtLeast(k: int, d: int)
    requires k >= 1 && d > 0
    ensures k * d >= d
  {
    assert k * d == (k - 1) * d + d;
  }

  /** The remainder modulo b * c, split into the digit above c and the
      remainder modulo c. */
  lemma ModSplit(v: nat, b: nat, c: nat)
    requires b > 0 && c > 0
    ensures v % (b * c) == ((v / c) % b) * c + v % c
    ensures v / (b * c) == (v / c) / b
  {
    var q1, r1 := v / c, v % c;
    var q2, r2 := q1 / b, q1 % b;
    assert v == q1 * c + r1;
    assert q1 == q2 * b + r2;
    Distrib(q2 * b, r2, c);
    MulAssoc(q2, b, c);
    assert v == q2 * (b * c) + (r2 * c + r1);
    MulMonotone(r2, b - 1, c);
    Distrib(b - 1, 1, c);
    DivModUnique(v, b * c, q2, r2 * c + r1);
  }

  lemma Distrib(x: int, y: int, c: int)
    ensures (x + y) * c == x * c + y * c
  {
  }

  lemma MulAssoc(a: int, b: int, c: int)
    ensures (a * b) * c == a * (b * c)
  {
  }

  lemma MulMonotone(x: int, y: int, c: int)
    requires x <= y && c >= 0
    ensures x * c <= y * c
  {
    assert y * c - x * c == (y - x) * c;
  }

  /** Dividing by 2 and then by p is dividing by 2p; the bits below 2p are
      the bits below p of a / 2, shifted, plus the lowest bit of a. */
  lemma HalfDivMod(a: nat, p: nat)
    requires p > 0
    ensures (a / 2) / p == a / (2 * p)
    ensures a % (2 * p) == 2 * ((a / 2) % p) + a % 2
  {
    var q, r := (a / 2) / p, (a / 2) % p;
    assert a == q * (2 * p) + (2 * r + a % 2);
    DivModUnique(a, 2 * p, q, 2 * r + a % 2);
  }

  /** AND with 2^k - 1 keeps the k lowest bits. */
  lemma {:induction false} AndLowBits(a: nat, k: nat)
    ensures And(a, Pow2(k) - 1) == a % Pow2(k)
  {
    var P := Pow2(k);
    if k == 0 {
      assert P == 1;
    } else if a == 0 {
      DivModUnique(0, P, 0, 0);
    } else {
      var p := Pow2(k - 1);
      assert P == 2 * p;
      var M := P - 1;
      assert M != 0 && M / 2 == p - 1 && M % 2 == 1;
      AndLowBits(a / 2, k - 1);
      HalfDivMod(a, p);
      assert And(a, M) == 2 * And(a / 2, p - 1) + (if a % 2 == 1 then 1 else 0);
    }
  }

  /** `a >> k`, one bit at a time: the bits of a at and above 2^k. */
  function Above(a: nat, k: nat): (r: nat)
    ensures r == a / Pow2(k)
  {
    if k == 0 then a
    else
      HalfDivMod(a, Pow2(k - 1));
      Above(a / 2, k - 1)
  }

  /** AND acts independently on the bits at and above 2^k and on those below. */
  lemma {:induction false} AndSplit(a: nat, b: nat, k: nat)
    ensures And(a, b) == And(Above(a, k), Above(b, k)) * Pow2(k) + And(a % Pow2(k), b % Pow2(k))
  {
    var P := Pow2(k);
    if k == 0 {
      assert P == 1;
    } else if a == 0 || b == 0 {
      DivModUnique(0, P, 0, 0);
    } else {
      var p := Pow2(k - 1);
      AndSplit(a / 2, b / 2, k - 1);
      var high := And(Above(a, k), Above(b, k));
      var low := And((a / 2) % p, (b / 2) % p);
      AndLowStep(a, b, p);
      Doubling(high, p);
    }
  }

  lemma Doubling(h: int, p: int)
    ensures h * (2 * p) == 2 * (h * p)
  {
  }

  /** The bits of a AND b below 2p, from the bits of a / 2 and b / 2 below p. */
  lemma AndLowStep(a: nat, b: nat, p: nat)
    requires p > 0
    ensures And(a % (2 * p), b % (2 * p)) == 2 * And((a / 2) % p, (b / 2) % p) + (if a % 2 == 1 && b % 2 == 1 then 1 else 0)
  {
    HalfDivMod(a, p);
    HalfDivMod(b, p);
    AndDouble((a / 2) % p, (b / 2) % p, a % 2, b % 2);
  }

  /** AND on values written as a shifted part and a lowest bit. */
  lemma AndDouble(ra: nat, rb: nat, ea: nat, eb: nat)
    requires ea < 2 && eb < 2
    ensures And(2 * ra + ea, 2 * rb + eb) == 2 * And(ra, rb) + (if ea == 1 && eb == 1 then 1 else 0)
  {
    var a', b' := 2 * ra + ea, 2 * rb + eb;
    assert a' / 2 == ra && a' % 2 == ea;
    assert b' / 2 == rb && b' % 2 == eb;
  }

  /** AND with a fixed mask is idempotent: the result has no bit outside the mask. */
  lemma {:induction false} AndIdempotent(a: nat, b: nat)
    ensures And(And(a, b), b) == And(a, b)
    decreases a
  {
    if a != 0 && b != 0 {
      var h := And(a / 2, b / 2);
      var e := if a % 2 == 1 && b % 2 == 1 then 1 else 0;
      var c := And(a, b);
      assert c == 2 * h + e;
      assert c / 2 == h && c % 2 == e;
      AndIdempotent(a / 2, b / 2);
      if c != 0 {
        assert And(c, b) == 2 * And(h, b / 2) + (if e == 1 && b % 2 == 1 then 1 else 0);
      }
    }
  }

  lemma {:induction false} OrIdempotent(a: nat, b: nat)
    ensures Or(Or(a, b), b) == Or(a, b)
    decreases a + b
  {
    if a == 0 {
      OrSelf(b);
    } else if b != 0 {
      OrIdempotent(a / 2, b / 2);
    }
  }

  lemma {:induction false} OrSelf(a: nat)
    ensures Or(a, a) == a
  {
    if a != 0 {
      OrSelf(a / 2);
    }
  }

  lemma {:induction false} XorSelf(a: nat)
    ensures Xor(a, a) == 0
  {
    if a != 0 {
      XorSelf(a / 2);
    }
  }

  lemma {:induction false} XorSelfInverse(a: nat, b: nat)
    ensures Xor(Xor(a, b), b) == a
    decreases a + b
  {
    if a == 0 {
      XorSelf(b);
    } else if b != 0 {
      var c := Xor(a, b);
      XorHalves(a, b);
      XorSelfInverse(a / 2, b / 2);
      ParityCancel(a % 2, b % 2);
      if c == 0 {
        assert Xor(0, b / 2) == b / 2;
        SameHalves(b, a);
      } else {
        XorHalves(c, b);
        SameHalves(Xor(c, b), a);
      }
    }
  }

  lemma ParityCancel(x: nat, y: nat)
    requires x < 2 && y < 2
    ensures ((x + y) % 2 + y) % 2 == x
  {
  }

  lemma XorHalves(a: nat, b: nat)
    requires a != 0 && b != 0
    ensures Xor(a, b) / 2 == Xor(a / 2, b / 2)
    ensures Xor(a, b) % 2 == (a % 2 + b % 2) % 2
  {
  }

  lemma SameHalves(u: nat, v: nat)
    requires u / 2 == v / 2 && u % 2 == v % 2
    ensures u == v
  {
  }

  /** AND with 2^k keeps bit k alone. */
  lemma {:induction false} AndPow2(a: nat, k: nat)
    ensures And(a, Pow2(k)) == ((a / Pow2(k)) % 2) * Pow2(k)
  {
    if k == 0 {
      LowBit(a);
    } else if a != 0 {
      var p := Pow2(k - 1);
      assert Pow2(k) == 2 * p && Pow2(k) % 2 == 0;
      AndPow2(a / 2, k - 1);
      HalfDivMod(a, p);
      Doubling((a / 2 / p) % 2, p);
    }
  }

  lemma {:induction false} AndSelf(a: nat)
    ensures And(a, a) == a
  {
    if a != 0 {
      AndSelf(a / 2);
    }
  }

  /** AND is commutative. */
  lemma {:induction false} AndComm(a: nat, b: nat)
    ensures And(a, b) == And(b, a)
    decreases a
  {
    if a != 0 && b != 0 {
      AndComm(a / 2, b / 2);
    }
  }

  /** `v & 0x1`: the lowest bit. */
  lemma LowBit(v: nat)
    ensures And(v, 1) == v % 2
  {
    assert Pow2(1) == 2;
    AndLowBits(v, 1);
  }

  /** `v & 0xFF`: the low byte. */
  lemma LowByte(v: nat)
    ensures And(v, 0xFF) == v % 0x100
  {
    Pow2Values();
    AndLowBits(v, 8);
  }

  /** `(v & 0x80) >> 7` on a byte: its most significant bit. */
  lemma TopBit(v: Byte)
    ensures And(v, 0x80) / 0x80 == v / 0x80
  {
    assert Pow2(7) == 0x80 by {
      Pow2Values();
      assert Pow2(5) == 0x20;
    }
    AndPow2(v, 7);
  }

  /** `v & 0xFF` as a byte. */
  function LowByteOf(v: nat): (r: Byte)
    ensures r == v % 0x100
  {
    LowByte(v);
    And(v, 0xFF)
  }

  /** `(v & 0x80) >> 7` on a byte: its most significant bit. */
  function TopBitOf(v: Byte): (r: Byte)
    ensures r == v / 0x80 && r <= 1
  {
    TopBit(v);
    And(v, 0x80) / 0x80
  }

  /** `v <<= 1` on a uint8_t: the bit shifted out is lost, and the result,
      shifted back, is v without its most significant bit. */
  function ShiftLeftByte(v: Byte): (r: Byte)
    ensures r == (2 * v) % 0x100
    ensures r % 2 == 0 && r / 2 == v % 0x80
  {
    ToByte(v * 2)
  }
}
