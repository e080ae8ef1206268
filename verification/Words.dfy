/**
 * Machine words and the bit operations of the driver, as arithmetic on naturals.
 *
 * The driver computes in unsigned 32- and 64-bit words.  A word is a number below 2^32 or 2^64 here,
 * and every operation that can leave this range is followed by a wrap.  Wraps and remainders with a
 * variable divisor are recursive functions, so that no division enters a proof unasked; lemmas tie
 * them to % where a result is stated with it.
 */
module Words {

  const TWO16 := 0x1_0000
  const TWO32 := 0x1_0000_0000
  const TWO64 := 0x1_0000_0000_0000_0000

  type Byte = x: int | 0 <= x < 256
  type U32 = x: int | 0 <= x < TWO32
  type U64 = x: int | 0 <= x < TWO64

  /** Unsigned 32-bit wrap-around, by subtraction so that no remainder enters a proof unasked. */
  function Wrap32(x: nat): U32 {
    if x < TWO32 then x else Wrap32(x - TWO32)
  }

  /** Unsigned 32-bit subtraction. */
  function Sub32(x: nat, y: nat): U32
    decreases y - x
  {
    if y <= x then Wrap32(x - y) else Sub32(x + TWO32, y)
  }

  lemma {:induction false} Wrap32IsMod(x: nat)
    ensures Wrap32(x) == x % TWO32
  {
    if x >= TWO32 {
      Wrap32IsMod(x - TWO32);
    }
  }

  /** Unsigned 64-bit wrap-around, by subtraction so that no remainder enters a proof unasked. */
  function Wrap64(x: nat): U64 {
    if x < TWO64 then x else Wrap64(x - TWO64)
  }

  lemma {:induction false} WrapIsMod(x: nat)
    ensures Wrap64(x) == x % TWO64
  {
    if x >= TWO64 {
      WrapIsMod(x - TWO64);
    }
  }

  /** PCI_DMA_L: the 32 least significant bits of a bus address. */
  function Lo32(a: U64): U32 {
    a % TWO32
  }

  /** PCI_DMA_H: the 32 most significant bits of a bus address. */
  function Hi32(a: U64): U32 {
    a / TWO32
  }

  /** The address a device assembles from a high and a low register or descriptor word. */
  function Join64(hi: U32, lo: U32): U64 {
    hi * TWO32 + lo
  }

  function Min(a: int, b: int): int {
    if a <= b then a else b
  }

  lemma {:induction false} WrapAdd(a: nat, b: nat)
    ensures Wrap64(Wrap64(a) + b) == Wrap64(a + b)
  {
    if a >= TWO64 {
      WrapAdd(a - TWO64, b);
      assert Wrap64(a + b) == Wrap64(a - TWO64 + b);
    }
  }

  lemma {:induction false} WrapAdd32(a: nat, b: nat)
    ensures Wrap32(Wrap32(a) + b) == Wrap32(a + b)
  {
    if a >= TWO32 {
      WrapAdd32(a - TWO32, b);
      assert Wrap32(a + b) == Wrap32(a - TWO32 + b);
    }
  }

  /** What a 32-bit sum has grown by. */
  lemma {:induction false} Sub32OfSum(x: U32, n: nat)
    ensures Sub32(Wrap32(x + n), x) == Wrap32(n)
  {
    if n >= TWO32 {
      Sub32OfSum(x, n - TWO32);
      assert Wrap32(x + n) == Wrap32(x + (n - TWO32));
    }
  }

  lemma {:induction false} WrapDistinct(a: nat, i: nat, j: nat)
    requires i < j < TWO64
    ensures Wrap64(a + i) != Wrap64(a + j)
  {
    if a >= TWO64 {
      WrapDistinct(a - TWO64, i, j);
      assert Wrap64(a + i) == Wrap64(a - TWO64 + i) && Wrap64(a + j) == Wrap64(a - TWO64 + j);
    }
  }

  type BitNo = i: bv32 | i < 32

  /** Bit i of a 32-bit register. */
  predicate Bit(w: bv32, i: BitNo) {
    (w >> i) & 1 == 1
  }

  function Pow2(k: nat): (p: nat)
    ensures p >= 1
  {
    if k == 0 then 1 else 2 * Pow2(k - 1)
  }

  ghost predicate IsPow2(x: nat) {
    exists k: nat :: Pow2(k) == x
  }

  /** C's bitwise `&` on unsigned operands of any width. */
  function BitAnd(x: nat, y: nat): nat
    decreases x
  {
    if x == 0 || y == 0 then 0
    else 2 * BitAnd(x / 2, y / 2) + (if x % 2 == 1 && y % 2 == 1 then 1 else 0)
  }

  lemma {:induction false} HalvedMod(x: nat, p: nat)
    requires p >= 1
    ensures x % (2 * p) == 2 * ((x / 2) % p) + x % 2
  {
    var h := x / 2;
    var q, r := h / p, h % p;
    assert h == p * q + r;
    assert x == (2 * p) * q + (2 * r + x % 2) by {
      assert 2 * (p * q) == (2 * p) * q;
    }
    assert 0 <= 2 * r + x % 2 < 2 * p;
    DivModUnique(x, 2 * p, q, 2 * r + x % 2);
  }

  lemma {:induction false} MulDistributes(d: int, a: int, b: int)
    ensures d * (a + b) == d * a + d * b
  {
  }

  lemma {:induction false} MulAssociates(a: int, b: int, c: int)
    ensures (a * b) * c == a * (b * c)
  {
  }

  lemma {:induction false} MulAtLeast(d: nat, e: int)
    requires e >= 1
    ensures d * e >= d
  {
    MulDistributes(d, e - 1, 1);
  }

  lemma {:induction false} QuotientNotLess(d: nat, q: int, r: nat, q': int, r': nat)
    requires r < d && d * q + r == d * q' + r'
    ensures q >= q'
  {
    if q < q' {
      MulDistributes(d, q, q' - q);
      MulAtLeast(d, q' - q);
    }
  }

  lemma {:induction false} DivModUnique(x: nat, d: nat, q: nat, r: nat)
    requires d >= 1 && x == d * q + r && r < d
    ensures x % d == r && x / d == q
  {
    QuotientNotLess(d, q, r, x / d, x % d);
    QuotientNotLess(d, x / d, x % d, q, r);
  }

  /** Division of unsigned integers. */
  function Quotient(a: nat, d: nat): (q: nat)
    requires d > 0
  {
    QuotientNotLess(d, a / d, a % d, 0, a);
    a / d
  }

  lemma {:induction false} HalvedMask(p: nat)
    requires p >= 1
    ensures (2 * p - 1) / 2 == p - 1 && (2 * p - 1) % 2 == 1
  {
  }

  /** Masking with a power of two less one is the remainder. */
  lemma {:induction false} BitAndLowMask(x: nat, k: nat)
    ensures BitAnd(x, Pow2(k) - 1) == x % Pow2(k)
    decreases k
  {
    if k == 0 {
      assert BitAnd(x, 0) == 0;
    } else {
      var p := Pow2(k - 1);
      BitAndLowMask(x / 2, k - 1);
      HalvedMasks(x, p);
    }
  }

  lemma {:induction false} HalvedAnd(x: nat, p: nat)
    requires p >= 1
    ensures BitAnd(x, 2 * p - 1) == 2 * BitAnd(x / 2, p - 1) + x % 2
  {
    HalvedMask(p);
  }

  lemma {:induction false} HalvedMasks(x: nat, p: nat)
    requires p >= 1 && BitAnd(x / 2, p - 1) == (x / 2) % p
    ensures BitAnd(x, 2 * p - 1) == x % (2 * p)
  {
    HalvedMod(x, p);
    HalvedAnd(x, p);
  }

  lemma {:induction false} MaskIsMod(x: nat, m: nat)
    requires IsPow2(m)
    ensures m >= 1 && BitAnd(x, m - 1) == x % m
  {
    var k: nat :| Pow2(k) == m;
    BitAndLowMask(x, k);
  }

  lemma {:induction false} DivIdentity(a: nat, d: nat)
    requires d >= 1
    ensures a == d * (a / d) + a % d
  {
  }

  lemma {:induction false} TwoLevelDivision(a: nat, m: nat, q: nat, k: nat, j: nat, t: nat)
    requires m >= 1 && t < m && a == (m * q) * k + (m * j + t)
    ensures a % m == t
  {
    MulAssociates(m, q, k);
    MulDistributes(m, q * k, j);
    DivModUnique(a, m, q * k + j, t);
  }

  /** Remainders survive taking a remainder by a multiple first. */
  lemma {:induction false} ModOfMod(a: nat, m: nat, q: nat)
    requires m > 0 && q > 0
    ensures m * q > 0 && (a % (m * q)) % m == a % m
  {
    MulAtLeast(m, q);
    var p := m * q;
    var r := a % p;
    DivIdentity(a, p);
    DivIdentity(r, m);
    TwoLevelDivision(a, m, q, a / p, r / m, r % m);
  }

  /** o mod m, by repeated subtraction. */
  function Phase(o: nat, m: nat): (r: nat)
    requires m > 0
    ensures r < m
    decreases o
  {
    if o < m then o else Phase(o - m, m)
  }

  lemma {:induction false} PhaseIsMod(o: nat, m: nat)
    requires m > 0
    ensures Phase(o, m) == o % m
    decreases o
  {
    if o < m {
      DivModUnique(o, m, 0, o);
    } else {
      PhaseIsMod(o - m, m);
      MulDistributes(m, (o - m) / m, 1);
      DivModUnique(o, m, (o - m) / m + 1, (o - m) % m);
    }
  }
}
