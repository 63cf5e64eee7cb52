/**
 * Kotlin's 32-bit `Int` and the bit operations the client applies to it: the
 * `and`, `or`, `shl`, `shr` and `ushr` infix operators, and the byte and bit
 * getters of Bitwise.kt.
 *
 * An `Int` is an integer in [-2^31, 2^31); arithmetic that leaves the range is
 * brought back by `Wrap` (two's complement). Bitwise operators act on the
 * 32-bit pattern `Unsigned(x)` and are defined bit by bit over naturals.
 */
module Bitwise {

  const TWO_31: int := 0x8000_0000
  const TWO_32: int := 0x1_0000_0000

  /** Kotlin's `Int`. */
  type int32 = x: int | -0x8000_0000 <= x < 0x8000_0000

  /** Kotlin's `Byte`. */
  type int8 = x: int | -0x80 <= x < 0x80

  function Pow2(n: nat): (r: nat)
    ensures r >= 1
  {
    if n == 0 then 1 else 2 * Pow2(n - 1)
  }

  /** The 32-bit pattern of an `Int`, read as an unsigned number. */
  function Unsigned(x: int32): (u: nat)
    ensures u < TWO_32
    ensures x >= 0 ==> u == x
    ensures x < 0 ==> u == x + TWO_32
  {
    x % TWO_32
  }

  /** Truncation of an integer to 32 bits, as overflowing `Int` arithmetic does. */
  function Wrap(x: int): (r: int32)
    ensures (r - x) % TWO_32 == 0
    ensures -TWO_31 <= x < TWO_31 ==> r == x
  {
    var u := x % TWO_32;
    if u < TWO_31 then u else u - TWO_32
  }

  /** Truncating an Int's own pattern gives the Int back. */
  lemma WrapUnsigned(x: int32)
    ensures Wrap(Unsigned(x)) == x
  {
  }

  /** Bit `k` of a natural number. */
  predicate TestBit(a: nat, k: nat) {
    (a / Pow2(k)) % 2 == 1
  }

  /** Bitwise OR of two naturals, one binary digit at a time. */
  function BitOr(a: nat, b: nat): nat
    decreases a
  {
    if a == 0 then b
    else if b == 0 then a
    else 2 * BitOr(a / 2, b / 2) + (if a % 2 == 1 || b % 2 == 1 then 1 else 0)
  }

  /** Bitwise AND of two naturals, one binary digit at a time. */
  function BitAnd(a: nat, b: nat): nat
    decreases a
  {
    if a == 0 || b == 0 then 0
    else 2 * BitAnd(a / 2, b / 2) + (if a % 2 == 1 && b % 2 == 1 then 1 else 0)
  }

  /** `x or y` */
  function Or(x: int32, y: int32): int32 {
    Wrap(BitOr(Unsigned(x), Unsigned(y)))
  }

  /** `x and y` */
  function And(x: int32, y: int32): int32 {
    Wrap(BitAnd(Unsigned(x), Unsigned(y)))
  }

  /** `x shl n` for a distance below 32 (the JVM masks larger distances to their low five bits). */
  function Shl(x: int32, n: nat): int32
    requires n < 32
  {
    Wrap(x * Pow2(n))
  }

  /** `x shr n`: arithmetic shift, i.e. division rounding toward negative infinity. */
  function Shr(x: int32, n: nat): int32
    requires n < 32
  {
    Wrap(x / Pow2(n))
  }

  /** `x ushr n`: logical shift of the 32-bit pattern. */
  function Ushr(x: int32, n: nat): int32
    requires n < 32
  {
    Wrap(Unsigned(x) / Pow2(n))
  }

  /** Kotlin's `/` on `Int` for a positive divisor: the quotient is truncated toward zero. */
  function Quot(x: int, d: int): (q: int)
    requires d > 0
    ensures x >= 0 ==> q == x / d
    ensures x < 0 ==> q == -((-x) / d)
    ensures q * d <= x || x < 0
  {
    if x >= 0 then x / d else -((-x) / d)
  }

  // ---------------------------------------------------------------------------
  // Arithmetic facts about powers of two and division.

  lemma {:induction false} MulAtLeast(d: int, m: int)
    requires d > 0 && m >= 1
    ensures d * m >= d
    decreases m
  {
    if m > 1 {
      MulAtLeast(d, m - 1);
      assert d * m == d * (m - 1) + d;
    }
  }

  lemma DivUnique(a: int, d: int, q: int, r: int)
    requires d > 0 && a == d * q + r && 0 <= r < d
    ensures a / d == q && a % d == r
  {
    var q', r' := a / d, a % d;
    assert a == d * q' + r' && 0 <= r' < d;
    if q' > q {
      MulAtLeast(d, q' - q);
      assert false;
    } else if q' < q {
      MulAtLeast(d, q - q');
      assert false;
    }
  }

  lemma {:induction false} Pow2Add(m: nat, n: nat)
    ensures Pow2(m + n) == Pow2(m) * Pow2(n)
    decreases m
  {
    if m > 0 {
      Pow2Add(m - 1, n);
    }
  }

  lemma DivPow2Step(a: nat, k: nat)
    ensures a / Pow2(k + 1) == (a / 2) / Pow2(k)
  {
    var p := Pow2(k);
    var q := a / 2;
    var s, t := q / p, q % p;
    assert q == p * s + t;
    assert a == (2 * p) * s + (2 * t + a % 2);
    DivUnique(a, 2 * p, s, 2 * t + a % 2);
  }

  lemma {:induction false} TestBitStep(a: nat, k: nat)
    requires k > 0
    ensures TestBit(a, k) == TestBit(a / 2, k - 1)
  {
    DivPow2Step(a, k - 1);
  }

  // ---------------------------------------------------------------------------
  // The bitwise operators, bit by bit.

  /** Zero has no bit set. */
  lemma TestBitOfZero(k: nat)
    ensures !TestBit(0, k)
  {
    var q := Pow2(k);
    assert 0 / q == 0;
  }

  lemma {:induction false} BitOrTestBit(a: nat, b: nat, k: nat)
    ensures TestBit(BitOr(a, b), k) == (TestBit(a, k) || TestBit(b, k))
    decreases k
  {
    if a == 0 || b == 0 {
      TestBitOfZero(k);
    } else if k == 0 {
      BitOrTestBitLowest(a, b);
    } else {
      BitOrTestBit(a / 2, b / 2, k - 1);
      BitOrTestBitStep(a, b, k);
    }
  }

  lemma BitOrTestBitLowest(a: nat, b: nat)
    requires a > 0 && b > 0
    ensures TestBit(BitOr(a, b), 0) == (TestBit(a, 0) || TestBit(b, 0))
  {
    var c := if a % 2 == 1 || b % 2 == 1 then 1 else 0;
    LowestBit(BitOr(a, b), BitOr(a / 2, b / 2), c);
    LowestBit(a, a / 2, a % 2);
    LowestBit(b, b / 2, b % 2);
  }

  /** Bit 0 of `2 r + c` is the digit c. */
  lemma LowestBit(o: nat, r: nat, c: nat)
    requires c < 2 && o == 2 * r + c
    ensures TestBit(o, 0) == (c == 1)
  {
    assert Pow2(0) == 1;
    DivUnique(o, 2, r, c);
  }

  lemma BitOrTestBitStep(a: nat, b: nat, k: nat)
    requires a > 0 && b > 0 && k > 0
    requires TestBit(BitOr(a / 2, b / 2), k - 1) == (TestBit(a / 2, k - 1) || TestBit(b / 2, k - 1))
    ensures TestBit(BitOr(a, b), k) == (TestBit(a, k) || TestBit(b, k))
  {
    var o := BitOr(a, b);
    assert o / 2 == BitOr(a / 2, b / 2);
    TestBitStep(o, k);
    TestBitStep(a, k);
    TestBitStep(b, k);
  }

  lemma {:induction false} BitAndTestBit(a: nat, b: nat, k: nat)
    ensures TestBit(BitAnd(a, b), k) == (TestBit(a, k) && TestBit(b, k))
    decreases k
  {
    if a == 0 || b == 0 {
      TestBitOfZero(k);
    } else if k == 0 {
      BitAndTestBitLowest(a, b);
    } else {
      BitAndTestBit(a / 2, b / 2, k - 1);
      BitAndTestBitStep(a, b, k);
    }
  }

  lemma BitAndTestBitLowest(a: nat, b: nat)
    requires a > 0 && b > 0
    ensures TestBit(BitAnd(a, b), 0) == (TestBit(a, 0) && TestBit(b, 0))
  {
    var c := if a % 2 == 1 && b % 2 == 1 then 1 else 0;
    LowestBit(BitAnd(a, b), BitAnd(a / 2, b / 2), c);
    LowestBit(a, a / 2, a % 2);
    LowestBit(b, b / 2, b % 2);
  }

  lemma BitAndTestBitStep(a: nat, b: nat, k: nat)
    requires a > 0 && b > 0 && k > 0
    requires TestBit(BitAnd(a / 2, b / 2), k - 1) == (TestBit(a / 2, k - 1) && TestBit(b / 2, k - 1))
    ensures TestBit(BitAnd(a, b), k) == (TestBit(a, k) && TestBit(b, k))
  {
    var o := BitAnd(a, b);
    assert o / 2 == BitAnd(a / 2, b / 2);
    TestBitStep(o, k);
    TestBitStep(a, k);
    TestBitStep(b, k);
  }

  /** OR of a number below 2^k with a multiple of 2^k is their sum: the bits do not overlap. */
  lemma {:induction false} BitOrDisjoint(a: nat, b: nat, k: nat)
    requires a < Pow2(k)
    ensures BitOr(a, b * Pow2(k)) == a + b * Pow2(k)
    decreases k
  {
    if a == 0 || b == 0 {
    } else {
      assert k > 0;
      var m := b * Pow2(k - 1);
      assert b * Pow2(k) == 2 * m;
      assert (2 * m) / 2 == m && (2 * m) % 2 == 0;
      BitOrDisjoint(a / 2, b, k - 1);
    }
  }

  lemma ModDouble(a: nat, p: nat)
    requires p > 0
    ensures a % (2 * p) == 2 * ((a / 2) % p) + a % 2
  {
    var q := a / 2;
    assert a == (2 * p) * (q / p) + (2 * (q % p) + a % 2);
    DivUnique(a, 2 * p, q / p, 2 * (q % p) + a % 2);
  }

  lemma {:induction false} BitOrCommutes(a: nat, b: nat)
    ensures BitOr(a, b) == BitOr(b, a)
    decreases a
  {
    if a != 0 && b != 0 {
      BitOrCommutes(a / 2, b / 2);
    }
  }

  /** AND with 2^k - 1 keeps the low k bits. */
  lemma {:induction false} BitAndLowMask(a: nat, k: nat)
    ensures BitAnd(a, Pow2(k) - 1) == a % Pow2(k)
    decreases k
  {
    if k == 0 {
    } else if a == 0 {
      DivUnique(0, Pow2(k), 0, 0);
    } else {
      var p := Pow2(k - 1);
      var mask := Pow2(k) - 1;
      assert mask / 2 == p - 1 && mask % 2 == 1;
      BitAndLowMask(a / 2, k - 1);
      ModDouble(a, p);
    }
  }

  /** The two powers of two that bound `Int`. */
  lemma Pow2Int()
    ensures Pow2(31) == TWO_31 && Pow2(32) == TWO_32
  {
    assert Pow2(2) == 4;
    Pow2Add(2, 2);
    Pow2Add(4, 4);
    Pow2Add(8, 8);
    Pow2Add(16, 16);
  }

  /** OR never sets a bit at or above position n when neither operand has one. */
  lemma {:induction false} BitOrBound(a: nat, b: nat, n: nat)
    requires a < Pow2(n) && b < Pow2(n)
    ensures BitOr(a, b) < Pow2(n)
    decreases n
  {
    if a == 0 || b == 0 {
    } else {
      BitOrBound(a / 2, b / 2, n - 1);
    }
  }

  // ---------------------------------------------------------------------------
  // The same facts for Kotlin `Int`.

  lemma DivAddMultiple(x: int, p: int, c: int)
    requires p > 0
    ensures (x + p * c) / p == x / p + c
  {
    assert x + p * c == p * (x / p + c) + x % p;
    DivUnique(x + p * c, p, x / p + c, x % p);
  }

  lemma ModAddMultiple(x: int, p: int, c: int)
    requires p > 0
    ensures (x + p * c) % p == x % p
  {
    DivAddMultiple(x, p, c);
    assert x + p * c == p * (x / p + c) + x % p;
    DivUnique(x + p * c, p, x / p + c, x % p);
  }

  /** 2^32 is an even multiple of 2^k for k < 32. */
  lemma Pow2Divides32(k: nat)
    requires k < 32
    ensures TWO_32 == Pow2(k) * (2 * Pow2(31 - k))
  {
    Pow2Int();
    Pow2Add(k, 32 - k);
  }

  /** Bit k of an Int's pattern is the parity of the Int divided (rounding down) by 2^k. */
  lemma UnsignedBits(x: int32, k: nat)
    requires k < 32
    ensures TestBit(Unsigned(x), k) == ((x / Pow2(k)) % 2 == 1)
  {
    if x < 0 {
      var p, h := Pow2(k), Pow2(31 - k);
      Pow2Divides32(k);
      assert Unsigned(x) == x + p * (2 * h);
      DivAddMultiple(x, p, 2 * h);
      ModAddMultiple(x / p, 2, h);
    }
  }

  /** Or of two non-negative Ints whose bits do not overlap is their sum. */
  lemma OrDisjoint(x: int32, y: int32, k: nat)
    requires k < 31 && 0 <= x < Pow2(k) && 0 <= y && x + y * Pow2(k) < TWO_31
    ensures Shl(y, k) == y * Pow2(k)
    ensures Or(x, Shl(y, k)) == x + y * Pow2(k)
  {
    var v := y * Pow2(k);
    assert 0 <= v by {
      if y > 0 {
        MulAtLeast(y, Pow2(k));
      }
    }
    assert Shl(y, k) == v;
    assert BitOr(x, v) == x + v by {
      BitOrDisjoint(x, y, k);
    }
  }

  /** `or` of two Ints that are both below 2^n (n < 31) stays below 2^n. */
  lemma OrBound(x: int32, y: int32, n: nat)
    requires n < 31 && 0 <= x < Pow2(n) && 0 <= y < Pow2(n)
    ensures 0 <= Or(x, y) < Pow2(n)
  {
    BitOrBound(x, y, n);
    Pow2Int();
    Pow2Add(n, 31 - n);
    MulAtLeast(Pow2(n), Pow2(31 - n));
  }

  lemma OrCommutes(x: int32, y: int32)
    ensures Or(x, y) == Or(y, x)
  {
    BitOrCommutes(Unsigned(x), Unsigned(y));
  }

  /** `0 or y` is `y`. */
  lemma OrZero(y: int32)
    ensures Or(0, y) == y
  {
  }

  /** Reducing an Int's pattern modulo 2^k (k < 32) is reducing the Int itself. */
  lemma UnsignedMod(x: int32, k: nat)
    requires k < 32
    ensures Unsigned(x) % Pow2(k) == x % Pow2(k)
  {
    if x < 0 {
      var p := Pow2(k);
      var h := Pow2(31 - k);
      Pow2Divides32(k);
      assert Unsigned(x) == x + p * (2 * h);
      ModAddMultiple(x, p, 2 * h);
    }
  }

  /** `x and m`, for a mask m = 2^k - 1, is `x` modulo 2^k. */
  lemma AndLowMask(x: int32, m: int32, k: nat)
    requires 0 < k < 31 && m == Pow2(k) - 1
    ensures And(x, m) == x % Pow2(k)
  {
    var u := Unsigned(x);
    BitAndLowMask(u, k);
    UnsignedMod(x, k);
    assert BitAnd(u, m) == x % Pow2(k);
  }

  /** AND with a single bit 2^k isolates that bit. */
  lemma {:induction false} BitAndPow2(a: nat, k: nat)
    ensures BitAnd(a, Pow2(k)) == if TestBit(a, k) then Pow2(k) else 0
    decreases k
  {
    if a == 0 {
      assert a / Pow2(k) == 0;
    } else if k > 0 {
      BitAndPow2(a / 2, k - 1);
      TestBitStep(a, k);
    }
  }

  /** AND with an even mask is the AND of the remaining bits, one position up. */
  lemma BitAndEvenMask(a: nat, m: nat)
    ensures BitAnd(a, 2 * m) == 2 * BitAnd(a / 2, m)
  {
    if a != 0 && m != 0 {
      assert (2 * m) / 2 == m && (2 * m) % 2 == 0;
    }
  }

  /** `b and 0xF0` on a byte clears its low four bits. */
  lemma AndHighNibble(b: int32)
    requires 0 <= b < 0x100
    ensures And(b, 0xF0) == b / 0x10 * 0x10
  {
    BitAndHighNibble(b);
    var c := b / 2 / 2 / 2 / 2;
    assert c == b / 0x10 && c < 0x10;
    BitAndSmallNibble(c);
  }

  lemma BitAndHighNibble(b: nat)
    ensures BitAnd(b, 0xF0) == 0x10 * BitAnd(b / 2 / 2 / 2 / 2, 0x0F)
  {
    BitAndEvenMask(b, 0x78);
    BitAndEvenMask(b / 2, 0x3C);
    BitAndEvenMask(b / 2 / 2, 0x1E);
    BitAndEvenMask(b / 2 / 2 / 2, 0x0F);
  }

  lemma BitAndSmallNibble(c: nat)
    requires c < 0x10
    ensures BitAnd(c, 0x0F) == c
  {
    var p := Pow2(4);
    assert p == 0x10;
    BitAndLowMask(c, 4);
    DivUnique(c, p, 0, c);
  }

  /** `x ushr i and 0x01` is bit i of the 32-bit pattern. */
  lemma UshrLowBit(x: int32, i: nat)
    requires i < 32
    ensures And(Ushr(x, i), 0x01) == (Unsigned(x) / Pow2(i)) % 2
  {
    var u, p := Unsigned(x), Pow2(i);
    var q: int := (u as int) / (p as int);
    DivAtMost(u as int, p as int);
    WrapParity(q);
    assert Pow2(1) == 2;
    AndLowMask(Ushr(x, i), 0x01, 1);
  }

  /** Truncating a 32-bit pattern to an `Int` keeps its lowest bit. */
  lemma WrapParity(q: int)
    requires 0 <= q < TWO_32
    ensures Wrap(q) % 2 == q % 2
  {
    if q >= TWO_31 {
      assert Wrap(q) == q + 2 * -TWO_31;
      ModAddMultiple(q, 2, -TWO_31);
    }
  }

  lemma DivAtMost(a: int, d: int)
    requires a >= 0 && d >= 1
    ensures 0 <= a / d <= a
  {
    if a / d >= 1 {
      MulAtLeast(a / d, d);
    }
  }

  /** The powers of two the protocol code shifts by. */
  lemma Pow2Values()
    ensures Pow2(1) == 2 && Pow2(7) == 0x80 && Pow2(8) == 0x100
    ensures Pow2(14) == 0x4000 && Pow2(16) == 0x1_0000 && Pow2(21) == 0x20_0000
    ensures Pow2(24) == 0x100_0000 && Pow2(28) == 0x1000_0000
  {
    assert Pow2(2) == 4;
    Pow2Add(2, 2);
    Pow2Add(4, 3);
    Pow2Add(4, 4);
    Pow2Add(7, 7);
    Pow2Add(8, 8);
    Pow2Add(14, 7);
    Pow2Add(16, 8);
    Pow2Add(14, 14);
  }

  lemma {:induction false} Pow2Monotone(m: nat, n: nat)
    requires m <= n
    ensures Pow2(m) <= Pow2(n)
    decreases n
  {
    if m < n {
      Pow2Monotone(m, n - 1);
    }
  }

  // ---------------------------------------------------------------------------
  // Setting and clearing one bit.

  /** OR with 2^k sets bit k: no change when it is set already, 2^k more otherwise. */
  lemma {:induction false} BitOrPow2(a: nat, k: nat)
    ensures BitOr(a, Pow2(k)) == if TestBit(a, k) then a else a + Pow2(k)
    decreases k
  {
    if k == 0 {
      assert a / Pow2(0) == a;
    } else {
      TestBitStep(a, k);
      BitOrPow2(a / 2, k - 1);
      var p := Pow2(k - 1);
      assert Pow2(k) == 2 * p;
      assert (2 * p) / 2 == p && (2 * p) % 2 == 0;
    }
  }

  /** AND with every bit below 2^n but bit k clears bit k of a number below 2^n. */
  lemma {:induction false} BitAndClear(a: nat, k: nat, n: nat)
    requires k < n && a < Pow2(n)
    ensures Pow2(k) < Pow2(n)
    ensures BitAnd(a, Pow2(n) - 1 - Pow2(k)) == if TestBit(a, k) then a - Pow2(k) else a
    decreases k, 1
  {
    HalfBelowPow2(a, k, n);
    if k == 0 {
      BitAndClearLowest(a, n);
    } else if a != 0 {
      ClearHalf(a, k, n);
      BitAndClearStep(a, k, n);
    } else {
      BitAndClearZero(k, n);
    }
  }

  /** The recursive case of `BitAndClear`, on the halved number and mask. */
  lemma {:induction false} ClearHalf(a: nat, k: nat, n: nat)
    requires 0 < k < n && a < Pow2(n) && a / 2 < Pow2(n - 1)
    ensures Pow2(k - 1) < Pow2(n - 1)
    ensures BitAnd(a / 2, Pow2(n - 1) - 1 - Pow2(k - 1))
            == if TestBit(a / 2, k - 1) then a / 2 - Pow2(k - 1) else a / 2
    decreases k, 0
  {
    BitAndClear(a / 2, k - 1, n - 1);
  }

  /** The bounds `BitAndClear` recurses with. */
  lemma HalfBelowPow2(a: nat, k: nat, n: nat)
    requires k < n && a < Pow2(n)
    ensures Pow2(n) == 2 * Pow2(n - 1) && a / 2 < Pow2(n - 1)
    ensures Pow2(k) < Pow2(n) && (k > 0 ==> Pow2(k - 1) < Pow2(n - 1))
  {
    Pow2Monotone(k, n - 1);
    if k > 0 {
      Pow2Monotone(k - 1, n - 2);
    }
  }

  /** The case a = 0 of `BitAndClear`: nothing to clear. */
  lemma BitAndClearZero(k: nat, n: nat)
    requires Pow2(k) < Pow2(n)
    ensures BitAnd(0, Pow2(n) - 1 - Pow2(k)) == 0 && !TestBit(0, k)
  {
    var q := Pow2(k);
    assert 0 / q == 0;
  }

  /** The case k = 0 of `BitAndClear`: the mask is even and keeps every higher bit. */
  lemma BitAndClearLowest(a: nat, n: nat)
    requires 0 < n && a < Pow2(n)
    ensures BitAnd(a, Pow2(n) - 1 - Pow2(0)) == if TestBit(a, 0) then a - Pow2(0) else a
  {
    var h := Pow2(n - 1);
    assert Pow2(n) == 2 * h;
    assert a / 2 < h;
    var m := Pow2(n) - 1 - Pow2(0);
    assert Pow2(0) == 1;
    assert TestBit(a, 0) == (a % 2 == 1) by {
      assert a / Pow2(0) == a;
    }
    assert m == 2 * (h - 1);
    BitAndEvenMask(a, h - 1);
    BitAndLowMask(a / 2, n - 1);
    DivUnique(a / 2, h, 0, a / 2);
    assert BitAnd(a, m) == 2 * (a / 2);
  }

  /** The step of `BitAndClear`: the lowest bit of the mask is set, so it keeps the lowest bit of `a`. */
  lemma BitAndClearStep(a: nat, k: nat, n: nat)
    requires 0 < k < n && 0 < a < Pow2(n) && Pow2(n) == 2 * Pow2(n - 1) && Pow2(k - 1) < Pow2(n - 1)
    requires BitAnd(a / 2, Pow2(n - 1) - 1 - Pow2(k - 1))
             == if TestBit(a / 2, k - 1) then a / 2 - Pow2(k - 1) else a / 2
    ensures BitAnd(a, Pow2(n) - 1 - Pow2(k)) == if TestBit(a, k) then a - Pow2(k) else a
  {
    var h := Pow2(n - 1);
    var m := Pow2(n) - 1 - Pow2(k);
    TestBitStep(a, k);
    var p := Pow2(k - 1);
    assert Pow2(k) == 2 * p;
    assert m == 2 * (h - 1 - p) + 1;
    assert m / 2 == h - 1 - p && m % 2 == 1;
    var r := BitAnd(a / 2, h - 1 - p);
    assert BitAnd(a, m) == 2 * r + a % 2;
    assert a == 2 * (a / 2) + a % 2;
  }

  /** Adding 2^n leaves the bits below n alone. */
  lemma TestBitAddPow2(s: nat, k: nat, n: nat)
    requires k < n
    ensures TestBit(s + Pow2(n), k) == TestBit(s, k)
  {
    Pow2Add(k, n - k);
    var e := Pow2(n - k - 1);
    var pk := Pow2(k);
    assert Pow2(n - k) == 2 * e;
    assert Pow2(n) == pk * (2 * e);
    DivAddMultiple(s, pk, 2 * e);
    assert (s + Pow2(n)) / pk == s / pk + 2 * e;
    ModAddMultiple(s / pk, 2, e);
  }

  /** The pattern of `1 shl k`: 2^k, which for k = 31 is the sign bit. */
  lemma ShlOne(k: nat)
    requires k < 32
    ensures Unsigned(Shl(1, k)) == Pow2(k)
    ensures k < 31 ==> Shl(1, k) == Pow2(k)
    ensures k == 31 ==> Shl(1, k) == -TWO_31
  {
    Pow2Int();
    Pow2Monotone(k, 31);
    if k < 31 {
      Pow2Monotone(k + 1, 31);
    }
  }

  /** `x.inv()`: the complement of every bit, which in two's complement is -x - 1. */
  function Inv(x: int32): int32 {
    -(x as int) - 1
  }

  /** `x or (1 shl k)` on a byte value sets bit k. */
  lemma OrShlOne(x: int32, k: nat)
    requires 0 <= x < 0x100 && k < 32
    ensures Or(x, Shl(1, k)) == if TestBit(x, k) then x else if k < 31 then x + Pow2(k) else x - TWO_31
  {
    ShlOne(k);
    BitOrPow2(x, k);
    var u := BitOr(x, Pow2(k));
    assert Or(x, Shl(1, k)) == Wrap(u);
    if k < 31 {
      OrPow2Below31(x, k);
    } else {
      OrPow2At31(x);
    }
  }

  /** Setting bit k < 31 of a byte value stays within `Int`. */
  lemma OrPow2Below31(x: nat, k: nat)
    requires x < 0x100 && k < 31
    ensures BitOr(x, Pow2(k)) == (if TestBit(x, k) then x else x + Pow2(k)) < TWO_31
  {
    BitOrPow2(x, k);
    Pow2Int();
    Pow2Monotone(k, 30);
    assert Pow2(30) < TWO_31 - 0x100 by {
      assert Pow2(31) == 2 * Pow2(30);
    }
  }

  /** Setting bit 31 of a byte value wraps to a negative `Int`. */
  lemma OrPow2At31(x: nat)
    requires x < 0x100
    ensures !TestBit(x, 31)
    ensures Wrap(BitOr(x, Pow2(31))) == x - TWO_31
  {
    Pow2Int();
    assert !TestBit(x, 31) by {
      assert x < Pow2(31) by {
        Pow2Values();
        Pow2Monotone(8, 31);
      }
      DivUnique(x, Pow2(31), 0, x);
    }
    var u := BitOr(x, Pow2(31));
    assert u == x + TWO_31 by {
      BitOrPow2(x, 31);
    }
    assert u % TWO_32 == u by {
      DivUnique(u, TWO_32, 0, u);
    }
  }

  /** `x and (1 shl k).inv()` on a byte value clears bit k. */
  lemma AndInvShlOne(x: int32, k: nat)
    requires 0 <= x < 0x100 && k < 32
    ensures And(x, Inv(Shl(1, k))) == if TestBit(x, k) then x - Pow2(k) else x
  {
    var mask := Inv(Shl(1, k));
    var u := BitAnd(Unsigned(x), Unsigned(mask));
    assert And(x, mask) == Wrap(u);
    assert u == if TestBit(x, k) then x - Pow2(k) else x by {
      InvShlOne(k);
      BytesBelow32(x);
      BitAndClear(x, k, 32);
    }
  }

  /** `(1 shl k).inv()` has every bit of the 32-bit pattern set but bit k. */
  lemma InvShlOne(k: nat)
    requires k < 32
    ensures Unsigned(Inv(Shl(1, k))) == Pow2(32) - 1 - Pow2(k)
  {
    ShlOne(k);
    Pow2Int();
  }

  /** A byte value is below 2^32. */
  lemma BytesBelow32(x: int)
    requires 0 <= x < 0x100
    ensures x < Pow2(32)
  {
    Pow2Values();
    Pow2Monotone(8, 32);
  }

  // ---------------------------------------------------------------------------
  // Bitwise.kt: the bit and byte getters on `Int`.

  /**
   * `bit0` .. `bit7`: `(x and 2^n) != 0` for the literal masks 0x01 .. 0x80.
   * Bit n of the two's-complement value is the parity of x divided by 2^n.
   */
  function BitAt(x: int32, n: nat): (r: bool)
    requires n < 8
    ensures r <==> (x / Pow2(n)) % 2 == 1
    ensures r <==> TestBit(Unsigned(x), n)
  {
    Pow2Values();
    Pow2Monotone(n, 7);
    BitAndPow2(Unsigned(x), n);
    UnsignedBits(x, n);
    And(x, Pow2(n)) != 0
  }

  /** `loByte`: `x and 0xFF`, the least significant byte of the pattern. */
  function LoByte(x: int32): (r: int32)
    ensures 0 <= r < 0x100
    ensures r == x % 0x100
  {
    Pow2Values();
    AndLowMask(x, 0xFF, 8);
    And(x, 0xFF)
  }

  /** `hiByte`: `x shr 8 and 0xFF`, the second byte of the pattern. */
  function HiByte(x: int32): (r: int32)
    ensures 0 <= r < 0x100
    ensures r == (x / 0x100) % 0x100
  {
    Pow2Values();
    assert 8 % 32 == 8;
    AndLowMask(Shr(x, 8), 0xFF, 8);
    And(Shr(x, 8), 0xFF)
  }

  /** `higherByte`: `x shr 16 and 0xFF`, the third byte of the pattern. */
  function HigherByte(x: int32): (r: int32)
    ensures 0 <= r < 0x100
    ensures r == (x / 0x1_0000) % 0x100
  {
    Pow2Values();
    assert 16 % 32 == 16;
    AndLowMask(Shr(x, 16), 0xFF, 8);
    And(Shr(x, 16), 0xFF)
  }

  /** `highestByte`: `x shr 24 and 0xFF`, the most significant byte of the pattern. */
  function HighestByte(x: int32): (r: int32)
    ensures 0 <= r < 0x100
    ensures r == (x / 0x100_0000) % 0x100
  {
    Pow2Values();
    assert 24 % 32 == 24;
    AndLowMask(Shr(x, 24), 0xFF, 8);
    And(Shr(x, 24), 0xFF)
  }

  /** The four bytes, weighted by position, are the 32-bit pattern of the Int. */
  lemma BytesMakePattern(x: int32)
    ensures Unsigned(x) == LoByte(x) + 0x100 * HiByte(x) + 0x1_0000 * HigherByte(x) + 0x100_0000 * HighestByte(x)
  {
    var q1 := x / 0x100;
    var q2 := q1 / 0x100;
    var q3 := q2 / 0x100;
    var q4 := q3 / 0x100;
    var lo, hi, higher, highest := x % 0x100, q1 % 0x100, q2 % 0x100, q3 % 0x100;
    assert x == 0x1_0000 * q2 + (lo + 0x100 * hi);
    DivUnique(x, 0x1_0000, q2, lo + 0x100 * hi);
    assert x == 0x100_0000 * q3 + (lo + 0x100 * hi + 0x1_0000 * higher);
    DivUnique(x, 0x100_0000, q3, lo + 0x100 * hi + 0x1_0000 * higher);
    var sum := lo + 0x100 * hi + 0x1_0000 * higher + 0x100_0000 * highest;
    assert x == TWO_32 * q4 + sum;
    DivUnique(x, TWO_32, q4, sum);
    assert LoByte(x) == lo && HiByte(x) == hi && HigherByte(x) == higher && HighestByte(x) == highest;
  }

  /** Placing a byte in the top eight bits of an Int whose other bits are below 2^24. */
  lemma OrTopByte(b: int32, h: int32, sum: int)
    requires 0 <= b < 0x100_0000 && 0 <= h < 0x100 && sum == b + h * 0x100_0000
    ensures Or(b, Shl(h, 24)) == Wrap(sum)
  {
    var v := h * 0x100_0000;
    ShlTopByte(h, v);
    assert BitOr(b, v) == b + v by {
      Pow2Values();
      BitOrDisjoint(b, h, 24);
    }
    assert Unsigned(b) == b;
    assert BitOr(Unsigned(b), Unsigned(Wrap(v))) == sum;
    assert Or(b, Shl(h, 24)) == Wrap(BitOr(Unsigned(b), Unsigned(Wrap(v))));
  }

  /** A byte shifted into the top eight bits keeps its 32-bit pattern `h * 2^24`. */
  lemma ShlTopByte(h: int32, v: int)
    requires 0 <= h < 0x100 && v == h * 0x100_0000
    ensures Shl(h, 24) == Wrap(v) && Unsigned(Wrap(v)) == v
  {
    var p := Pow2(24);
    assert p == 0x100_0000 by {
      Pow2Values();
    }
    assert h * p == v;
    DivUnique(v, TWO_32, 0, v);
  }

  /** Or-ing four bytes into their positions is adding them up, truncated to 32 bits. */
  lemma OrFourBytes(lo: int32, hi: int32, higher: int32, highest: int32, sum: int)
    requires 0 <= lo < 0x100 && 0 <= hi < 0x100 && 0 <= higher < 0x100 && 0 <= highest < 0x100
    requires sum == lo + 0x100 * hi + 0x1_0000 * higher + 0x100_0000 * highest
    ensures Or(Or(Or(lo, Shl(hi, 8)), Shl(higher, 16)), Shl(highest, 24)) == Wrap(sum)
  {
    var a := Or(lo, Shl(hi, 8));
    assert a == lo + hi * 0x100 by {
      var p := Pow2(8);
      assert p == 0x100 by {
        Pow2Values();
      }
      assert hi * p == hi * 0x100;
      OrDisjoint(lo, hi, 8);
    }
    var b := Or(a, Shl(higher, 16));
    assert b == a + higher * 0x1_0000 by {
      var p := Pow2(16);
      assert p == 0x1_0000 by {
        Pow2Values();
      }
      assert higher * p == higher * 0x1_0000;
      OrDisjoint(a, higher, 16);
    }
    OrTopByte(b, highest, sum);
  }

  /**
   * Reassembling the bytes as the source would,
   * `loByte or (hiByte shl 8) or (higherByte shl 16) or (highestByte shl 24)`, gives x back.
   */
  lemma BytesReassemble(x: int32)
    ensures Or(Or(Or(LoByte(x), Shl(HiByte(x), 8)), Shl(HigherByte(x), 16)), Shl(HighestByte(x), 24)) == x
  {
    BytesMakePattern(x);
    ReassembleBytes(x, LoByte(x), HiByte(x), HigherByte(x), HighestByte(x));
  }

  lemma ReassembleBytes(x: int32, lo: int32, hi: int32, higher: int32, highest: int32)
    requires 0 <= lo < 0x100 && 0 <= hi < 0x100 && 0 <= higher < 0x100 && 0 <= highest < 0x100
    requires Unsigned(x) == lo + 0x100 * hi + 0x1_0000 * higher + 0x100_0000 * highest
    ensures Or(Or(Or(lo, Shl(hi, 8)), Shl(higher, 16)), Shl(highest, 24)) == x
  {
    OrFourBytes(lo, hi, higher, highest, Unsigned(x));
    WrapUnsigned(x);
  }

  /** `bit7` holds exactly when the low byte is 0x80 or more: the sign bit of a JVM `Byte`. */
  lemma Bit7IsHighLoByte(x: int32)
    ensures BitAt(x, 7) <==> LoByte(x) >= 0x80
  {
    var r := x % 0x100;
    var q := x / 0x100;
    assert x / 0x80 == 2 * q + r / 0x80 by {
      DivUnique(x, 0x80, 2 * q + r / 0x80, r % 0x80);
    }
    assert (x / 0x80) % 2 == r / 0x80 by {
      DivUnique(x / 0x80, 2, q, r / 0x80);
    }
    assert BitAt(x, 7) <==> (x / 0x80) % 2 == 1 by {
      Pow2Values();
    }
  }
}
