/** Machine integers as bounded mathematical integers, and the bitwise operations on them. */
module Bits {

  type u8 = x: int | 0 <= x < 0x100
  type u16 = x: int | 0 <= x < 0x1_0000
  type u32 = x: int | 0 <= x < 0x1_0000_0000
  type u64 = x: int | 0 <= x < 0x1_0000_0000_0000_0000
  type u128 = x: int | 0 <= x < 0x1_0000_0000_0000_0000_0000_0000_0000_0000

  function Pow2(n: nat): (p: nat)
    ensures p >= 1
  {
    if n == 0 then 1 else 2 * Pow2(n - 1)
  }

  /** Bit `i` of `a`, counted from the least significant one. */
  function Bit(a: nat, i: nat): (b: nat)
    ensures b <= 1
  {
    if i == 0 then a % 2 else Bit(a / 2, i - 1)
  }

  function And(a: nat, b: nat): (r: nat)
    ensures r <= a && r <= b
  {
    if a == 0 || b == 0 then 0 else 2 * And(a / 2, b / 2) + (if a % 2 == 1 && b % 2 == 1 then 1 else 0)
  }

  function Or(a: nat, b: nat): (r: nat)
    ensures r <= a + b
    decreases a + b
  {
    if a == 0 then b
    else if b == 0 then a
    else 2 * Or(a / 2, b / 2) + (if a % 2 == 1 || b % 2 == 1 then 1 else 0)
  }

  function Xor(a: nat, b: nat): (r: nat)
    ensures r <= a + b
    decreases a + b
  {
    if a == 0 then b
    else if b == 0 then a
    else 2 * Xor(a / 2, b / 2) + (if a % 2 != b % 2 then 1 else 0)
  }

  lemma AndHalves(a: nat, b: nat)
    ensures And(a, b) == 2 * And(a / 2, b / 2) + (if a % 2 == 1 && b % 2 == 1 then 1 else 0)
  {
  }

  lemma Pow2Step(n: nat)
    requires n >= 1
    ensures Pow2(n) == 2 * Pow2(n - 1)
  {
  }

  lemma {:induction false} AndIsBitwise(a: nat, b: nat, i: nat)
    ensures Bit(And(a, b), i) == Bit(a, i) * Bit(b, i)
    decreases i
  {
    if a == 0 || b == 0 {
      BitOfZero(i);
    } else if i > 0 {
      AndIsBitwise(a / 2, b / 2, i - 1);
      assert And(a, b) / 2 == And(a / 2, b / 2);
    }
  }

  lemma {:induction false} BitOfZero(i: nat)
    ensures Bit(0, i) == 0
  {
    if i > 0 { BitOfZero(i - 1); }
  }

  /** `Or` and `Xor` of values below a power of two stay below it. */
  lemma {:induction false} OrXorBound(a: nat, b: nat, n: nat)
    requires a < Pow2(n) && b < Pow2(n)
    ensures Or(a, b) < Pow2(n) && Xor(a, b) < Pow2(n)
  {
    if n > 0 && a > 0 && b > 0 {
      OrXorBound(a / 2, b / 2, n - 1);
    }
  }

  lemma {:induction false} Pow2Add(m: nat, n: nat)
    ensures Pow2(m + n) == Pow2(m) * Pow2(n)
  {
    if m > 0 {
      Pow2Add(m - 1, n);
      assert m + n - 1 == (m - 1) + n;
      MulAssoc(2, Pow2(m - 1), Pow2(n));
    }
  }

  lemma MulAssoc(a: int, b: int, c: int)
    ensures a * b * c == a * (b * c)
  {
  }

  lemma MulDistributes(u: int, c: int, t: int, b: int)
    ensures (u * c + t) * b == u * (b * c) + t * b
  {
    MulAssoc(u, c, b);
  }

  /** Dropping one bit and then `n` more is dropping `n + 1`. */
  lemma DivHalf(a: nat, d: nat)
    requires d >= 1
    ensures (a / 2) / d == a / (2 * d)
    ensures a % (2 * d) == 2 * ((a / 2) % d) + a % 2
  {
    var q, r := (a / 2) / d, (a / 2) % d;
    assert a / 2 == q * d + r;
    assert a == q * (2 * d) + (2 * r + a % 2) by { assert q * (2 * d) == 2 * (q * d); }
    DivModUnique(a, 2 * d, q, 2 * r + a % 2);
  }

  lemma DivModUnique(a: int, d: int, q: int, r: int)
    requires d >= 1 && a == q * d + r && 0 <= r < d
    ensures a / d == q && a % d == r
  {
    var q', r' := a / d, a % d;
    assert a == q' * d + r';
    DistinctMultiples(q, q', d);
  }

  lemma DistinctMultiples(q: int, q': int, d: int)
    requires d >= 1
    ensures q < q' ==> q * d + d <= q' * d
    ensures q' < q ==> q' * d + d <= q * d
  {
    MulMonotone(d, q + 1, q');
    MulMonotone(d, q' + 1, q);
    assert (q + 1) * d == q * d + d;
    assert (q' + 1) * d == q' * d + d;
  }

  lemma MulMonotone(d: int, m: int, n: int)
    requires d >= 0
    ensures m <= n ==> m * d <= n * d
  {
  }

  /** The low mask keeps the remainder. */
  lemma {:induction false} LowMask(a: nat, n: nat)
    ensures And(a, Pow2(n) - 1) == a % Pow2(n)
  {
    hide And, Pow2;
    if n == 0 {
      NoMask(a);
    } else {
      LowMask(a / 2, n - 1);
      Pow2Step(n);
      LowMaskStep(a, Pow2(n - 1), Pow2(n));
    }
  }

  lemma NoMask(a: nat)
    ensures And(a, Pow2(0) - 1) == a % Pow2(0)
  {
    assert a % 1 == 0;
  }

  lemma LowMaskStep(a: nat, d: nat, w: nat)
    requires d >= 1 && w == 2 * d && And(a / 2, d - 1) == (a / 2) % d
    ensures And(a, w - 1) == a % w
  {
    hide And;
    DivHalf(a, d);
    AndHalves(a, 2 * d - 1);
    OddHalf(d);
  }

  lemma OddHalf(d: nat)
    requires d >= 1
    ensures (2 * d - 1) / 2 == d - 1 && (2 * d - 1) % 2 == 1
  {
  }

  /** The mask of `p` ones above `q` zeros. */
  function HighBits(p: nat, q: nat): (m: nat)
    ensures q == 0 ==> m == Pow2(p) - 1
    ensures m < Pow2(p + q)
  {
    if q == 0 then Pow2(p) - 1 else 2 * HighBits(p, q - 1)
  }

  lemma AndEven(a: nat, m: nat)
    ensures And(a, 2 * m) == 2 * And(a / 2, m)
  {
    hide And;
    AndHalves(a, 2 * m);
  }

  lemma DoubleProduct(x: int, d: int)
    ensures x * (2 * d) == 2 * (x * d)
  {
  }

  lemma Doubled(x: int, d: int, w: int)
    requires w == 2 * d
    ensures x * w == 2 * (x * d)
  {
  }

  lemma LessOne(x: int, d: int)
    ensures (x - 1) * d == x * d - d
  {
  }

  /** Masking with `HighBits(p, q)` clears exactly the last `q` bits. */
  lemma {:induction false} HighMask(a: nat, p: nat, q: nat)
    requires a < Pow2(p + q)
    ensures And(a, HighBits(p, q)) == (a / Pow2(q)) * Pow2(q)
    decreases q
  {
    if q == 0 {
      LowMask(a, p);
      SmallMod(a, Pow2(p));
      assert Pow2(0) == 1;
    } else {
      assert p + q - 1 == p + (q - 1);
      assert a / 2 < Pow2(p + (q - 1));
      HighMask(a / 2, p, q - 1);
      HighMaskStep(a, HighBits(p, q - 1), Pow2(q - 1));
    }
  }

  lemma SmallMod(a: nat, d: nat)
    requires a < d
    ensures a % d == a
  {
  }

  lemma HighMaskStep(a: nat, m: nat, d: nat)
    requires d >= 1 && And(a / 2, m) == ((a / 2) / d) * d
    ensures And(a, 2 * m) == (a / (2 * d)) * (2 * d)
  {
    AndEven(a, m);
    DivHalf(a, d);
    DoubleProduct((a / 2) / d, d);
  }

  /** Two values agree under the mask exactly when they agree on the bits it keeps. */
  lemma HighMaskAgree(a: nat, b: nat, p: nat, q: nat)
    requires a < Pow2(p + q) && b < Pow2(p + q)
    ensures And(a, HighBits(p, q)) == And(b, HighBits(p, q)) <==> a / Pow2(q) == b / Pow2(q)
  {
    HighMask(a, p, q);
    HighMask(b, p, q);
    DistinctMultiples(a / Pow2(q), b / Pow2(q), Pow2(q));
  }

  /** `HighBits(p, q)` is what shifting `p + q` ones left by `q` leaves in `p + q` bits. */
  lemma {:induction false} HighBitsIsShift(p: nat, q: nat)
    ensures HighBits(p, q) == ((Pow2(p + q) - 1) * Pow2(q)) % Pow2(p + q)
    ensures HighBits(p, q) == (Pow2(p) - 1) * Pow2(q)
  {
    hide HighBits, Pow2;
    HighBitsProduct(p, q);
    Pow2Add(p, q);
    ShiftedRest(Pow2(p), Pow2(q));
  }

  lemma ShiftedRest(c: nat, d: nat)
    requires c >= 1 && d >= 1
    ensures ((c * d - 1) * d) % (c * d) == (c - 1) * d
  {
    var w := c * d;
    LessOne(w, d);
    LessOne(d, w);
    LessOne(c, d);
    MulMonotone(d, 1, c);
    DivModUnique((w - 1) * d, w, d - 1, (c - 1) * d);
  }

  lemma {:induction false} HighBitsProduct(p: nat, q: nat)
    ensures HighBits(p, q) == (Pow2(p) - 1) * Pow2(q)
  {
    if q > 0 {
      HighBitsProduct(p, q - 1);
      DoubleProduct(Pow2(p) - 1, Pow2(q - 1));
    }
  }

  // ----- 32-bit operations of the virtual machine -----

  lemma Pow2Of32()
    ensures Pow2(32) == 0x1_0000_0000
  {
    Pow2Add(8, 8);
    Pow2Add(16, 16);
    assert Pow2(8) == 0x100;
  }

  function WrappingAdd(a: u32, b: u32): u32 { ((a as int) + b) % 0x1_0000_0000 }

  function WrappingSub(a: u32, b: u32): u32 { ((a as int) - b) % 0x1_0000_0000 }

  function WrappingMul(a: u32, b: u32): u32 { ((a as int) * b) % 0x1_0000_0000 }

  function WrappingShl(a: u32, n: u32): u32 { ((a as int) * Pow2(n % 32)) % 0x1_0000_0000 }

  function WrappingShr(a: u32, n: u32): u32 { Quotient(a, Pow2(n % 32)) }

  function Quotient(a: u32, d: nat): u32
    requires d >= 1
  {
    var q: int := a / d;
    assert q <= a by { if q > a { MulMonotone(q, 1, d); } }
    q
  }

  function Remainder(a: u32, d: nat): u32
    requires d >= 1
  {
    var r: int := a % d;
    assert r <= a by { if a < d { SmallMod(a, d); } }
    r
  }

  function Or32(a: u32, b: u32): u32 { Pow2Of32(); OrXorBound(a, b, 32); Or(a, b) }

  function Xor32(a: u32, b: u32): u32 { Pow2Of32(); OrXorBound(a, b, 32); Xor(a, b) }

  function BigEndian16(b0: u8, b1: u8): u16 { (b0 as int) * 0x100 + b1 }

  function BigEndian32(b0: u8, b1: u8, b2: u8, b3: u8): u32 {
    (b0 as int) * 0x100_0000 + (b1 as int) * 0x1_0000 + (b2 as int) * 0x100 + b3
  }

  // ----- what these operations mean -----

  /** A bit as a digit of the number. */
  lemma {:induction false} BitExactly(a: nat, i: nat)
    ensures Bit(a, i) == a / Pow2(i) % 2
    decreases i
  {
    if i > 0 {
      BitExactly(a / 2, i - 1);
      DivHalf(a, Pow2(i - 1));
    }
  }

  lemma {:induction false} OrXorAreBitwise(a: nat, b: nat, i: nat)
    ensures Bit(Or(a, b), i) == 1 <==> Bit(a, i) == 1 || Bit(b, i) == 1
    ensures Bit(Xor(a, b), i) == 1 <==> Bit(a, i) != Bit(b, i)
    decreases i
  {
    BitOfZero(i);
    if a != 0 && b != 0 {
      if i == 0 {
        OrXorParity(a, b);
      } else {
        OrXorAreBitwise(a / 2, b / 2, i - 1);
        OrXorParity(a, b);
      }
    }
  }

  lemma OrXorParity(a: nat, b: nat)
    requires a != 0 && b != 0
    ensures Or(a, b) / 2 == Or(a / 2, b / 2) && (Or(a, b) % 2 == 1 <==> a % 2 == 1 || b % 2 == 1)
    ensures Xor(a, b) / 2 == Xor(a / 2, b / 2) && (Xor(a, b) % 2 == 1 <==> a % 2 != b % 2)
  {
    hide Or, Xor;
    OrXorHalves(a, b);
    HalfAndParity(Or(a / 2, b / 2), if a % 2 == 1 || b % 2 == 1 then 1 else 0);
    HalfAndParity(Xor(a / 2, b / 2), if a % 2 != b % 2 then 1 else 0);
  }

  lemma OrXorHalves(a: nat, b: nat)
    requires a != 0 && b != 0
    ensures Or(a, b) == 2 * Or(a / 2, b / 2) + (if a % 2 == 1 || b % 2 == 1 then 1 else 0)
    ensures Xor(a, b) == 2 * Xor(a / 2, b / 2) + (if a % 2 != b % 2 then 1 else 0)
  {
  }

  lemma ModularProduct(a: u32, b: u32)
    ensures ((a as int) * b - WrappingMul(a, b)) % 0x1_0000_0000 == 0
  {
    var product: int := (a as int) * b;
    assert product - product % 0x1_0000_0000 == product / 0x1_0000_0000 * 0x1_0000_0000;
  }

  lemma QuotientAndRemainder(a: u32, d: u32)
    requires d >= 1
    ensures 0 <= Remainder(a, d) < d && (a as int) == (Quotient(a, d) as int) * d + Remainder(a, d)
  {
    var n: int := a;
    assert n == n / d * d + n % d;
  }

  /** Shifting by `n`, of which only the lowest five bits count, moves every bit by that many places. */
  lemma ShiftsMoveBits(a: u32, n: u32, i: nat)
    requires i < 32
    ensures Bit(WrappingShl(a, n), i) == if i < n % 32 then 0 else Bit(a, i - n % 32)
    ensures Bit(WrappingShr(a, n), i) == if i + n % 32 < 32 then Bit(a, i + n % 32) else 0
  {
    hide Bit, Pow2;
    Pow2Of32();
    var k: nat, x: nat := n % 32, a;
    BitOfProduct(x, k, i);
    BitOfRemainder(x * Pow2(k), 32, i);
    BitOfQuotient(x, k, WrappingShr(a, n), i);
    if i + k >= 32 { HighBitIsZero(x, 32, i + k); }
  }

  lemma {:induction false} BitOfProduct(a: nat, k: nat, i: nat)
    ensures a * Pow2(k) >= 0
    ensures Bit(a * Pow2(k), i) == if i < k then 0 else Bit(a, i - k)
    decreases k
  {
    if k == 0 {
      assert a * 1 == a;
    } else {
      var h := a * Pow2(k - 1);
      Doubled(a, Pow2(k - 1), Pow2(k));
      BitOfProduct(a, k - 1, if i == 0 then 0 else i - 1);
      assert (2 * h) % 2 == 0 && (2 * h) / 2 == h;
    }
  }

  lemma {:induction false} BitOfRemainder(a: nat, w: nat, i: nat)
    requires i < w
    ensures Bit(a % Pow2(w), i) == Bit(a, i)
    decreases i
  {
    var d := Pow2(w - 1);
    DivHalf(a, d);
    var r := (a / 2) % d;
    assert a % Pow2(w) == 2 * r + a % 2;
    HalfAndParity(r, a % 2);
    if i > 0 { BitOfRemainder(a / 2, w - 1, i - 1); }
  }

  lemma HalfAndParity(r: nat, b: nat)
    requires b <= 1
    ensures (2 * r + b) / 2 == r && (2 * r + b) % 2 == b
  {
  }

  lemma {:induction false} BitOfQuotient(a: nat, k: nat, q: nat, i: nat)
    requires q == a / Pow2(k)
    ensures Bit(q, i) == Bit(a, i + k)
    decreases k
  {
    if k > 0 {
      DivHalf(a, Pow2(k - 1));
      BitOfQuotient(a / 2, k - 1, q, i);
    }
  }

  lemma {:induction false} HighBitIsZero(a: nat, w: nat, i: nat)
    requires a < Pow2(w) && i >= w
    ensures Bit(a, i) == 0
    decreases w
  {
    if w == 0 { BitOfZero(i); } else { HighBitIsZero(a / 2, w - 1, i - 1); }
  }
}
