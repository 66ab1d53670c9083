/** Bitwise operators on unsigned machine words, defined bit by bit on the
    naturals, and the arithmetic facts the simulator's shifts and masks rely on. */
module Bits {

  const TWO32: nat := 0x1_0000_0000
  const TWO64: nat := 0x1_0000_0000_0000_0000

  function Pow2(k: nat): (p: nat)
    ensures p >= 1
  {
    if k == 0 then 1 else 2 * Pow2(k - 1)
  }

  /** `a >> k`, one position at a time. */
  function Shr(a: nat, k: nat): nat {
    if k == 0 then a else Shr(a / 2, k - 1)
  }

  /** `a & b`. */
  function And(a: nat, b: nat): (r: nat)
    ensures r <= a && r <= b
  {
    if a == 0 || b == 0 then 0
    else (if a % 2 == 1 && b % 2 == 1 then 1 else 0) + 2 * And(a / 2, b / 2)
  }

  /** `a | b`. */
  function Or(a: nat, b: nat): (r: nat)
    ensures a <= r && b <= r && r <= a + b
  {
    if a == 0 then b
    else if b == 0 then a
    else (if a % 2 == 1 || b % 2 == 1 then 1 else 0) + 2 * Or(a / 2, b / 2)
  }

  lemma {:induction false} Pow2Add(a: nat, b: nat)
    ensures Pow2(a + b) == Pow2(a) * Pow2(b)
  {
    if a != 0 {
      Pow2Add(a - 1, b);
      assert Pow2(a + b) == 2 * (Pow2(a - 1) * Pow2(b));
    }
  }

  lemma {:induction false} Pow2Monotone(a: nat, b: nat)
    requires a <= b
    ensures Pow2(a) <= Pow2(b)
  {
    if a < b { Pow2Monotone(a, b - 1); }
  }

  lemma Pow2Values()
    ensures Pow2(4) == 16 && Pow2(5) == 32 && Pow2(6) == 64
    ensures Pow2(8) == 256 && Pow2(32) == TWO32 && Pow2(64) == TWO64
  {
    assert Pow2(8) == 256;
    Pow2Add(8, 8);
    assert Pow2(16) == 0x1_0000;
    Pow2Add(16, 16);
    assert Pow2(32) == TWO32;
    Pow2Add(32, 32);
  }

  /** A right shift is a division by a power of two. */
  lemma {:induction false} ShrIsDivision(a: nat, k: nat)
    ensures Shr(a, k) == a / Pow2(k)
  {
    if k != 0 {
      ShrIsDivision(a / 2, k - 1);
      DivDiv(a, 2, Pow2(k - 1));
    }
  }

  lemma DivDiv(a: nat, b: nat, c: nat)
    requires b > 0 && c > 0
    ensures b * c > 0
    ensures (a / b) / c == a / (b * c)
  {
    var m, s := a / b, a % b;
    var q, r := m / c, m % c;
    DivMod(a, b);
    DivMod(m, c);
    DivDivUnique(a, b, c, m, s, q, r);
  }

  lemma DivDivUnique(a: nat, b: nat, c: nat, m: nat, s: nat, q: nat, r: nat)
    requires a == b * m + s && s < b && m == c * q + r && r < c
    ensures b * c > 0 && a / (b * c) == q
  {
    MulBound(r, c, b, s);
    MulRearrange(q, c, b, r, s, m, a);
    DivUnique(a, b * c, q, b * r + s);
  }

  lemma DivMod(a: int, d: int)
    requires d > 0
    ensures a == d * (a / d) + a % d && 0 <= a % d < d
  {}

  lemma MulRearrange(q: nat, c: nat, b: nat, r: nat, s: nat, m: nat, a: nat)
    requires m == c * q + r && a == b * m + s
    ensures a == q * (b * c) + (b * r + s)
  {
    assert b * (c * q + r) == b * (c * q) + b * r;
    assert b * (c * q) == q * (b * c);
  }

  lemma MulBound(r: nat, c: nat, b: nat, s: nat)
    requires r < c && s < b
    ensures b * r + s < b * c && 0 < b * c
  {
    assert b * c == b * r + b * (c - r);
    MulAtLeast(c - r, b);
  }

  lemma MulAtLeast(x: int, d: int)
    requires x >= 1 && d > 0
    ensures x * d >= d && d * x >= d
  {
    assert x * d == d + (x - 1) * d;
  }

  lemma DivUnique(a: int, d: int, q: int, r: int)
    requires d > 0 && 0 <= r < d && a == q * d + r
    ensures a / d == q && a % d == r
  {
    DivMod(a, d);
    SameQuotient(d, q, r, a / d, a % d);
  }

  lemma SameQuotient(d: int, q: int, r: int, q': int, r': int)
    requires 0 <= r < d && 0 <= r' < d && q * d + r == d * q' + r'
    ensures q == q' && r == r'
  {
    if q > q' {
      assert (q - q') * d == q * d - d * q';
      MulAtLeast(q - q', d);
    } else if q < q' {
      assert (q' - q) * d == d * q' - q * d;
      MulAtLeast(q' - q, d);
    }
  }

  lemma DoubleRemainder(a: nat, p: nat)
    requires p > 0
    ensures a % (2 * p) == a % 2 + 2 * ((a / 2) % p)
  {
    var q, r := (a / 2) / p, (a / 2) % p;
    DivMod(a / 2, p);
    assert q * (2 * p) == 2 * (p * q);
    DivUnique(a, 2 * p, q, 2 * r + a % 2);
  }

  lemma AndOddMask(a: nat, p: nat)
    requires a > 0 && p > 0
    ensures And(a, 2 * p - 1) == a % 2 + 2 * And(a / 2, p - 1)
  {
    assert (2 * p - 1) / 2 == p - 1 && (2 * p - 1) % 2 == 1;
  }

  lemma AndZero(a: nat, b: nat)
    ensures And(a, 0) == 0 && And(0, b) == 0
  {}

  /** Masking with `2^k - 1` takes the remainder modulo `2^k`. */
  lemma {:induction false} MaskIsRemainder(a: nat, k: nat)
    ensures And(a, Pow2(k) - 1) == a % Pow2(k)
  {
    hide And;
    AndZero(a, Pow2(k) - 1);
    if k == 0 {
    } else if a == 0 {
      SmallRemainder(0, Pow2(k));
    } else {
      var p := Pow2(k - 1);
      calc {
        And(a, Pow2(k) - 1);
        And(a, 2 * p - 1);
        { AndOddMask(a, p); }
        a % 2 + 2 * And(a / 2, p - 1);
        { MaskIsRemainder(a / 2, k - 1); }
        a % 2 + 2 * ((a / 2) % p);
        { DoubleRemainder(a, p); }
        a % (2 * p);
      }
    }
  }

  lemma SmallRemainder(a: nat, d: nat)
    requires a < d
    ensures a % d == a && a / d == 0
  {}

  /** `x & (x - 1)` is zero exactly for zero and the powers of two. */
  lemma {:induction false} ClearLowestBit(x: nat)
    requires x > 0
    ensures And(x, x - 1) == 0 <==> exists k: nat :: x == Pow2(k)
  {
    if x == 1 {
      assert x == Pow2(0);
    } else if x % 2 == 1 {
      // x and x - 1 share the higher bits, which are not all zero
      AndSelf(x / 2);
      assert (x - 1) / 2 == x / 2;
      forall k: nat ensures x != Pow2(k) { if k > 0 { assert Pow2(k) == 2 * Pow2(k - 1); } }
    } else {
      ClearLowestBit(x / 2);
      assert (x - 1) / 2 == x / 2 - 1;
      if And(x, x - 1) == 0 {
        var k: nat :| x / 2 == Pow2(k);
        assert x == Pow2(k + 1);
      }
      if k: nat :| x == Pow2(k) {
        assert k > 0;
        var j: nat := k - 1;
        assert x / 2 == Pow2(j);
      }
    }
  }

  lemma {:induction false} AndSelf(a: nat)
    ensures And(a, a) == a
  {
    if a != 0 { AndSelf(a / 2); }
  }

  lemma {:induction false} OrBelow(a: nat, b: nat, k: nat)
    requires a < Pow2(k) && b < Pow2(k)
    ensures Or(a, b) < Pow2(k)
  {
    if a != 0 && b != 0 {
      OrBelow(a / 2, b / 2, k - 1);
    }
  }

  lemma OrDouble(a: nat, c: nat)
    requires a > 0 && c > 0
    ensures Or(a, 2 * c) == a % 2 + 2 * Or(a / 2, c)
  {
    assert (2 * c) / 2 == c && (2 * c) % 2 == 0;
  }

  lemma OrZero(a: nat)
    ensures Or(a, 0) == a && Or(0, a) == a
  {}

  lemma DoubleShift(b: nat, k: nat)
    requires k > 0 && b > 0
    ensures b * Pow2(k) == 2 * (b * Pow2(k - 1)) && b * Pow2(k - 1) > 0
  {
    MulAtLeast(b, Pow2(k - 1));
  }

  /** Words whose set bits do not overlap: `|` adds them. */
  lemma {:induction false} OrDisjoint(a: nat, b: nat, k: nat)
    requires a < Pow2(k)
    ensures Or(a, b * Pow2(k)) == a + b * Pow2(k)
  {
    hide Or;
    if a == 0 || b == 0 {
      OrZero(a);
      OrZero(b * Pow2(k));
    } else {
      OrDisjoint(a / 2, b, k - 1);
      DoubleShift(b, k);
      OrDouble(a, b * Pow2(k - 1));
    }
  }

  // ---- single bits ----

  /** Bit `k`, read off by division. */
  predicate Bit(a: nat, k: nat) {
    (a / Pow2(k)) % 2 == 1
  }

  lemma BitOfHalf(a: nat, k: nat)
    ensures Bit(a, 0) <==> a % 2 == 1
    ensures k > 0 ==> (Bit(a, k) <==> Bit(a / 2, k - 1))
  {
    if k > 0 { DivDiv(a, 2, Pow2(k - 1)); }
  }

  lemma NoBits(k: nat)
    ensures !Bit(0, k)
  {
    SmallRemainder(0, Pow2(k));
  }

  /** `&` on each bit. */
  lemma {:induction false} AndBit(a: nat, b: nat, k: nat)
    ensures Bit(And(a, b), k) <==> Bit(a, k) && Bit(b, k)
  {
    hide Bit;
    NoBits(k);
    if a != 0 && b != 0 {
      BitOfHalf(a, k);
      BitOfHalf(b, k);
      BitOfHalf(And(a, b), k);
      if k > 0 { AndBit(a / 2, b / 2, k - 1); }
    }
  }

  /** `|` on each bit. */
  lemma {:induction false} OrBit(a: nat, b: nat, k: nat)
    ensures Bit(Or(a, b), k) <==> Bit(a, k) || Bit(b, k)
  {
    hide Bit;
    NoBits(k);
    if a != 0 && b != 0 {
      BitOfHalf(a, k);
      BitOfHalf(b, k);
      BitOfHalf(Or(a, b), k);
      if k > 0 { OrBit(a / 2, b / 2, k - 1); }
    }
  }

  /** `~` on each of `n` bits: what is left to the word of ones. */
  lemma {:induction false} NotBit(a: nat, n: nat, k: nat)
    requires a < Pow2(n) && k < n
    ensures Bit(Pow2(n) - 1 - a, k) <==> !Bit(a, k)
  {
    hide Bit;
    var c := Pow2(n) - 1 - a;
    assert c / 2 == Pow2(n - 1) - 1 - a / 2 && c % 2 == 1 - a % 2;
    BitOfHalf(a, k);
    BitOfHalf(c, k);
    if k > 0 { NotBit(a / 2, n - 1, k - 1); }
  }

  ghost predicate SameBits(a: nat, b: nat, n: nat) {
    forall k: nat :: k < n ==> (Bit(a, k) <==> Bit(b, k))
  }

  /** A number below `2^n` is determined by its bits. */
  lemma {:induction false} BitsDetermine(a: nat, b: nat, n: nat)
    requires a < Pow2(n) && b < Pow2(n) && SameBits(a, b, n)
    ensures a == b
  {
    hide Bit;
    if n > 0 {
      forall k: nat | k < n - 1 ensures Bit(a / 2, k) <==> Bit(b / 2, k) {
        BitOfHalf(a, k + 1);
        BitOfHalf(b, k + 1);
      }
      BitsDetermine(a / 2, b / 2, n - 1);
      BitOfHalf(a, 0);
      BitOfHalf(b, 0);
      assert a % 2 == b % 2;
    }
  }
}
