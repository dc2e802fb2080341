/** Bit-level operators on unsigned integers (`|`, `&`, `!`, `<<`, `>>`), defined on natural
    numbers one binary digit at a time, with the facts the codecs need about them.
    Unsigned shifts are multiplication and division by powers of two. */
module Bits {

  function Pow2(k: nat): (r: nat)
    ensures r >= 1
  {
    if k == 0 then 1 else 2 * Pow2(k - 1)
  }

  lemma Pow2Values()
    ensures Pow2(1) == 2 && Pow2(8) == 0x100 && Pow2(13) == 0x2000 && Pow2(14) == 0x4000
    ensures Pow2(15) == 0x8000 && Pow2(16) == 0x1_0000
  {
    assert Pow2(4) == 16;
    assert Pow2(8) == 0x100;
    assert Pow2(12) == 0x1000;
    assert Pow2(16) == 0x1_0000;
  }

  /** Bit k of x is set. */
  predicate Bit(x: nat, k: nat) {
    (x / Pow2(k)) % 2 == 1
  }

  /** Bitwise OR. */
  function BitOr(a: nat, b: nat): nat
    decreases a + b
  {
    if a == 0 && b == 0 then 0
    else 2 * BitOr(a / 2, b / 2) + (if a % 2 == 1 || b % 2 == 1 then 1 else 0)
  }

  /** Bitwise AND. */
  function BitAnd(a: nat, b: nat): nat
    decreases a
  {
    if a == 0 || b == 0 then 0
    else 2 * BitAnd(a / 2, b / 2) + (if a % 2 == 1 && b % 2 == 1 then 1 else 0)
  }

  /** Bitwise complement of a value of the given width. */
  function BitNot(x: nat, width: nat): (r: nat)
    requires x < Pow2(width)
    ensures r < Pow2(width)
    ensures forall k: nat :: k < width ==> (Bit(r, k) <==> !Bit(x, k))
  {
    forall k: nat | k < width ensures Bit(Pow2(width) - 1 - x, k) <==> !Bit(x, k) {
      ComplementBit(x, width, k);
    }
    Pow2(width) - 1 - x
  }

  lemma DivUnique(x: int, d: int, q: int, r: int)
    requires d > 0 && 0 <= r < d && x == d * q + r
    ensures x / d == q && x % d == r
  {
    var q', r' := x / d, x % d;
    assert d * q' + r' == d * q + r;
    if q' > q {
      MulStep(d, q, q');
    } else if q' < q {
      MulStep(d, q', q);
    }
  }

  lemma DivSplit(x: int, d: int)
    requires d > 0
    ensures x == d * (x / d) + x % d
  {
  }

  lemma MulPred(d: int, q: int)
    ensures d * (q - 1) == d * q - d
  {
  }

  lemma MulStep(d: int, a: int, b: int)
    requires d > 0 && a < b
    ensures d * a + d <= d * b
  {
    assert d * b - d * a == d * (b - a);
    MulAtLeast(d, b - a);
  }

  lemma {:induction false} MulAtLeast(d: nat, e: nat)
    requires e >= 1
    ensures d * e >= d
    decreases e
  {
    if e > 1 {
      MulAtLeast(d, e - 1);
      assert d * e == d * (e - 1) + d;
    }
  }

  /** Shifting right by k + 1 is halving, then shifting right by k. */
  lemma {:induction false} DivTwice(x: nat, k: nat)
    ensures x / Pow2(k + 1) == (x / 2) / Pow2(k)
    ensures x % Pow2(k + 1) == 2 * ((x / 2) % Pow2(k)) + x % 2
  {
    var p := Pow2(k);
    var q := x / 2;
    var s, t := q / p, q % p;
    assert q == p * s + t;
    assert x == 2 * q + x % 2;
    assert x == (2 * p) * s + (2 * t + x % 2);
    DivUnique(x, 2 * p, s, 2 * t + x % 2);
  }

  lemma {:induction false} BitOfHalf(x: nat, k: nat)
    ensures Bit(x, k + 1) <==> Bit(x / 2, k)
  {
    DivTwice(x, k);
  }

  lemma {:induction false} OrZero(a: nat)
    ensures BitOr(a, 0) == a && BitOr(0, a) == a
    decreases a
  {
    if a != 0 {
      OrZero(a / 2);
    }
  }

  /** OR of a value shifted left by k with a value below 2^k is their sum. */
  lemma {:induction false} OrShifted(a: nat, b: nat, k: nat)
    requires b < Pow2(k)
    ensures BitOr(a * Pow2(k), b) == a * Pow2(k) + b
    decreases k
  {
    if k == 0 {
      OrZero(a);
    } else {
      var p := Pow2(k - 1);
      assert a * Pow2(k) == 2 * (a * p);
      assert (a * Pow2(k)) / 2 == a * p && (a * Pow2(k)) % 2 == 0;
      OrShifted(a, b / 2, k - 1);
      if a * Pow2(k) != 0 || b != 0 {
        assert BitOr(a * Pow2(k), b) == 2 * BitOr(a * p, b / 2) + b % 2;
      }
    }
  }

  /** AND with 2^k - 1 keeps the k low bits. */
  lemma {:induction false} AndLowMask(x: nat, k: nat)
    ensures BitAnd(x, Pow2(k) - 1) == x % Pow2(k)
    decreases k
  {
    if k > 0 {
      AndLowMask(x / 2, k - 1);
      AndMaskStep(x, Pow2(k - 1));
    }
  }

  lemma AndMaskStep(x: nat, p: nat)
    requires p >= 1 && BitAnd(x / 2, p - 1) == (x / 2) % p
    ensures BitAnd(x, 2 * p - 1) == x % (2 * p)
  {
    ModStep(x, p);
    AndStep(x, p);
  }

  lemma ModStep(x: nat, p: nat)
    requires p >= 1
    ensures x % (2 * p) == 2 * ((x / 2) % p) + x % 2
  {
    var h := x / 2;
    var q, r := h / p, h % p;
    assert h == p * q + r;
    assert x == 2 * h + x % 2;
    assert x == (2 * p) * q + (2 * r + x % 2) by {
      assert 2 * (p * q) == (2 * p) * q;
    }
    DivUnique(x, 2 * p, q, 2 * r + x % 2);
  }

  lemma AndStep(x: nat, p: nat)
    requires p >= 1
    ensures BitAnd(x, 2 * p - 1) == 2 * BitAnd(x / 2, p - 1) + x % 2
  {
    var m := 2 * p - 1;
    assert m / 2 == p - 1 && m % 2 == 1;
  }

  /** OR with 2^k sets bit k and nothing else. */
  lemma {:induction false} OrPow2(x: nat, k: nat)
    ensures BitOr(x, Pow2(k)) == if Bit(x, k) then x else x + Pow2(k)
    decreases k
  {
    if k == 0 {
      OrZero(x / 2);
    } else {
      OrPow2(x / 2, k - 1);
      BitOfHalf(x, k - 1);
      assert Pow2(k) / 2 == Pow2(k - 1) && Pow2(k) % 2 == 0;
    }
  }

  /** AND with 2^k isolates bit k. */
  lemma {:induction false} AndPow2(x: nat, k: nat)
    ensures BitAnd(x, Pow2(k)) == if Bit(x, k) then Pow2(k) else 0
    decreases k
  {
    if k == 0 {
      if x != 0 {
        assert BitAnd(x / 2, 0) == 0;
      }
    } else if x != 0 {
      AndPow2(x / 2, k - 1);
      BitOfHalf(x, k - 1);
      assert Pow2(k) / 2 == Pow2(k - 1) && Pow2(k) % 2 == 0;
    } else {
      assert !Bit(x, k);
    }
  }

  /** A value below 2^n has no bit at or above n. */
  lemma {:induction false} NoHighBit(x: nat, n: nat, k: nat)
    requires x < Pow2(n) && n <= k
    ensures !Bit(x, k)
  {
    PowMonotone(n, k);
    DivUnique(x, Pow2(k), 0, x);
  }

  lemma {:induction false} PowMonotone(n: nat, k: nat)
    requires n <= k
    ensures Pow2(n) <= Pow2(k)
    decreases k
  {
    if n < k {
      PowMonotone(n, k - 1);
    }
  }

  /** Setting a clear bit below the width stays within the width. */
  lemma {:induction false} SetBitBound(x: nat, n: nat, k: nat)
    requires x < Pow2(n) && k < n && !Bit(x, k)
    ensures x + Pow2(k) < Pow2(n)
    decreases k
  {
    var h, p := x / 2, Pow2(n - 1);
    assert Pow2(n) == 2 * p;
    assert x == 2 * h + x % 2;
    if k == 0 {
      assert x % 2 == 0;
    } else {
      var q := Pow2(k - 1);
      assert Pow2(k) == 2 * q;
      assert h < p;
      BitOfHalf(x, k - 1);
      SetBitBound(h, n - 1, k - 1);
      assert h + q < p;
    }
  }

  /** A set bit contributes its weight. */
  lemma SetBitWeight(x: nat, k: nat)
    requires Bit(x, k)
    ensures x >= Pow2(k)
  {
    if x < Pow2(k) {
      DivUnique(x, Pow2(k), 0, x);
    }
  }

  /** The complement within a width flips every bit below the width. */
  lemma {:induction false} ComplementBit(x: nat, n: nat, k: nat)
    requires x < Pow2(n) && k < n
    ensures Bit(Pow2(n) - 1 - x, k) <==> !Bit(x, k)
    decreases k
  {
    var y := Pow2(n) - 1 - x;
    assert Pow2(n) == 2 * Pow2(n - 1);
    assert y == 2 * (Pow2(n - 1) - 1 - x / 2) + (1 - x % 2);
    assert y / 2 == Pow2(n - 1) - 1 - x / 2 && y % 2 == 1 - x % 2;
    if k > 0 {
      BitOfHalf(x, k - 1);
      BitOfHalf(y, k - 1);
      ComplementBit(x / 2, n - 1, k - 1);
    }
  }

  /** Subtracting the weight of a set bit clears it. */
  lemma FlipSetBit(x: nat, k: nat)
    requires Bit(x, k)
    ensures x >= Pow2(k) && !Bit(x - Pow2(k), k)
  {
    SetBitWeight(x, k);
    var p := Pow2(k);
    var q, r := x / p, x % p;
    DivSplit(x, p);
    MulPred(p, q);
    DivUnique(x - p, p, q - 1, r);
    DivUnique(q - 1, 2, q / 2, 0);
  }

  /** Adding the weight of a clear bit sets it. */
  lemma FlipClearBit(x: nat, k: nat)
    requires !Bit(x, k)
    ensures Bit(x + Pow2(k), k)
  {
    var p := Pow2(k);
    var q, r := x / p, x % p;
    assert x == p * q + r;
    assert p * (q + 1) == p * q + p;
    DivUnique(x + p, p, q + 1, r);
    DivUnique(q + 1, 2, q / 2, 1);
  }

  /** Adding the weight of a clear bit leaves every other bit as it was. */
  lemma {:induction false} AddBitOthers(x: nat, k0: nat, k: nat)
    requires !Bit(x, k0) && k != k0
    ensures Bit(x + Pow2(k0), k) <==> Bit(x, k)
    decreases k0
  {
    if k0 == 0 {
      AddLowBit(x, k);
    } else {
      var p := Pow2(k0 - 1);
      assert Pow2(k0) == 2 * p;
      HalfOfSum(x, p);
      BitOfHalf(x, k0 - 1);
      if k > 0 {
        AddBitOthers(x / 2, k0 - 1, k - 1);
        AddBitHalves(x, p, k);
      } else {
        ParityOfSum(x, p);
      }
    }
  }

  lemma AddBitHalves(x: nat, p: nat, k: nat)
    requires k > 0
    requires Bit(x / 2 + p, k - 1) <==> Bit(x / 2, k - 1)
    ensures Bit(x + 2 * p, k) <==> Bit(x, k)
  {
    HalfOfSum(x, p);
    BitOfHalf(x, k - 1);
    BitOfHalf(x + 2 * p, k - 1);
  }

  lemma ParityOfSum(x: nat, p: nat)
    ensures Bit(x + 2 * p, 0) <==> Bit(x, 0)
  {
    HalfOfSum(x, p);
  }

  lemma HalfOfSum(x: nat, p: nat)
    ensures (x + 2 * p) / 2 == x / 2 + p && (x + 2 * p) % 2 == x % 2
  {
    DivUnique(x + 2 * p, 2, x / 2 + p, x % 2);
  }

  lemma AddLowBit(x: nat, k: nat)
    requires !Bit(x, 0) && k != 0
    ensures Bit(x + Pow2(0), k) <==> Bit(x, k)
  {
    assert x % 2 == 0;
    DivUnique(x + 1, 2, x / 2, 1);
    BitOfHalf(x, k - 1);
    BitOfHalf(x + 1, k - 1);
  }
}
