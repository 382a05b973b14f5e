/**
 The non-negative whole part of JavaScript's Number: what a digit text reads as,
 and what `+ 1` does, both rounded to the nearest double with ties to even.
 Above 2^53 consecutive integers are no longer all representable, and adding one
 stops having an effect.
 */
module JsNumber {

  datatype Num = Finite(n: nat) | Infinity

  const TWO53 := 9007199254740992

  function Pow2(k: nat): (p: nat)
    ensures p > 0
  {
    if k == 0 then 1 else 2 * Pow2(k - 1)
  }

  const EXPONENT_BIAS: nat := 1023

  /** From 2^1024 on a rounded value is Infinity. */
  function Limit(): nat { Pow2(EXPONENT_BIAS + 1) }

  /** The spacing of doubles at `n`, searched from `u` upwards by doubling. */
  function UnitFrom(n: nat, u: nat): (w: nat)
    requires u > 0
    ensures w >= u && n < w * TWO53
    ensures w == u || w % 2 == 0
    ensures w > u ==> n >= u * TWO53
    decreases n / u
  {
    if n < u * TWO53 then u
    else
      HalvingDecreases(n, u);
      UnitFrom(n, 2 * u)
  }

  lemma HalvingDecreases(n: nat, u: nat)
    requires u > 0 && n >= u * TWO53
    ensures n / (2 * u) < n / u
  {
    var q := n / u;
    assert n < (q + 1) * u;
    if q < 2 { ProductAtLeast(2 - (q + 1) + 1, u); }
    DivTwice(n, u);
  }

  lemma DivTwice(n: nat, u: nat)
    requires u > 0
    ensures n / (2 * u) == (n / u) / 2
  {
    var q, r := n / u, n % u;
    var t := (q % 2) * u + r;
    assert n == (q / 2) * (2 * u) + t by {
      assert q == 2 * (q / 2) + q % 2;
      assert n == q * u + r;
      Distribute(q / 2, q % 2, u);
    }
    assert t < 2 * u;
    QuotientUnique(n, 2 * u, q / 2, t);
  }

  lemma Distribute(h: nat, p: nat, u: nat)
    ensures (2 * h + p) * u == h * (2 * u) + p * u
  {
  }

  lemma ProductAtLeast(k: int, d: int)
    requires d >= 0
    ensures k >= 1 ==> k * d >= d
    ensures k <= -1 ==> k * d <= -d
  {
    if k >= 1 { assert k * d == d + (k - 1) * d; }
    if k <= -1 { assert k * d == -d + (k + 1) * d; }
  }

  lemma QuotientUnique(n: nat, d: nat, q: nat, r: nat)
    requires d > 0 && n == q * d + r && r < d
    ensures n / d == q && n % d == r
  {
    var q', r' := n / d, n % d;
    assert (q' - q) * d == r - r' by { assert n == q' * d + r'; }
    ProductAtLeast(q' - q, d);
  }

  function RoundTo(n: nat, u: nat): nat
    requires u > 0
  {
    var q, r := n / u, n % u;
    if 2 * r < u || (2 * r == u && q % 2 == 0) then q * u else (q + 1) * u
  }

  function Nearest(n: nat): nat { RoundTo(n, UnitFrom(n, 1)) }

  function Round(n: nat): Num {
    if Nearest(n) >= Limit() then Infinity else Finite(Nearest(n))
  }

  /** `x + 1` */
  function Inc(x: Num): Num {
    match x
    case Finite(n) => Round(n + 1)
    case Infinity => Infinity
  }

  predicate AtMost(x: Num, y: Num) { y.Infinity? || (x.Finite? && x.n <= y.n) }

  function Max(x: Num, y: Num): Num { if AtMost(x, y) then y else x }

  // -------------------------------------------------------------- properties

  lemma RoundUnit(n: nat)
    ensures RoundTo(n, 1) == n
  {
  }

  lemma {:induction false} PowGrows(k: nat, m: nat)
    requires k <= m
    ensures Pow2(k) <= Pow2(m)
  {
    if k < m { PowGrows(k, m - 1); }
  }

  lemma LimitIsHigh()
    ensures Limit() > TWO53
  {
    Pow54();
    PowGrows(54, EXPONENT_BIAS + 1);
  }

  lemma Pow54()
    ensures Pow2(54) == 2 * TWO53
  {
    PowStep(0, 10); PowStep(10, 10); PowStep(20, 10); PowStep(30, 10); PowStep(40, 10); PowStep(50, 4);
  }

  lemma {:induction false} PowStep(a: nat, b: nat)
    requires b <= 10
    ensures Pow2(a + b) == Pow2(a) * [1, 2, 4, 8, 16, 32, 64, 128, 256, 512, 1024][b]
  {
    if b > 0 { PowStep(a, b - 1); }
  }

  /** Up to 2^53 adding one is exact. */
  lemma IncExact(n: nat)
    requires n < TWO53
    ensures Inc(Finite(n)) == Finite(n + 1)
  {
    LimitIsHigh();
    RoundUnit(n + 1);
    if n + 1 == TWO53 {
      assert UnitFrom(n + 1, 1) == UnitFrom(n + 1, 2) == 2;
    }
  }

  /** At 2^53 adding one has no effect. */
  lemma IncStuck()
    ensures Inc(Finite(TWO53)) == Finite(TWO53)
  {
    LimitIsHigh();
    assert UnitFrom(TWO53 + 1, 1) == UnitFrom(TWO53 + 1, 2) == 2;
  }

  // ------------------------------------------------ above 2^53 it gets stuck

  /** A whole number some double equals. */
  predicate Representable(n: nat) { n % UnitFrom(n, 1) == 0 }

  lemma {:induction false} SameUnit(n: nat, m: nat, u: nat)
    requires u > 0 && n <= m < UnitFrom(n, u) * TWO53
    ensures UnitFrom(m, u) == UnitFrom(n, u)
    decreases n / u
  {
    if n >= u * TWO53 {
      HalvingDecreases(n, u);
      SameUnit(n, m, 2 * u);
    }
  }

  lemma MultipleBelow(n: nat, u: nat, k: nat)
    requires u > 0 && n % u == 0 && n < k * u
    ensures n + u <= k * u
  {
    var q := n / u;
    assert n == q * u;
    ProductAtLeast(k - q, u);
    assert (k - q) * u == k * u - n;
    if q >= k { ProductAtLeast(k - q - 1, u); }
  }

  /** A step from a double at or above 2^53: none, or one double up, and then none. */
  lemma IncOnce(n: nat)
    requires n >= TWO53 && Representable(n)
    ensures var u := UnitFrom(n, 1);
            Nearest(n + 1) == if u == 2 && (n / 2) % 2 == 1 then n + 2 else n
  {
    var u := UnitFrom(n, 1);
    MultipleBelow(n, u, TWO53);
    SameUnit(n, n + 1, 1);
    QuotientUnique(n + 1, u, n / u, 1);
  }

  lemma UnitOfTwo54()
    ensures UnitFrom(2 * TWO53, 1) == 4
  {
    assert UnitFrom(2 * TWO53, 2) == UnitFrom(2 * TWO53, 4) == 4;
  }

  lemma SecondStep(n: nat)
    requires n >= TWO53 && UnitFrom(n, 1) == 2 && n % 2 == 0 && (n / 2) % 2 == 1
    ensures Nearest(n + 3) == n + 2
  {
    assert n < 2 * TWO53;
    if n + 2 < 2 * TWO53 { EvenStep(n + 2); } else { BoundaryStep(); }
  }

  lemma EvenStep(n: nat)
    requires TWO53 <= n < 2 * TWO53 && n % 4 == 0
    ensures Nearest(n + 1) == n
  {
    assert n == 2 * (2 * (n / 4)) && (n / 2) % 2 == 0;
    IncOnce(n);
  }

  lemma BoundaryStep()
    ensures Nearest(2 * TWO53 + 1) == 2 * TWO53
  {
    UnitOfTwo54();
    IncOnce(2 * TWO53);
  }

  lemma IncSettles(n: nat)
    requires n >= TWO53 && Representable(n) && n < Limit()
    ensures Inc(Inc(Finite(n))) == Inc(Finite(n))
  {
    IncOnce(n);
    if Nearest(n + 1) != n { SecondStep(n); }
  }

  /** Rounding gives a number some double equals. */
  lemma NearestRepresentable(n: nat)
    ensures Representable(Nearest(n))
    ensures n >= TWO53 ==> Nearest(n) >= TWO53
  {
    var u := UnitFrom(n, 1);
    if u == 1 {
      RoundUnit(n);
    } else {
      var v, half := (n / u) * u, u / 2;
      HalfUnit(n, 1);
      QuotientBelow(n, u, 4503599627370496);
      MultipleOf(n / u, u);
      assert (n / u + 1) * u == v + u;
      LowerEnd(n, u, v);
      RoundedUp(v, u);
    }
  }

  /** A unit above the start was reached because half of it was too small. */
  lemma {:induction false} HalfUnit(n: nat, u: nat)
    requires u > 0
    ensures UnitFrom(n, u) > u ==> UnitFrom(n, u) % 2 == 0 && n >= (UnitFrom(n, u) / 2) * TWO53
    decreases n / u
  {
    if n >= u * TWO53 {
      HalvingDecreases(n, u);
      HalfUnit(n, 2 * u);
    }
  }

  lemma QuotientBelow(n: nat, d: nat, k: nat)
    requires d > 0 && n >= k * d
    ensures n / d >= k && (n / d) * d >= k * d
  {
    var q := n / d;
    assert n < (q + 1) * d;
    if q < k { ProductAtLeast(k - q, d); }
    assert (q - k) * d == q * d - k * d;
    ProductAtLeast(q - k, d);
  }

  lemma MultipleOf(q: nat, u: nat)
    requires u > 0
    ensures (q * u) % u == 0
  {
    QuotientUnique(q * u, u, q, 0);
  }

  lemma LowerEnd(n: nat, u: nat, v: nat)
    requires u > 1 && u == UnitFrom(n, 1) && v % u == 0 && v <= n && v >= (u / 2) * TWO53
    ensures UnitFrom(v, 1) == u && Representable(v) && v >= TWO53
  {
    UnitOfLower(n, v, 1);
  }

  lemma RoundedUp(v: nat, u: nat)
    requires u > 1 && u == UnitFrom(v, 1) && u % 2 == 0 && v % u == 0
    ensures Representable(v + u)
  {
    MultipleBelow(v, u, TWO53);
    if v + u < u * TWO53 {
      SameUnit(v, v + u, 1);
      QuotientUnique(v + u, u, v / u + 1, 0);
    } else {
      NextUnit(v, 1);
      assert v + u == 4503599627370496 * (2 * u);
      MultipleOf(4503599627370496, 2 * u);
    }
  }

  /** Numbers in the same binade share their unit. */
  lemma {:induction false} UnitOfLower(n: nat, m: nat, u: nat)
    requires u > 0 && m <= n
    requires UnitFrom(n, u) > u ==> m >= (UnitFrom(n, u) / 2) * TWO53
    ensures UnitFrom(m, u) == UnitFrom(n, u)
    decreases n / u
  {
    if n >= u * TWO53 {
      HalvingDecreases(n, u);
      HalfUnit(n, u);
      LowerStays(n, m, u);
      UnitOfLower(n, m, 2 * u);
    }
  }

  lemma LowerStays(n: nat, m: nat, u: nat)
    requires u > 0 && n >= u * TWO53 && m >= (UnitFrom(n, u) / 2) * TWO53
    ensures m >= u * TWO53
    ensures UnitFrom(n, 2 * u) > 2 * u ==> m >= (UnitFrom(n, 2 * u) / 2) * TWO53
  {
    var w := UnitFrom(n, u);
    assert w >= 2 * u;
    assert w / 2 >= u;
    ProductAtLeast(w / 2 - u, TWO53);
    assert (w / 2) * TWO53 == u * TWO53 + (w / 2 - u) * TWO53;
  }

  lemma {:induction false} NextUnit(n: nat, u: nat)
    requires u > 0
    ensures UnitFrom(UnitFrom(n, u) * TWO53, u) == 2 * UnitFrom(n, u)
    decreases n / u
  {
    if n >= u * TWO53 {
      HalvingDecreases(n, u);
      NextUnit(n, 2 * u);
    } else {
      assert UnitFrom(u * TWO53, 2 * u) == 2 * u;
    }
  }

  // ------------------------------------------------------ the nearest double

  function Distance(m: nat, n: nat): nat { if m < n then n - m else m - n }

  lemma DivisorOfDivisor(m: nat, w: nat, u: nat)
    requires u > 0 && w > 0 && m % w == 0 && w % u == 0
    ensures m % u == 0
  {
    var a, b := m / w, w / u;
    assert m == a * w && w == b * u;
    assert m == (a * b) * u by { Reassociate(a, b, u); }
    MultipleOf(a * b, u);
  }

  lemma Reassociate(a: nat, b: nat, u: nat)
    ensures a * (b * u) == (a * b) * u
  {
  }

  lemma {:induction false} UnitMultiple(m: nat, u: nat)
    requires u > 0
    ensures UnitFrom(m, u) % u == 0
    decreases m / u
  {
    if m >= u * TWO53 {
      HalvingDecreases(m, u);
      UnitMultiple(m, 2 * u);
      QuotientUnique(2 * u, u, 2, 0);
      DivisorOfDivisor(UnitFrom(m, u), 2 * u, u);
    } else {
      QuotientUnique(u, u, 1, 0);
    }
  }

  /** The spacing of doubles further up is a multiple of that further down. */
  lemma {:induction false} UnitDivides(n: nat, m: nat, u: nat)
    requires u > 0 && n <= m
    ensures UnitFrom(m, u) % UnitFrom(n, u) == 0
    decreases n / u
  {
    if n >= u * TWO53 {
      HalvingDecreases(n, u);
      UnitDivides(n, m, 2 * u);
    } else {
      UnitMultiple(m, u);
    }
  }

  /** The multiples of `u` on both sides of n, and which one is taken. */
  lemma Neighbours(n: nat, u: nat) returns (v: nat)
    requires u > 0
    ensures v <= n < v + u && v % u == 0 && v == n - n % u
    ensures (v + u) / u == v / u + 1
    ensures RoundTo(n, u) == if 2 * (n - v) < u || (2 * (n - v) == u && (v / u) % 2 == 0) then v else v + u
  {
    var q := n / u;
    v := q * u;
    assert (q + 1) * u == v + u;
    QuotientUnique(v, u, q, 0);
    QuotientUnique(v + u, u, q + 1, 0);
  }

  lemma OnGrid(m: nat, v: nat, u: nat)
    requires u > 0 && m % u == 0 && v % u == 0
    ensures m <= v || v + u <= m
  {
    var a, b := m / u, v / u;
    assert m == a * u && v == b * u;
    assert (a - b) * u == m - v;
    ProductAtLeast(a - b, u);
  }

  /** Among the multiples of `u` none is closer, and of two at the same distance the even one is taken. */
  lemma RoundClosest(n: nat, u: nat, m: nat)
    requires u > 0 && m % u == 0
    ensures Distance(RoundTo(n, u), n) <= Distance(m, n)
    ensures Distance(RoundTo(n, u), n) == Distance(m, n) && m != RoundTo(n, u) ==> (RoundTo(n, u) / u) % 2 == 0
  {
    var v := Neighbours(n, u);
    OnGrid(m, v, u);
    if m > v { GridAbove(m, v, u); } else { GridAbove(v, m, u); }
  }

  lemma GridAbove(m: nat, v: nat, u: nat)
    requires u > 0 && m % u == 0 && v % u == 0 && v <= m
    ensures m == v || m == v + u || m >= v + 2 * u
  {
    OnGrid(m, v, u);
    if m >= v + u {
      QuotientUnique(v + u, u, v / u + 1, 0) by { assert (v / u + 1) * u == v + u; }
      OnGrid(m, v + u, u);
    }
  }

  /** A double that is no multiple of the spacing at n lies below the multiple under n. */
  lemma OffGridIsBelow(n: nat, m: nat)
    requires Representable(m) && m % UnitFrom(n, 1) != 0
    ensures m < n - n % UnitFrom(n, 1)
  {
    var u := UnitFrom(n, 1);
    var v := Neighbours(n, u);
    if m >= n {
      UnitDivides(n, m, 1);
      DivisorOfDivisor(m, UnitFrom(m, 1), u);
    } else {
      HalfUnit(n, 1);
      QuotientBelow(n, u, 4503599627370496);
      assert v == (n / u) * u;
      if m >= (u / 2) * TWO53 { UnitOfLower(n, m, 1); }
      assert (u / 2) * TWO53 == 4503599627370496 * u;
    }
  }

  /** Rounding takes the nearest double, and of two equally near ones the one whose last place is even. */
  lemma NearestIsClosest(n: nat, m: nat)
    requires Representable(m)
    ensures Distance(Nearest(n), n) <= Distance(m, n)
    ensures Distance(Nearest(n), n) == Distance(m, n) && m != Nearest(n) ==> (Nearest(n) / UnitFrom(n, 1)) % 2 == 0
  {
    var u := UnitFrom(n, 1);
    if m % u == 0 {
      RoundClosest(n, u, m);
    } else {
      OffGridIsBelow(n, m);
      var v := Neighbours(n, u);
      RoundClosest(n, u, v);
    }
  }
}
