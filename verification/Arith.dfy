/** Multiples and quotients by repeated addition, with the lemmas that tie them to
    `*` and `/`: the split tree's sizes are all built by adding up units. */
module Arith {

  /** k * u. */
  function Mul(k: nat, u: nat): nat {
    if k == 0 then 0 else Mul(k - 1, u) + u
  }

  /** s / u. */
  function Div(s: nat, u: nat): nat
    requires u > 0
  {
    if s < u then 0 else 1 + Div(s - u, u)
  }

  /** The number of units needed to hold m. */
  function Units(m: nat, u: nat): nat
    requires u > 0
  {
    if m == 0 then 0 else if m <= u then 1 else 1 + Units(m - u, u)
  }

  lemma {:induction false} MulIsProduct(k: nat, u: nat)
    ensures Mul(k, u) == k * u
  {
    if k > 0 {
      MulIsProduct(k - 1, u);
      assert k * u == (k - 1) * u + u;
    }
  }

  lemma {:induction false} DivIsQuotient(s: nat, u: nat)
    requires u > 0
    ensures Div(s, u) == s / u
  {
    if s >= u {
      DivIsQuotient(s - u, u);
      QuotientStep(s, u);
    }
  }

  lemma QuotientStep(s: nat, u: nat)
    requires 0 < u <= s
    ensures s / u == (s - u) / u + 1
  {
    var q, r := (s - u) / u, (s - u) % u;
    assert s - u == u * q + r;
    assert s == u * (q + 1) + r;
    QuotientUnique(s, u, q + 1, r);
  }

  lemma QuotientUnique(v: int, d: int, q: int, r: int)
    requires d > 0 && v == d * q + r && 0 <= r < d
    ensures v / d == q && v % d == r
  {
    var k := q - v / d;
    assert d * k == d * q - d * (v / d);
    assert -d < d * k < d;
    if k >= 1 {
      MulAtLeast(d, k);
    } else if k <= -1 {
      MulAtLeast(d, -k);
    }
  }

  lemma MulAtLeast(d: int, k: int)
    requires d > 0 && k >= 1
    ensures d * k >= d
  {
  }

  lemma {:induction false} UnitsIsQuotient(m: nat, u: nat)
    requires u > 0
    ensures Units(m, u) == (m + u - 1) / u
  {
    if m == 0 {
      QuotientUnique(m + u - 1, u, 0, u - 1);
    } else if m <= u {
      QuotientUnique(m + u - 1, u, 1, m - 1);
    } else {
      UnitsIsQuotient(m - u, u);
      QuotientStep(m + u - 1, u);
    }
  }

  lemma {:induction false} MulMonotonic(i: nat, j: nat, u: nat)
    requires i <= j
    ensures Mul(i, u) <= Mul(j, u)
    ensures i < j ==> Mul(i, u) + u <= Mul(j, u)
  {
    if i < j {
      MulMonotonic(i, j - 1, u);
    }
  }

  lemma {:induction false} DivSpec(s: nat, u: nat)
    requires u > 0
    ensures Mul(Div(s, u), u) <= s < Mul(Div(s, u), u) + u
  {
    if s >= u {
      DivSpec(s - u, u);
    }
  }

  /** Units is the ceiling: m needs its last unit and no more. */
  lemma {:induction false} UnitsSpec(m: nat, u: nat)
    requires u > 0 && m > 0
    ensures Units(m, u) > 0 && Mul(Units(m, u) - 1, u) < m <= Mul(Units(m, u), u)
  {
    if m > u {
      UnitsSpec(m - u, u);
    }
  }

  /** A position inside m falls into one of m's units. */
  lemma {:induction false} DivBelowUnits(s: nat, m: nat, u: nat)
    requires u > 0 && s < m
    ensures Div(s, u) < Units(m, u)
  {
    if s >= u {
      DivBelowUnits(s - u, m - u, u);
    }
  }

  /** a << k, a doubled k times. */
  function Shift(a: nat, k: nat): nat {
    if k == 0 then a else 2 * Shift(a, k - 1)
  }

  /** a | b. */
  function BitOr(a: nat, b: nat): nat {
    if a == 0 then b else if b == 0 then a
    else (if a % 2 == 1 || b % 2 == 1 then 1 else 0) + 2 * BitOr(a / 2, b / 2)
  }

  lemma {:induction false} OrAtLeast(a: nat, b: nat)
    ensures BitOr(a, b) >= a
  {
    if a > 0 && b > 0 {
      OrAtLeast(a / 2, b / 2);
    }
  }
}
