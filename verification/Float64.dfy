/** The conversion of an integer to float64 (round to nearest, ties to even) that Seek's bound check goes through. */
module Float64 {
  const TWO_53: int := 0x20_0000_0000_0000

  /** The spacing of float64 values around x. */
  function Ulp(x: nat): (u: nat)
    ensures u >= 1
  {
    if x < TWO_53 then 1 else 2 * Ulp(x / 2)
  }

  function Round(x: nat): nat
  {
    var u := Ulp(x);
    Nearest(x / u, x % u, u)
  }

  /** The multiple of u nearest to q * u + r, an even one if that lies halfway. */
  function Nearest(q: nat, r: nat, u: nat): nat
  {
    if 2 * r < u || (2 * r == u && q % 2 == 0) then q * u else (q + 1) * u
  }

  /** Integers up to 2^53 convert exactly. */
  lemma RoundIsExact(x: nat)
    requires x <= TWO_53
    ensures Round(x) == x
  {
    if x == TWO_53 {
      assert Ulp(x) == 2;
    }
  }

  lemma {:induction false} UlpIsRelative(x: nat)
    requires x >= TWO_53
    ensures Ulp(x) >= 2 && x >= 0x10_0000_0000_0000 * Ulp(x)
  {
    if x / 2 >= TWO_53 {
      UlpIsRelative(x / 2);
    } else {
      assert Ulp(x / 2) == 1;
    }
  }

  lemma MulMonotone(a: nat, b: nat, u: nat)
    requires a <= b
    ensures a * u <= b * u
  {
  }

  /** An integer from 2^53 on never rounds below 2^53. */
  lemma RoundKeepsLarge(x: nat)
    requires x >= TWO_53
    ensures Round(x) >= TWO_53
  {
    UlpIsRelative(x);
    var u := Ulp(x);
    var q := x / u;
    assert x == q * u + x % u;
    assert (q + 1) * u == q * u + u;
    if q + 1 <= 0x10_0000_0000_0000 {
      MulMonotone(q + 1, 0x10_0000_0000_0000, u);
      assert false;
    }
    MulMonotone(0x10_0000_0000_0000, q, u);
  }

  /** The rounding error is at most half the spacing. */
  lemma RoundIsNearest(x: nat)
    ensures 2 * (if Round(x) >= x then Round(x) - x else x - Round(x)) <= Ulp(x)
  {
    var u := Ulp(x);
    var q, r, below := Parts(x, u);
    NearestOfParts(x, u, q, r, below, Round(x));
  }

  lemma Parts(x: nat, u: nat) returns (q: nat, r: nat, below: nat)
    requires u >= 1
    ensures q == x / u && r == x % u && x == below + r && r < u
    ensures Nearest(q, r, u) == if 2 * r < u || (2 * r == u && q % 2 == 0) then below else below + u
  {
    q, r := x / u, x % u;
    below := q * u;
    assert x == below + r;
    assert (q + 1) * u == below + u;
  }

  lemma NearestOfParts(x: nat, u: nat, q: nat, r: nat, below: nat, rounded: nat)
    requires x == below + r && r < u
    requires rounded == if 2 * r < u || (2 * r == u && q % 2 == 0) then below else below + u
    ensures 2 * (if rounded >= x then rounded - x else x - rounded) <= u
  {
  }

  /** The rounded value is a multiple of the spacing, an even one if the value lies halfway. */
  lemma RoundIsMultiple(x: nat) returns (m: nat)
    ensures Round(x) == m * Ulp(x)
    ensures 2 * (x % Ulp(x)) == Ulp(x) ==> m % 2 == 0
  {
    var u := Ulp(x);
    var q, r := x / u, x % u;
    m := if 2 * r < u || (2 * r == u && q % 2 == 0) then q else q + 1;
  }

  function Pow2(n: nat): nat { if n == 0 then 1 else 2 * Pow2(n - 1) }

  /** The spacing is the power of two that leaves a value from 2^53 on 53 significant bits. */
  lemma {:induction false} UlpIsPower(x: nat) returns (n: nat)
    ensures Ulp(x) == Pow2(n) && x < TWO_53 * Ulp(x)
    ensures x >= TWO_53 ==> x >= 0x10_0000_0000_0000 * Ulp(x)
    ensures x < TWO_53 ==> Ulp(x) == 1
  {
    if x < TWO_53 {
      n := 0;
    } else {
      var m := UlpIsPower(x / 2);
      n := m + 1;
      UlpIsRelative(x);
    }
  }
}
