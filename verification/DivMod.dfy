/** Division facts for halving segments of aligned groups. */
module DivMod {

  lemma DivUnique(a: nat, d: nat, q: nat, r: nat)
    requires d > 0 && a == q * d + r && r < d
    ensures a / d == q && a % d == r
  {
    var q', r' := a / d, a % d;
    assert a == q' * d + r';
    assert (q - q') * d == r' - r && (q' - q) * d == r - r';
    if q > q' {
      MulGrows(q - q', d);
    } else if q < q' {
      MulGrows(q' - q, d);
    }
  }

  lemma MulGrows(a: int, d: int)
    requires a >= 1 && d >= 0
    ensures a * d >= d
  {
  }

  /** Division by 2d splits into division by d and then by 2. */
  lemma HalveDivision(x: nat, d: nat)
    requires d > 0
    ensures x / (2 * d) == (x / d) / 2
    ensures x % (2 * d) == ((x / d) % 2) * d + x % d
  {
    var q, r := x / d, x % d;
    assert x == q * d + r;
    assert q == 2 * (q / 2) + q % 2;
    assert q * d == (q / 2) * (2 * d) + (q % 2) * d by {
      assert (2 * (q / 2) + q % 2) * d == (q / 2) * (2 * d) + (q % 2) * d;
    }
    assert (q % 2) * d <= d;
    DivUnique(x, 2 * d, q / 2, (q % 2) * d + r);
  }

  lemma SameModulo2d(x: nat, y: nat, d: nat)
    requires d > 0
    ensures x % (2 * d) == y % (2 * d) <==> x % d == y % d && (x / d) % 2 == (y / d) % 2
  {
    HalveDivision(x, d);
    HalveDivision(y, d);
  }

  /** Adding or removing one d moves the quotient by one and keeps the remainder. */
  lemma ShiftByD(x: nat, d: nat)
    requires d > 0
    ensures (x + d) / d == x / d + 1 && (x + d) % d == x % d
    ensures x >= d ==> x / d >= 1 && (x - d) / d == x / d - 1 && (x - d) % d == x % d
  {
    DivUnique(x + d, d, x / d + 1, x % d);
    if x >= d {
      assert x == (x / d) * d + x % d;
      DivUnique(x - d, d, x / d - 1, x % d);
    }
  }

  lemma OddQuotient(x: nat, d: nat)
    requires d > 0 && (x / d) % 2 == 1
    ensures x >= d
  {
  }

  /** Start of the aligned segment of d groups that contains g. */
  function AlignDown(g: nat, d: nat): (lo: nat)
    requires d > 0
    ensures lo <= g < lo + d
  {
    g / d * d
  }

  function Partner(g: nat, d: nat): nat
    requires d > 0
  {
    if (g / d) % 2 == 0 then g + d else OddQuotient(g, d); g - d
  }

  /** Partnering is an involution that stays within the segment of 2d groups and swaps its halves. */
  lemma PartnerFacts(g: nat, d: nat)
    requires d > 0
    ensures Partner(Partner(g, d), d) == g
    ensures Partner(g, d) % d == g % d
    ensures (Partner(g, d) / d) % 2 == 1 - (g / d) % 2
    ensures AlignDown(Partner(g, d), 2 * d) == AlignDown(g, 2 * d)
    ensures AlignDown(g, d) == AlignDown(g, 2 * d) + ((g / d) % 2) * d
    ensures AlignDown(Partner(g, d), d) == AlignDown(g, 2 * d) + (1 - (g / d) % 2) * d
  {
    var p := Partner(g, d);
    if (g / d) % 2 == 0 {
      ShiftByD(g, d);
    } else {
      OddQuotient(g, d);
      ShiftByD(g, d);
    }
    AlignHalves(g, d);
    AlignHalves(p, d);
    HalveDivision(g, d);
    HalveDivision(p, d);
  }

  lemma AlignHalves(g: nat, d: nat)
    requires d > 0
    ensures AlignDown(g, d) == AlignDown(g, 2 * d) + ((g / d) % 2) * d
  {
    HalveDivision(g, d);
    var q := g / d;
    assert q == 2 * (q / 2) + q % 2;
    assert q * d == (2 * (q / 2) + q % 2) * d == (q / 2) * (2 * d) + (q % 2) * d;
  }

  /** The groups congruent to g modulo d are those congruent to g, or to its partner, modulo 2d. */
  lemma ResiduesSplit(x: nat, g: nat, d: nat)
    requires d > 0
    ensures x % d == g % d <==> x % (2 * d) == g % (2 * d) || x % (2 * d) == Partner(g, d) % (2 * d)
    ensures g % (2 * d) != Partner(g, d) % (2 * d)
  {
    PartnerFacts(g, d);
    SameModulo2d(x, g, d);
    SameModulo2d(x, Partner(g, d), d);
    SameModulo2d(g, Partner(g, d), d);
  }

  lemma ModOnce(a: nat, n: nat)
    requires 0 < n && a < 2 * n
    ensures a % n == if a < n then a else a - n
  {
    if a < n {
      DivUnique(a, n, 0, a);
    } else {
      DivUnique(a, n, 1, a - n);
    }
  }

  lemma MulMonotone(a: nat, b: nat, c: nat)
    requires a <= b
    ensures c * a <= c * b && a * c <= b * c
  {
  }
}
