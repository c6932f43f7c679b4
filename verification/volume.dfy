/**
 * `calculateTreeVolume`: the 'Evergreen Forests' stem-volume formulas. D is the
 * diameter in metres and L the stem height in metres; the polynomial is evaluated
 * in exact real arithmetic and the result is kept in ten-thousandths of a cubic
 * metre, which is what `round(..., 4)` leaves.
 */
module Volume {
  import opened Rounding

  /** The piecewise volume polynomial, in cubic metres, before rounding and clamping. */
  function VolumeFormula(D: real, L: real, isDip: bool): real {
    Piecewise(D, D * D, D * D * L, isDip)
  }

  /**
   * The branch for diameter `D` applied to `D2` = D² and `D2L` = D²·L. The branch
   * is chosen from D and the flag alone; each branch is linear in D² and D²·L.
   */
  function Piecewise(D: real, D2: real, D2L: real, isDip: bool): real {
    if isDip then
      if D < 0.15 then 0.022 + 3.4 * D2
      else if D >= 0.45 then 0.015 + 2.137 * D2 + 0.513 * D2L
      else -0.0971 + 9.503 * D2
    else
      if D < 0.30 then 0.03 + 2.8 * D2
      else if D >= 0.45 then -0.0023 + 2.942 * D2 + 0.262 * D2L
      else -0.331 + 6.694 * D2
  }

  /** Diameter in metres of `d` hundredths of a centimetre. */
  function Metres(d: int): real {
    d as real / 10000.0
  }

  /** Height in metres of `h` hundredths of a metre. */
  function HeightMetres(h: int): real {
    h as real / 100.0
  }

  /**
   * `calculateTreeVolume` for diameter `d` (hundredths of cm) and height `h`
   * (hundredths of m), in ten-thousandths of a cubic metre: the formula rounded to
   * 4 decimals, and never below zero.
   */
  function CalculateTreeVolume(d: int, h: int, isDip: bool): (v: int)
    ensures v >= 0
    ensures VolumeFormula(Metres(d), HeightMetres(h), isDip) < 0.0 ==> v == 0
    ensures VolumeFormula(Metres(d), HeightMetres(h), isDip) >= 0.0 ==>
      v as real - 0.5 <= 10000.0 * VolumeFormula(Metres(d), HeightMetres(h), isDip) < v as real + 0.5
  {
    var r := RoundReal(10000.0 * VolumeFormula(Metres(d), HeightMetres(h), isDip));
    if r < 0 then 0 else r
  }

  /** Below 45 cm the volume does not depend on the height. */
  lemma VolumeIgnoresHeightBelow45cm(d: int, h1: int, h2: int, isDip: bool)
    requires d < 4500
    ensures CalculateTreeVolume(d, h1, isDip) == CalculateTreeVolume(d, h2, isDip)
  {
  }

  /** From 45 cm on, a taller stem never has less volume. */
  lemma VolumeGrowsWithHeight(d: int, h1: int, h2: int, isDip: bool)
    requires d >= 4500 && h1 <= h2
    ensures CalculateTreeVolume(d, h1, isDip) <= CalculateTreeVolume(d, h2, isDip)
  {
    var D := Metres(d);
    var L1, L2 := HeightMetres(h1), HeightMetres(h2);
    NonNegProduct(D * D, L2 - L1);
    assert D * D * L1 <= D * D * L2;
    RoundRealMonotone(10000.0 * VolumeFormula(D, L1, isDip), 10000.0 * VolumeFormula(D, L2, isDip));
  }

  /** Non-dipterocarp, D = 0.20 m: 0.03 + 2.8 · 0.04 = 0.142 m³, whatever the height. */
  lemma VolumeExampleNonDip20cm(h: int)
    ensures CalculateTreeVolume(2000, h, false) == 1420
  {
    assert VolumeFormula(Metres(2000), HeightMetres(h), false) == 0.142;
  }

  /** Dipterocarp, D = 0.50 m, L = 20 m: 3.11425 m³, rounded half up to 3.1143. */
  lemma VolumeExampleDip50cm()
    ensures CalculateTreeVolume(5000, 2000, true) == 31143
  {
    assert VolumeFormula(Metres(5000), HeightMetres(2000), true) == 3.11425;
  }

  /**
   * The non-dipterocarp formulas do not meet at 30 cm: a 29.99 cm tree has more
   * volume than a 30.00 cm one of any height.
   */
  lemma VolumeDropsAt30cm(h: int)
    ensures CalculateTreeVolume(2999, h, false) == 2818
    ensures CalculateTreeVolume(3000, h, false) == 2715
  {
    assert VolumeFormula(Metres(2999), HeightMetres(h), false) == 0.281832028;
    assert VolumeFormula(Metres(3000), HeightMetres(h), false) == 0.27146;
  }

  /** Which formula applies depends on the diameter and the dipterocarp flag only. */
  function FormulaIndex(d: int, isDip: bool): int {
    if isDip then (if d < 1500 then 0 else if d >= 4500 then 2 else 1)
    else (if d < 3000 then 0 else if d >= 4500 then 2 else 1)
  }

  lemma NonNegProduct(a: real, b: real)
    requires a >= 0.0 && b >= 0.0
    ensures a * b >= 0.0
  {
  }

  /** The integer diameter thresholds are the formulas' thresholds in metres. */
  lemma MetreThresholds(d: int)
    ensures d < 1500 <==> Metres(d) < 0.15
    ensures d < 3000 <==> Metres(d) < 0.30
    ensures d >= 4500 <==> Metres(d) >= 0.45
  {
  }

  lemma SquaresOrdered(D1: real, D2: real, L: real)
    requires 0.0 <= D1 <= D2 && L >= 0.0
    ensures D1 * D1 <= D2 * D2
    ensures D1 * D1 * L <= D2 * D2 * L
  {
    NonNegProduct(D1, D2 - D1);
    NonNegProduct(D2, D2 - D1);
    NonNegProduct(D2 * D2 - D1 * D1, L);
  }

  /** Each branch grows with D² and D²·L. */
  lemma PiecewiseMonotone(D1: real, D2: real, S1: real, S2: real, T1: real, T2: real, isDip: bool)
    requires isDip ==> (D1 < 0.15 <==> D2 < 0.15) && (D1 >= 0.45 <==> D2 >= 0.45)
    requires !isDip ==> (D1 < 0.30 <==> D2 < 0.30) && (D1 >= 0.45 <==> D2 >= 0.45)
    requires S1 <= S2 && T1 <= T2
    ensures Piecewise(D1, S1, T1, isDip) <= Piecewise(D2, S2, T2, isDip)
  {
  }

  /** The squared diameters, and their products with a height, keep the diameters' order. */
  lemma SquaresOrderedAt(d1: int, d2: int, h: int)
    requires 0 <= d1 <= d2 && h >= 0
    ensures Metres(d1) * Metres(d1) <= Metres(d2) * Metres(d2)
    ensures Metres(d1) * Metres(d1) * HeightMetres(h) <= Metres(d2) * Metres(d2) * HeightMetres(h)
  {
    SquaresOrdered(Metres(d1), Metres(d2), HeightMetres(h));
  }

  /** Diameters with the same formula index fall in the same branch of the polynomial. */
  lemma SameBranch(d1: int, d2: int, isDip: bool)
    requires FormulaIndex(d1, isDip) == FormulaIndex(d2, isDip)
    ensures isDip ==> (Metres(d1) < 0.15 <==> Metres(d2) < 0.15) && (Metres(d1) >= 0.45 <==> Metres(d2) >= 0.45)
    ensures !isDip ==> (Metres(d1) < 0.30 <==> Metres(d2) < 0.30) && (Metres(d1) >= 0.45 <==> Metres(d2) >= 0.45)
  {
    MetreThresholds(d1);
    MetreThresholds(d2);
  }

  /** Within one formula, the unrounded volume grows with the diameter. */
  lemma FormulaGrowsWithDiameter(d1: int, d2: int, h: int, isDip: bool)
    requires 0 <= d1 <= d2 && h >= 0
    requires FormulaIndex(d1, isDip) == FormulaIndex(d2, isDip)
    ensures VolumeFormula(Metres(d1), HeightMetres(h), isDip) <= VolumeFormula(Metres(d2), HeightMetres(h), isDip)
  {
    var D1, D2, L := Metres(d1), Metres(d2), HeightMetres(h);
    SquaresOrderedAt(d1, d2, h);
    SameBranch(d1, d2, isDip);
    PiecewiseMonotone(D1, D2, D1 * D1, D2 * D2, D1 * D1 * L, D2 * D2 * L, isDip);
  }

  /** Within one formula, a thicker tree of the same height never has less volume. */
  lemma VolumeGrowsWithDiameter(d1: int, d2: int, h: int, isDip: bool)
    requires 0 <= d1 <= d2 && h >= 0
    requires FormulaIndex(d1, isDip) == FormulaIndex(d2, isDip)
    ensures CalculateTreeVolume(d1, h, isDip) <= CalculateTreeVolume(d2, h, isDip)
  {
    var f1 := VolumeFormula(Metres(d1), HeightMetres(h), isDip);
    var f2 := VolumeFormula(Metres(d2), HeightMetres(h), isDip);
    FormulaGrowsWithDiameter(d1, d2, h, isDip);
    RoundRealMonotone(10000.0 * f1, 10000.0 * f2);
  }
}
