/**
 * `generateSuitableHeight`: a stem height drawn for a diameter. Diameters are in
 * hundredths of a cm and heights in hundredths of a metre, so the source's
 * `round(..., 2)` is a rounding to whole units here.
 */
module Height {
  import opened Random
  import opened Rounding

  /** The random offset range (hundredths of m) and slope (tenths of m per cm) of a diameter bracket. */
  datatype Bracket = Bracket(offsetLow: int, offsetHigh: int, slopeTenths: int)

  /** The bracket of a diameter: below 15, 30, 45, 60 cm, or 60 cm and above. */
  function BracketOf(d: int): (b: Bracket)
    ensures 500 <= b.offsetLow < b.offsetHigh
    ensures 5 <= b.slopeTenths <= 9
  {
    if d < 1500 then Bracket(500, 1000, 5)
    else if d < 3000 then Bracket(1000, 1500, 6)
    else if d < 4500 then Bracket(1500, 2000, 7)
    else if d < 6000 then Bracket(2000, 2500, 8)
    else Bracket(2500, 3500, 9)
  }

  /** The height for diameter `d` and drawn offset `o`: round(o/100 + (d/100)·slope, 2), in hundredths. */
  function HeightFor(d: int, o: int): int {
    RoundTenths(10 * o + d * BracketOf(d).slopeTenths)
  }

  /** `h` is a height the model can produce for diameter `d`. */
  ghost predicate HeightInRange(d: int, h: int) {
    exists o :: BracketOf(d).offsetLow <= o <= BracketOf(d).offsetHigh && h == HeightFor(d, o)
  }

  /**
   * `generateSuitableHeight`: one draw of the bracket's offset, plus the bracket's
   * slope times the diameter, rounded to hundredths of a metre.
   */
  function GenerateHeight(d: int, g: Rng): (r: (int, Rng))
    ensures HeightInRange(d, r.0)
    ensures d >= 0 ==>
      10 * BracketOf(d).offsetLow + d * BracketOf(d).slopeTenths - 5
        <= 10 * r.0 <=
      10 * BracketOf(d).offsetHigh + d * BracketOf(d).slopeTenths + 5
    ensures Advanced(g, r.1, 1)
  {
    var b := BracketOf(d);
    var (o, g') := Rand(g, b.offsetLow, b.offsetHigh);
    (HeightFor(d, o), g')
  }

  /** Every height in the range is produced by some random source. */
  lemma HeightReachable(d: int, h: int) returns (g: Rng)
    requires HeightInRange(d, h)
    ensures GenerateHeight(d, g).0 == h
  {
    var b := BracketOf(d);
    var o :| b.offsetLow <= o <= b.offsetHigh && h == HeightFor(d, o);
    g := Rng((n: nat) => o - b.offsetLow, 0);
    RandReachable(b.offsetLow, b.offsetHigh, o, 0);
  }

  /** A tree with a non-negative diameter is at least 5 m tall. */
  lemma HeightAtLeastFiveMetres(d: int, h: int)
    requires d >= 0 && HeightInRange(d, h)
    ensures h >= 500
  {
    var b := BracketOf(d);
    var o :| b.offsetLow <= o <= b.offsetHigh && h == HeightFor(d, o);
    assert d * b.slopeTenths >= 0;
  }
}
