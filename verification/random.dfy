/**
 * The engine's single pseudo-random source, made explicit. The source calls
 * `rand(lo, hi)`, `array_rand` and `shuffle` on process-wide state; here every
 * such call consumes the next value of an explicit stream, so a run is a pure
 * function of (inputs, stream).
 */
module Random {

  /** A seedable random source: an unbounded stream of raw draws and a read position. */
  datatype Rng = Rng(stream: nat -> int, pos: nat)

  /** `g'` is `g` after exactly `n` draws. */
  ghost predicate Advanced(g: Rng, g': Rng, n: nat) {
    g'.stream == g.stream && g'.pos == g.pos + n
  }

  /** The source after one more draw. */
  function Next(g: Rng): (g': Rng)
    ensures Advanced(g, g', 1)
  {
    Rng(g.stream, g.pos + 1)
  }

  /**
   * `rand(lo, hi)`: the next raw draw folded into the closed range [lo, hi].
   * Consumes exactly one draw.
   */
  function Rand(g: Rng, lo: int, hi: int): (r: (int, Rng))
    requires lo <= hi
    ensures lo <= r.0 <= hi
    ensures Advanced(g, r.1, 1)
  {
    (lo + g.stream(g.pos) % (hi - lo + 1), Next(g))
  }

  /** Every value of the range is produced by some stream: the fold loses no outcome of `rand`. */
  lemma RandReachable(lo: int, hi: int, v: int, pos: nat)
    requires lo <= v <= hi
    ensures Rand(Rng((n: nat) => v - lo, pos), lo, hi).0 == v
  {
    var g := Rng((n: nat) => v - lo, pos);
    assert g.stream(g.pos) == v - lo;
    assert 0 <= v - lo < hi - lo + 1;
    assert (v - lo) % (hi - lo + 1) == v - lo;
  }
}
