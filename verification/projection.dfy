/**
 * The passes after the damage simulation: `calculateProduction`,
 * `applyDiameterIncrement` and `calculate30YearProjections`.
 */
module Projection {
  import opened Wrappers
  import opened Random
  import opened Forest
  import opened Height
  import opened Volume
  import opened Felling

  /** Production applies to the trees that leave the forest: cut ones and victims. */
  predicate Harvested(s: Status) {
    s == Cut || s == Victim
  }

  /** `calculateProduction` on one tree: the full volume for cut and victim trees, none otherwise. */
  function TreeProduction(t: Tree): (r: Tree)
    ensures r == t.(prod := r.prod)
    ensures r.prod.Some? <==> Harvested(t.status)
    ensures r.prod.Some? ==> r.prod.value == t.volume
  {
    match t.status
    case Cut => t.(prod := Some(t.volume))
    case Victim => t.(prod := Some(t.volume))
    case _ => t.(prod := None)
  }

  /** `calculateProduction`: every tree's production from its final status. */
  function CalculateProduction(ts: seq<Tree>): (r: seq<Tree>)
    ensures |r| == |ts|
    ensures forall k :: 0 <= k < |ts| ==> r[k] == ts[k].(prod := r[k].prod)
    ensures forall k :: 0 <= k < |ts| ==> (r[k].prod.Some? <==> Harvested(ts[k].status))
    ensures forall k :: 0 <= k < |ts| ==> r[k].prod.Some? ==> r[k].prod.value == ts[k].volume
  {
    seq(|ts|, k requires 0 <= k < |ts| => TreeProduction(ts[k]))
  }

  /** Computing production twice changes nothing: it reads only status and volume. */
  lemma ProductionIdempotent(ts: seq<Tree>)
    ensures CalculateProduction(CalculateProduction(ts)) == CalculateProduction(ts)
  {
    var once := CalculateProduction(ts);
    var twice := CalculateProduction(once);
    forall k | 0 <= k < |ts| ensures twice[k] == once[k] {
      assert once[k].status == ts[k].status && once[k].volume == ts[k].volume;
    }
  }

  /** The yearly growth of a diameter (hundredths of a cm) by its class: none below 5 cm. */
  function YearlyIncrement(d: int): int {
    if 500 <= d < 1500 then 40
    else if 1500 <= d < 3000 then 60
    else if 3000 <= d < 4500 then 50
    else if 4500 <= d < 6000 then 50
    else if d >= 6000 then 70
    else 0
  }

  /** `applyDiameterIncrement`: one year's growth; a tree of 5 cm or more grows 0.4 to 0.7 cm, a thinner one not at all. */
  function ApplyDiameterIncrement(d: int): (r: int)
    ensures r >= d
    ensures r == d <==> d < 500
    ensures d >= 500 ==> d + 40 <= r <= d + 70
  {
    d + YearlyIncrement(d)
  }

  /** Growing is not order-preserving: 29.99 cm grows 0.6 cm and overtakes 30.00 cm, which grows 0.5 cm. */
  lemma IncrementReordersAt30cm()
    ensures ApplyDiameterIncrement(2999) > ApplyDiameterIncrement(3000)
  {
  }

  /** The diameter after `years` yearly increments. */
  function Grow(d: int, years: nat): (r: int)
    ensures d < 500 ==> r == d
    ensures d >= 500 ==> d + 40 * years <= r <= d + 70 * years
    decreases years
  {
    if years == 0 then d else Grow(ApplyDiameterIncrement(d), years - 1)
  }

  /** The projection horizon, in years. */
  const Horizon := 30

  /** Over 30 years a tree of 5 cm or more gains between 12 cm and 21 cm. */
  lemma ThirtyYearGrowth(d: int)
    requires d >= 500
    ensures d + 1200 <= Grow(d, Horizon) <= d + 2100
  {
  }

  /** Growth never makes a tree thinner, over any number of years. */
  lemma {:induction false} GrowNeverShrinks(d: int, m: nat, n: nat)
    requires m <= n
    ensures Grow(d, m) <= Grow(d, n)
    decreases m
  {
    if m > 0 {
      GrowNeverShrinks(ApplyDiameterIncrement(d), m - 1, n - 1);
    } else {
      assert Grow(d, n) >= d;
    }
  }

  /** `t` is a tree the projection covers: one still standing in the forest. */
  predicate Projected(t: Tree) {
    t.status == Stand || t.status == Keep
  }

  /** `b` is `a` with at most its three projection fields changed. */
  predicate OnlyProjectionChanged(a: Tree, b: Tree) {
    b == a.(diameter30 := b.diameter30, volume30 := b.volume30, prod30 := b.prod30)
  }

  /**
   * The projection fields `r` carries for tree `t` at felling threshold
   * `threshold`: for a standing tree, the diameter after 30 years of growth, the
   * volume of a tree of that diameter at some height the height model can give it,
   * and that volume as 30-year production exactly when the grown tree would meet
   * the felling criteria; for a cut or victim tree, none of the three.
   */
  ghost predicate ProjectionOf(t: Tree, threshold: int, r: Tree) {
    if Projected(t) then
      && r.diameter30 == Some(Grow(t.sp.diameter, Horizon))
      && r.volume30.Some?
      && (exists h :: HeightInRange(r.diameter30.value, h)
            && r.volume30.value == CalculateTreeVolume(r.diameter30.value, h, t.sp.dipFlag != 0))
      && (r.prod30.Some? <==> DetermineFellingCriteria(t.sp.group, r.diameter30.value, threshold) == Met)
      && (r.prod30.Some? ==> r.prod30 == r.volume30)
    else
      r.diameter30.None? && r.volume30.None? && r.prod30.None?
  }

  /** The projection fields depend only on what projection leaves unchanged, so a projected tree carries its own projection. */
  lemma ProjectionOfSelf(t: Tree, threshold: int, r: Tree)
    requires OnlyProjectionChanged(t, r) && ProjectionOf(t, threshold, r)
    ensures ProjectionOf(r, threshold, r)
  {
    assert r.sp == t.sp && r.status == t.status;
  }

  /**
   * The projection of one tree. A standing tree draws one fresh height for its
   * grown diameter; a cut or victim tree draws nothing.
   */
  function ProjectTree(t: Tree, threshold: int, g: Rng): (r: (Tree, Rng))
    ensures OnlyProjectionChanged(t, r.0)
    ensures ProjectionOf(t, threshold, r.0)
    ensures Advanced(g, r.1, if Projected(t) then 1 else 0)
  {
    if Projected(t) then
      var d30 := Grow(t.sp.diameter, Horizon);
      var h := GenerateHeight(d30, g);
      var v30 := CalculateTreeVolume(d30, h.0, t.sp.dipFlag != 0);
      var p30 := if DetermineFellingCriteria(t.sp.group, d30, threshold) == Met then Some(v30) else None;
      (t.(diameter30 := Some(d30), volume30 := Some(v30), prod30 := p30), h.1)
    else
      (t.(diameter30 := None, volume30 := None, prod30 := None), g)
  }

  /** The number of trees the projection covers. */
  function ProjectedCount(ts: seq<Tree>): nat {
    if ts == [] then 0 else (if Projected(ts[0]) then 1 else 0) + ProjectedCount(ts[1..])
  }

  /** `calculate30YearProjections`: every tree in order; one height draw per standing tree. */
  function Calculate30YearProjections(ts: seq<Tree>, threshold: int, g: Rng): (r: (seq<Tree>, Rng))
    ensures |r.0| == |ts|
    ensures forall k :: 0 <= k < |ts| ==> OnlyProjectionChanged(ts[k], r.0[k])
    ensures forall k :: 0 <= k < |ts| ==> ProjectionOf(ts[k], threshold, r.0[k])
    ensures Advanced(g, r.1, ProjectedCount(ts))
    decreases |ts|
  {
    if ts == [] then ([], g)
    else
      var first := ProjectTree(ts[0], threshold, g);
      var rest := Calculate30YearProjections(ts[1..], threshold, first.1);
      ([first.0] + rest.0, rest.1)
  }

  /**
   * A standing tree of an eligible group that is within 12 cm of the threshold
   * (and at least 5 cm thick) is certain to carry a 30-year production.
   */
  lemma ProjectedHarvestWithin12cm(t: Tree, threshold: int, r: Tree)
    requires ProjectionOf(t, threshold, r) && Projected(t)
    requires t.sp.group in FellingGroups && t.sp.diameter >= 500 && t.sp.diameter + 1200 > threshold
    ensures r.prod30.Some? && r.prod30 == r.volume30
  {
    ThirtyYearGrowth(t.sp.diameter);
  }

  /** A tree of a group outside the felling groups never carries a 30-year production. */
  lemma NoProjectedHarvestOutsideGroups(t: Tree, threshold: int, r: Tree)
    requires ProjectionOf(t, threshold, r) && t.sp.group !in FellingGroups
    ensures r.prod30.None?
  {
  }
}
