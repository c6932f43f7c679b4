/**
 * `isTreeDamaged` and `simulateForestDamage`: every cut tree falls at a random
 * angle and damages the other trees of its block. A tree in the fall's stem zone
 * becomes a victim; a tree close to the cutter but outside the stem zone gets crown
 * damage and is kept. Coordinates are whole block units (1..100), heights are in
 * hundredths of a metre, damage in hundredths of a percent.
 */
module Damage {
  import opened Wrappers
  import opened Random
  import opened Rounding
  import opened Forest

  /** The outcome of one damage check. */
  datatype Hit = Hit(stem: bool, crown: bool)

  /** Crown damage reaches this many units from the cutter. */
  const CrownReach := 15

  /** Side of the stem zone: the cutter's height rounded to whole metres, plus 5 units. */
  function DamageExtent(h: int): int {
    RoundHundredths(h) + 5
  }

  /**
   * The quadrant a fall at `angle` degrees sweeps, as the signs of its x and y
   * offsets: [0, 90) up-right, [90, 180) down-right, [180, 270) down-left,
   * [270, 360] up-left. Any other angle sweeps none.
   */
  function FallQuadrant(angle: int): (q: Option<(int, int)>)
    ensures q.Some? <==> 0 <= angle <= 360
    ensures q.Some? ==> (q.value.0 == 1 || q.value.0 == -1) && (q.value.1 == 1 || q.value.1 == -1)
  {
    if 0 <= angle < 90 then Some((1, 1))
    else if angle < 0 then None
    else if angle < 180 then Some((1, -1))
    else if angle < 270 then Some((-1, -1))
    else if angle <= 360 then Some((-1, 1))
    else None
  }

  /**
   * The stem zone: the open square of side `DamageExtent(h)` with a corner at the
   * cutter, on the side of the quadrant the fall sweeps.
   */
  ghost predicate InStemZone(tx: int, ty: int, cx: int, cy: int, h: int, angle: int) {
    var q := FallQuadrant(angle);
    q.Some? && 0 < q.value.0 * (tx - cx) < DamageExtent(h) && 0 < q.value.1 * (ty - cy) < DamageExtent(h)
  }

  /** The square of the distance between target and cutter. */
  function SquaredDistance(tx: int, ty: int, cx: int, cy: int): (r: int)
    ensures r >= 0
    ensures r == 0 <==> tx == cx && ty == cy
  {
    (tx - cx) * (tx - cx) + (ty - cy) * (ty - cy)
  }

  /**
   * `isTreeDamaged`: stem damage when the target is in the stem zone of the fall;
   * crown damage when it is within 15 units of the cutter, is not the cutter's own
   * position, and has no stem damage. `sqrt(s) > 0 && sqrt(s) <= 15` is `0 < s <= 225`
   * for the whole squared distance `s`.
   */
  function IsTreeDamaged(tx: int, ty: int, cx: int, cy: int, h: int, angle: int): (r: Hit)
    ensures r.stem <==> InStemZone(tx, ty, cx, cy, h, angle)
    ensures r.crown <==> !r.stem && 0 < SquaredDistance(tx, ty, cx, cy) <= CrownReach * CrownReach
    ensures !(r.stem && r.crown)
  {
    var ext := RoundHundredths(h) + 5;
    var stem :=
      if 0 <= angle < 90 then cx < tx < cx + ext && cy < ty < cy + ext
      else if 90 <= angle < 180 then cx < tx < cx + ext && cy - ext < ty < cy
      else if 180 <= angle < 270 then cx - ext < tx < cx && cy - ext < ty < cy
      else if 270 <= angle <= 360 then cx - ext < tx < cx && cy < ty < cy + ext
      else false;
    var s := (tx - cx) * (tx - cx) + (ty - cy) * (ty - cy);
    Hit(stem, 0 < s <= 225 && !stem)
  }

  /** A tree standing on the cutter's own position is never damaged. */
  lemma NoDamageAtCutter(x: int, y: int, h: int, angle: int)
    ensures IsTreeDamaged(x, y, x, y, h, angle) == Hit(false, false)
  {
  }

  /** Crown damage never reaches beyond 15 units along either axis. */
  lemma CrownWithinReach(tx: int, ty: int, cx: int, cy: int, h: int, angle: int)
    requires IsTreeDamaged(tx, ty, cx, cy, h, angle).crown
    ensures -CrownReach <= tx - cx <= CrownReach && -CrownReach <= ty - cy <= CrownReach
  {
    var dx, dy := tx - cx, ty - cy;
    SquareBeyondReach(dx);
    SquareBeyondReach(dy);
    SquareNonNegative(dx);
    SquareNonNegative(dy);
    assert SquaredDistance(tx, ty, cx, cy) == dx * dx + dy * dy;
  }

  /** A square is never negative. */
  lemma SquareNonNegative(x: int)
    ensures x * x >= 0
  {
    if x < 0 { assert x * x == (-x) * (-x); }
  }

  /** An offset beyond the crown reach has a square beyond the reach's square. */
  lemma SquareBeyondReach(x: int)
    ensures x > CrownReach ==> x * x > CrownReach * CrownReach
    ensures x < -CrownReach ==> x * x > CrownReach * CrownReach
  {
    if x > CrownReach { assert x * x >= 16 * x; }
    if x < -CrownReach { assert x * x >= -16 * x; }
  }

  /** Every angle `rand(1, 360)` can give sweeps exactly one quadrant. */
  lemma DrawnAnglesSweepAQuadrant(angle: int)
    requires 1 <= angle <= 360
    ensures FallQuadrant(angle).Some?
  {
  }

  /** A tall cutter's stem zone covers a shorter cutter's: stem damage grows with the cutter's height. */
  lemma StemZoneGrowsWithHeight(tx: int, ty: int, cx: int, cy: int, h1: int, h2: int, angle: int)
    requires h1 <= h2
    requires IsTreeDamaged(tx, ty, cx, cy, h1, angle).stem
    ensures IsTreeDamaged(tx, ty, cx, cy, h2, angle).stem
  {
    assert RoundHundredths(h1) <= RoundHundredths(h2);
  }

  /** `t` is one of the trees the cutter `c` is checked against: same block, another id, not cut. */
  predicate IsTarget(t: Tree, c: Tree) {
    t.sp.blockI == c.sp.blockI && t.sp.blockJ == c.sp.blockJ && t.sp.id != c.sp.id && t.status != Cut
  }

  /** The damage check of target `t` against cutter `c` falling at `angle`. */
  function HitBy(t: Tree, c: Tree, angle: int): Hit {
    IsTreeDamaged(t.sp.x, t.sp.y, c.sp.x, c.sp.y, c.sp.height, angle)
  }

  /** `b` is `a` with at most its status and damage fields changed. */
  predicate OnlyDamageChanged(a: Tree, b: Tree) {
    b == a.(status := b.status, damageStem := b.damageStem, damageCrown := b.damageCrown)
  }

  /**
   * What one damage check does to a tree's status, whatever the roll: a non-target
   * is left alone; a target becomes a victim when it was one or is stem-hit, is kept
   * when it is not a victim and was kept or is crown-hit, and otherwise stays
   * standing; only the status and damage fields change, and consistent damage stays
   * consistent.
   */
  ghost predicate DamageStep(t: Tree, c: Tree, angle: int, t': Tree) {
    && (!IsTarget(t, c) ==> t' == t)
    && (IsTarget(t, c) ==>
         && OnlyDamageChanged(t, t')
         && (t'.status == Victim <==> t.status == Victim || HitBy(t, c, angle).stem)
         && (t'.status == Keep <==> t'.status != Victim && (t.status == Keep || HitBy(t, c, angle).crown)))
    && (DamageConsistent(t) ==> DamageConsistent(t'))
  }

  /**
   * What one damage check does to a target's damage values: a stem hit records
   * 100 % stem damage and no crown damage; a crown hit on a non-victim records a
   * fresh roll in [10 %, 50 %] and no stem damage; a miss clears the damage of a
   * stand tree and leaves a kept tree or a victim exactly as it was, and so does a
   * crown hit on a victim.
   */
  ghost predicate DamageValues(t: Tree, c: Tree, angle: int, t': Tree) {
    IsTarget(t, c) ==>
      var h := HitBy(t, c, angle);
      && (h.stem ==> t'.damageStem == Some(FullStemDamage) && t'.damageCrown.None?)
      && (h.crown && t.status != Victim ==>
            t'.damageStem.None? && t'.damageCrown.Some? && CrownLow <= t'.damageCrown.value <= CrownHigh)
      && (!h.stem && !h.crown && t.status == Stand ==> t'.damageStem.None? && t'.damageCrown.None?)
      && (!h.stem && !(h.crown && t.status != Victim) && t.status != Stand ==> t' == t)
  }

  /**
   * One target against one cutter. Stem damage makes a victim with 100 % stem
   * damage; crown damage on a non-victim keeps the tree with a fresh roll in
   * [10 %, 50 %] (a later roll replaces an earlier one); a stand tree with neither
   * has its damage fields cleared.
   */
  function DamageTarget(t: Tree, c: Tree, angle: int, g: Rng): (r: (Tree, Rng))
    ensures DamageStep(t, c, angle, r.0)
    ensures DamageValues(t, c, angle, r.0)
    ensures MayBecome(t.status, r.0.status)
    ensures r.0.cutAngle == t.cutAngle && (r.0.status == Cut <==> t.status == Cut)
    ensures IsTarget(t, c) && t.status != Victim && HitBy(t, c, angle).crown ==>
      r.0.damageCrown == Some(Rand(g, CrownLow, CrownHigh).0) && Advanced(g, r.1, 1)
    ensures !(IsTarget(t, c) && t.status != Victim && HitBy(t, c, angle).crown) ==> r.1 == g
  {
    if IsTarget(t, c) then
      var hit := HitBy(t, c, angle);
      if hit.stem then
        (t.(status := Victim, damageStem := Some(FullStemDamage), damageCrown := None), g)
      else if hit.crown then
        if t.status != Victim then
          var roll := Rand(g, CrownLow, CrownHigh);
          (t.(status := Keep, damageCrown := Some(roll.0), damageStem := None), roll.1)
        else (t, g)
      else if t.status != Victim && t.status != Keep then
        (t.(damageStem := None, damageCrown := None), g)
      else (t, g)
    else (t, g)
  }

  /** The inner loop: every tree, in order, checked against cutter `c` falling at `angle`. */
  function DamageAll(ts: seq<Tree>, c: Tree, angle: int, g: Rng): (r: (seq<Tree>, Rng))
    ensures |r.0| == |ts|
    ensures forall k :: 0 <= k < |ts| ==> DamageStep(ts[k], c, angle, r.0[k])
    ensures forall k :: 0 <= k < |ts| ==> MayBecome(ts[k].status, r.0[k].status)
    ensures forall k :: 0 <= k < |ts| ==> r.0[k].cutAngle == ts[k].cutAngle && (r.0[k].status == Cut <==> ts[k].status == Cut)
    decreases |ts|
  {
    if ts == [] then ([], g)
    else
      var first := DamageTarget(ts[0], c, angle, g);
      var rest := DamageAll(ts[1..], c, angle, first.1);
      ([first.0] + rest.0, rest.1)
  }

  /** The inner loop gives every tree the damage values its own check against `c` gives it. */
  lemma {:induction false} DamageAllValues(ts: seq<Tree>, c: Tree, angle: int, g: Rng, k: nat)
    requires k < |ts|
    ensures DamageValues(ts[k], c, angle, DamageAll(ts, c, angle, g).0[k])
    decreases |ts|
  {
    var first := DamageTarget(ts[0], c, angle, g);
    if k > 0 {
      DamageAllValues(ts[1..], c, angle, first.1, k - 1);
    }
  }

  /** No tree before index `k` carries `id`. */
  predicate FirstWithId(ts: seq<Tree>, k: int, id: TreeId)
    requires 0 <= k < |ts|
  {
    ts[k].sp.id == id && forall j :: 0 <= j < k ==> ts[j].sp.id != id
  }

  /** Record `angle` on the first tree with id `id` (the source's search with `break`). */
  function SetAngle(ts: seq<Tree>, id: TreeId, angle: int): (r: seq<Tree>)
    ensures |r| == |ts|
    ensures forall k :: 0 <= k < |ts| ==>
      r[k] == if FirstWithId(ts, k, id) then ts[k].(cutAngle := Some(angle)) else ts[k]
    decreases |ts|
  {
    if ts == [] then []
    else if ts[0].sp.id == id then [ts[0].(cutAngle := Some(angle))] + ts[1..]
    else [ts[0]] + SetAngle(ts[1..], id, angle)
  }

  /**
   * One iteration of the outer loop: draw the cutter's angle in [1, 360], record
   * it on the cutter, then check every tree against the fall.
   */
  function CutterPass(ts: seq<Tree>, c: Tree, g: Rng): (r: (seq<Tree>, Rng, int))
    ensures 1 <= r.2 <= 360
    ensures |r.0| == |ts|
    ensures forall k :: 0 <= k < |ts| ==> DamageStep(SetAngle(ts, c.sp.id, r.2)[k], c, r.2, r.0[k])
    ensures forall k :: 0 <= k < |ts| ==> r.0[k].cutAngle == SetAngle(ts, c.sp.id, r.2)[k].cutAngle
  {
    var a := Rand(g, 1, 360);
    var hit := DamageAll(SetAngle(ts, c.sp.id, a.0), c, a.0, a.1);
    (hit.0, hit.1, a.0)
  }

  /** The indices of the trees whose status is cut, in order (the source's `array_filter`). */
  function CutterIndices(ts: seq<Tree>): (ms: seq<nat>)
    ensures forall i :: 0 <= i < |ms| ==> ms[i] < |ts| && ts[ms[i]].status == Cut
    ensures forall k :: 0 <= k < |ts| && ts[k].status == Cut ==> k in ms
    ensures Increasing(ms)
    decreases |ts|
  {
    if ts == [] then []
    else
      var init := ts[..|ts| - 1];
      assert forall k :: 0 <= k < |init| ==> init[k] == ts[k];
      CutterIndices(init) + (if ts[|ts| - 1].status == Cut then [|ts| - 1] else [])
  }

  /** Strictly increasing indices: each cutter is taken once. */
  predicate Increasing(ms: seq<nat>) {
    forall i, j :: 0 <= i < j < |ms| ==> ms[i] < ms[j]
  }

  /** `b` is `a` with at most its status, damage fields and cut angle changed. */
  predicate OnlyDamageOrAngleChanged(a: Tree, b: Tree) {
    b == a.(status := b.status, damageStem := b.damageStem, damageCrown := b.damageCrown, cutAngle := b.cutAngle)
  }

  /**
   * The outer loop over the cutters `ms`: indices into `cutters`, the copy of the
   * trees the loop iterates, taken before any pass. Each pass works on the
   * current trees.
   */
  function ApplyCutters(ts: seq<Tree>, cutters: seq<Tree>, ms: seq<nat>, g: Rng): (r: (seq<Tree>, Rng))
    requires forall i :: 0 <= i < |ms| ==> ms[i] < |cutters|
    ensures |r.0| == |ts|
    ensures forall k :: 0 <= k < |ts| ==> MayBecome(ts[k].status, r.0[k].status)
    ensures forall k :: 0 <= k < |ts| ==> OnlyDamageOrAngleChanged(ts[k], r.0[k])
    ensures forall k :: 0 <= k < |ts| ==> DamageConsistent(ts[k]) ==> DamageConsistent(r.0[k])
    decreases |ms|
  {
    if ms == [] then (ts, g)
    else
      var c := cutters[ms[0]];
      var pass := CutterPass(ts, c, g);
      var rest := ApplyCutters(pass.0, cutters, ms[1..], pass.1);
      forall k | 0 <= k < |ts|
        ensures MayBecome(ts[k].status, rest.0[k].status)
        ensures OnlyDamageOrAngleChanged(ts[k], rest.0[k])
        ensures DamageConsistent(ts[k]) ==> DamageConsistent(rest.0[k])
      {
        var marked := SetAngle(ts, c.sp.id, pass.2)[k];
        assert DamageStep(marked, c, pass.2, pass.0[k]);
        assert marked == ts[k] || marked == ts[k].(cutAngle := Some(pass.2));
        MayBecomeIsPartialOrder(ts[k].status, pass.0[k].status, rest.0[k].status);
      }
      rest
  }

  /** `simulateForestDamage`: every tree that starts cut falls once, in order. */
  function SimulateForestDamage(ts: seq<Tree>, g: Rng): (r: (seq<Tree>, Rng))
    ensures |r.0| == |ts|
    ensures forall k :: 0 <= k < |ts| ==> MayBecome(ts[k].status, r.0[k].status)
    ensures forall k :: 0 <= k < |ts| ==> OnlyDamageOrAngleChanged(ts[k], r.0[k])
    ensures forall k :: 0 <= k < |ts| ==> DamageConsistent(ts[k]) ==> DamageConsistent(r.0[k])
  {
    ApplyCutters(ts, ts, CutterIndices(ts), g)
  }

  /** `t` is a target of cutter `c` and in the stem zone of its fall at `angle`. */
  ghost predicate StemHit(t: Tree, c: Tree, angle: int) {
    IsTarget(t, c) && HitBy(t, c, angle).stem
  }

  /** `t` is a target of cutter `c` and gets crown damage from its fall at `angle`. */
  ghost predicate CrownHit(t: Tree, c: Tree, angle: int) {
    IsTarget(t, c) && HitBy(t, c, angle).crown
  }

  /** Some cutter `cutters[ms[i]]`, falling at the angle recorded for it in `r`, stem-hits `t`. */
  ghost predicate StemHitByOneOf(t: Tree, cutters: seq<Tree>, ms: seq<nat>, r: seq<Tree>) {
    exists i :: 0 <= i < |ms| && ms[i] < |cutters| && ms[i] < |r| && r[ms[i]].cutAngle.Some?
      && StemHit(t, cutters[ms[i]], r[ms[i]].cutAngle.value)
  }

  /** Some cutter `cutters[ms[i]]`, falling at the angle recorded for it in `r`, crown-hits `t`. */
  ghost predicate CrownHitByOneOf(t: Tree, cutters: seq<Tree>, ms: seq<nat>, r: seq<Tree>) {
    exists i :: 0 <= i < |ms| && ms[i] < |cutters| && ms[i] < |r| && r[ms[i]].cutAngle.Some?
      && CrownHit(t, cutters[ms[i]], r[ms[i]].cutAngle.value)
  }

  /** A hit by one of `ms` is a hit by its first cutter or by one of the rest. */
  lemma OneOfSplit(t: Tree, cutters: seq<Tree>, ms: seq<nat>, r: seq<Tree>)
    requires ms != [] && ms[0] < |cutters| && ms[0] < |r| && r[ms[0]].cutAngle.Some?
    ensures StemHitByOneOf(t, cutters, ms, r) <==>
      StemHit(t, cutters[ms[0]], r[ms[0]].cutAngle.value) || StemHitByOneOf(t, cutters, ms[1..], r)
    ensures CrownHitByOneOf(t, cutters, ms, r) <==>
      CrownHit(t, cutters[ms[0]], r[ms[0]].cutAngle.value) || CrownHitByOneOf(t, cutters, ms[1..], r)
  {
    if StemHitByOneOf(t, cutters, ms, r) {
      var i :| 0 <= i < |ms| && ms[i] < |cutters| && ms[i] < |r| && r[ms[i]].cutAngle.Some?
        && StemHit(t, cutters[ms[i]], r[ms[i]].cutAngle.value);
      if i > 0 { assert ms[1..][i - 1] == ms[i]; }
    }
    if StemHitByOneOf(t, cutters, ms[1..], r) {
      var i :| 0 <= i < |ms[1..]| && ms[1..][i] < |cutters| && ms[1..][i] < |r| && r[ms[1..][i]].cutAngle.Some?
        && StemHit(t, cutters[ms[1..][i]], r[ms[1..][i]].cutAngle.value);
      assert ms[i + 1] == ms[1..][i];
    }
    if CrownHitByOneOf(t, cutters, ms, r) {
      var i :| 0 <= i < |ms| && ms[i] < |cutters| && ms[i] < |r| && r[ms[i]].cutAngle.Some?
        && CrownHit(t, cutters[ms[i]], r[ms[i]].cutAngle.value);
      if i > 0 { assert ms[1..][i - 1] == ms[i]; }
    }
    if CrownHitByOneOf(t, cutters, ms[1..], r) {
      var i :| 0 <= i < |ms[1..]| && ms[1..][i] < |cutters| && ms[1..][i] < |r| && r[ms[1..][i]].cutAngle.Some?
        && CrownHit(t, cutters[ms[1..][i]], r[ms[1..][i]].cutAngle.value);
      assert ms[i + 1] == ms[1..][i];
    }
  }

  /** The current trees `ts` are the snapshot `cutters` as damage has left them: same records, same cut trees. */
  ghost predicate Mirrors(ts: seq<Tree>, cutters: seq<Tree>) {
    |ts| == |cutters| && forall k :: 0 <= k < |ts| ==> ts[k].sp == cutters[k].sp && (ts[k].status == Cut <==> cutters[k].status == Cut)
  }

  /** Over distinct ids, recording the angle of cutter `m` touches tree `m` alone. */
  lemma MarkedAt(ts: seq<Tree>, cutters: seq<Tree>, m: nat, angle: int, k: nat)
    requires Mirrors(ts, cutters) && UniqueIds(cutters)
    requires m < |cutters| && k < |ts|
    ensures SetAngle(ts, cutters[m].sp.id, angle)[k] == if k == m then ts[k].(cutAngle := Some(angle)) else ts[k]
  {
    var id := cutters[m].sp.id;
    if k < m {
      assert ts[k].sp.id == cutters[k].sp.id != id;
    } else if k > m {
      assert ts[m].sp.id == id;
    } else {
      forall j | 0 <= j < k ensures ts[j].sp.id != id {
        assert ts[j].sp.id == cutters[j].sp.id;
      }
    }
  }

  /**
   * One pass of cut tree `cutters[m]` over trees with distinct ids: the angle lands
   * on the cutter alone, and each other tree becomes a victim or is kept exactly as
   * the fall's stem and crown zones say; trees it does not target are untouched.
   */
  lemma CutterPassEffect(ts: seq<Tree>, cutters: seq<Tree>, m: nat, g: Rng, k: nat)
    requires Mirrors(ts, cutters) && UniqueIds(cutters)
    requires m < |cutters| && cutters[m].status == Cut && k < |ts|
    ensures var p := CutterPass(ts, cutters[m], g);
      && p.0[k].sp == cutters[k].sp && (p.0[k].status == Cut <==> cutters[k].status == Cut)
      && (k == m ==> p.0[k].cutAngle == Some(p.2))
      && (k != m ==> p.0[k].cutAngle == ts[k].cutAngle)
      && (cutters[k].status != Cut ==>
           && (p.0[k].status == Victim <==> ts[k].status == Victim || StemHit(cutters[k], cutters[m], p.2))
           && (p.0[k].status == Keep <==>
                 p.0[k].status != Victim && (ts[k].status == Keep || CrownHit(cutters[k], cutters[m], p.2))))
      && (k != m && !IsTarget(cutters[k], cutters[m]) ==> p.0[k] == ts[k])
  {
    var c := cutters[m];
    var p := CutterPass(ts, c, g);
    var marked := SetAngle(ts, c.sp.id, p.2);
    MarkedAt(ts, cutters, m, p.2, k);
    assert DamageStep(marked[k], c, p.2, p.0[k]);
    assert IsTarget(marked[k], c) <==> IsTarget(cutters[k], c);
    assert HitBy(marked[k], c, p.2) == HitBy(cutters[k], c, p.2);
  }

  /** A pass leaves alone every tree other than the cutter that the cutter does not target. */
  lemma CutterPassLeaves(ts: seq<Tree>, cutters: seq<Tree>, m: nat, g: Rng, k: nat)
    requires Mirrors(ts, cutters) && UniqueIds(cutters)
    requires m < |cutters| && k < |ts| && k != m && !IsTarget(cutters[k], cutters[m])
    ensures CutterPass(ts, cutters[m], g).0[k] == ts[k]
  {
    var c := cutters[m];
    var p := CutterPass(ts, c, g);
    MarkedAt(ts, cutters, m, p.2, k);
    assert DamageStep(ts[k], c, p.2, p.0[k]);
  }

  /** No cutter of the rest of the list targets a tree that no cutter of the list targets. */
  lemma NoCutterNearTail(cutters: seq<Tree>, ms: seq<nat>, k: nat)
    requires ms != [] && k < |cutters| && NoCutterNear(cutters, ms, k)
    ensures NoCutterNear(cutters, ms[1..], k)
  {
    forall i | 0 <= i < |ms[1..]| && ms[1..][i] < |cutters| ensures !IsTarget(cutters[k], cutters[ms[1..][i]]) {
      assert ms[1..][i] == ms[i + 1];
    }
  }

  /** Distinct increasing indices: the first is not among the rest. */
  lemma IncreasingTail(ms: seq<nat>)
    requires ms != [] && Increasing(ms)
    ensures Increasing(ms[1..]) && ms[0] !in ms[1..]
  {
    forall i | 0 <= i < |ms[1..]| ensures ms[1..][i] != ms[0] {
      assert ms[1..][i] == ms[i + 1];
    }
  }

  /** No cutter of `ms` targets tree `k` of the snapshot. */
  ghost predicate NoCutterNear(cutters: seq<Tree>, ms: seq<nat>, k: nat)
    requires k < |cutters|
  {
    forall i :: 0 <= i < |ms| && ms[i] < |cutters| ==> !IsTarget(cutters[k], cutters[ms[i]])
  }

  /** One pass keeps the current trees a mirror of the snapshot. */
  lemma CutterPassMirrors(ts: seq<Tree>, cutters: seq<Tree>, m: nat, g: Rng)
    requires Mirrors(ts, cutters) && UniqueIds(cutters)
    requires m < |cutters| && cutters[m].status == Cut
    ensures Mirrors(CutterPass(ts, cutters[m], g).0, cutters)
  {
    var p := CutterPass(ts, cutters[m], g);
    forall j | 0 <= j < |ts| ensures p.0[j].sp == cutters[j].sp && (p.0[j].status == Cut <==> cutters[j].status == Cut) {
      CutterPassEffect(ts, cutters, m, g, j);
    }
  }

  /** The outer loop keeps the current trees a mirror of the snapshot. */
  lemma ApplyCuttersMirrors(ts: seq<Tree>, cutters: seq<Tree>, ms: seq<nat>, g: Rng)
    requires Mirrors(ts, cutters)
    requires forall i :: 0 <= i < |ms| ==> ms[i] < |cutters|
    ensures Mirrors(ApplyCutters(ts, cutters, ms, g).0, cutters)
  {
    var r := ApplyCutters(ts, cutters, ms, g).0;
    forall k | 0 <= k < |ts| ensures r[k].sp == cutters[k].sp && (r[k].status == Cut <==> cutters[k].status == Cut) {
      MayBecomeFacts(ts[k].status, r[k].status);
    }
  }

  /** The cutters' preconditions hold for the rest of the list. */
  lemma CuttersTail(cutters: seq<Tree>, ms: seq<nat>)
    requires ms != [] && Increasing(ms)
    requires forall i :: 0 <= i < |ms| ==> ms[i] < |cutters| && cutters[ms[i]].status == Cut
    ensures Increasing(ms[1..]) && ms[0] !in ms[1..]
    ensures forall i :: 0 <= i < |ms[1..]| ==> ms[1..][i] < |cutters| && cutters[ms[1..][i]].status == Cut
  {
    IncreasingTail(ms);
  }

  /**
   * The outer loop over distinct cut trees gives each of them an angle in
   * [1, 360] and changes no other tree's angle.
   */
  lemma {:induction false} ApplyCuttersAngle(ts: seq<Tree>, cutters: seq<Tree>, ms: seq<nat>, g: Rng, k: nat)
    requires Mirrors(ts, cutters) && UniqueIds(cutters) && Increasing(ms)
    requires forall i :: 0 <= i < |ms| ==> ms[i] < |cutters| && cutters[ms[i]].status == Cut
    requires k < |ts|
    ensures var r := ApplyCutters(ts, cutters, ms, g).0;
      && (k in ms ==> r[k].cutAngle.Some? && 1 <= r[k].cutAngle.value <= 360)
      && (k !in ms ==> r[k].cutAngle == ts[k].cutAngle)
    decreases |ms|
  {
    if ms != [] {
      var m := ms[0];
      var p := CutterPass(ts, cutters[m], g);
      assert ApplyCutters(ts, cutters, ms, g).0 == ApplyCutters(p.0, cutters, ms[1..], p.1).0;
      CuttersTail(cutters, ms);
      CutterPassMirrors(ts, cutters, m, g);
      CutterPassEffect(ts, cutters, m, g, k);
      ApplyCuttersAngle(p.0, cutters, ms[1..], p.1, k);
      if k in ms && k != m {
        assert k in ms[1..];
      }
    }
  }

  /**
   * The outer loop over distinct cut trees, for a tree that is not cut: it ends a
   * victim exactly when it was one or some cutter's fall, at its recorded angle,
   * stem-hits it, and ends kept exactly when it is no victim and was kept or some
   * fall crown-hits it.
   */
  lemma {:induction false} ApplyCuttersStatus(ts: seq<Tree>, cutters: seq<Tree>, ms: seq<nat>, g: Rng, k: nat)
    requires Mirrors(ts, cutters) && UniqueIds(cutters) && Increasing(ms)
    requires forall i :: 0 <= i < |ms| ==> ms[i] < |cutters| && cutters[ms[i]].status == Cut
    requires k < |ts| && cutters[k].status != Cut
    ensures var r := ApplyCutters(ts, cutters, ms, g).0;
      && (r[k].status == Victim <==> ts[k].status == Victim || StemHitByOneOf(cutters[k], cutters, ms, r))
      && (r[k].status == Keep <==>
            r[k].status != Victim && (ts[k].status == Keep || CrownHitByOneOf(cutters[k], cutters, ms, r)))
    decreases |ms|
  {
    var r := ApplyCutters(ts, cutters, ms, g).0;
    if ms == [] {
      assert !StemHitByOneOf(cutters[k], cutters, ms, r);
      assert !CrownHitByOneOf(cutters[k], cutters, ms, r);
    } else {
      var m := ms[0];
      var p := CutterPass(ts, cutters[m], g);
      assert r == ApplyCutters(p.0, cutters, ms[1..], p.1).0;
      CuttersTail(cutters, ms);
      CutterPassMirrors(ts, cutters, m, g);
      CutterPassEffect(ts, cutters, m, g, k);
      CutterPassEffect(ts, cutters, m, g, m);
      ApplyCuttersStatus(p.0, cutters, ms[1..], p.1, k);
      ApplyCuttersAngle(p.0, cutters, ms[1..], p.1, m);
      assert r[m].cutAngle == Some(p.2);
      OneOfSplit(cutters[k], cutters, ms, r);
    }
  }

  /** The outer loop leaves alone a tree that is no cutter and that no cutter targets. */
  lemma {:induction false} ApplyCuttersUntouched(ts: seq<Tree>, cutters: seq<Tree>, ms: seq<nat>, g: Rng, k: nat)
    requires Mirrors(ts, cutters) && UniqueIds(cutters) && Increasing(ms)
    requires forall i :: 0 <= i < |ms| ==> ms[i] < |cutters| && cutters[ms[i]].status == Cut
    requires k < |ts| && k !in ms && NoCutterNear(cutters, ms, k)
    ensures ApplyCutters(ts, cutters, ms, g).0[k] == ts[k]
    decreases |ms|
  {
    if ms != [] {
      var m := ms[0];
      var p := CutterPass(ts, cutters[m], g);
      assert ApplyCutters(ts, cutters, ms, g).0 == ApplyCutters(p.0, cutters, ms[1..], p.1).0;
      CuttersTail(cutters, ms);
      CutterPassMirrors(ts, cutters, m, g);
      assert !IsTarget(cutters[k], cutters[m]) && k != m;
      CutterPassLeaves(ts, cutters, m, g, k);
      NoCutterNearTail(cutters, ms, k);
      ApplyCuttersUntouched(p.0, cutters, ms[1..], p.1, k);
    }
  }

  /** Over distinct ids, a pass checks every tree but its cutter against the cutter's fall. */
  lemma CutterPassStep(ts: seq<Tree>, cutters: seq<Tree>, m: nat, g: Rng, k: nat)
    requires Mirrors(ts, cutters) && UniqueIds(cutters)
    requires m < |cutters| && k < |ts| && k != m
    ensures var p := CutterPass(ts, cutters[m], g);
      && DamageStep(ts[k], cutters[m], p.2, p.0[k])
      && DamageValues(ts[k], cutters[m], p.2, p.0[k])
      && (IsTarget(ts[k], cutters[m]) <==> IsTarget(cutters[k], cutters[m]))
      && HitBy(ts[k], cutters[m], p.2) == HitBy(cutters[k], cutters[m], p.2)
  {
    var p := CutterPass(ts, cutters[m], g);
    MarkedAt(ts, cutters, m, p.2, k);
    DamageAllValues(SetAngle(ts, cutters[m].sp.id, p.2), cutters[m], p.2, Rand(g, 1, 360).1, k);
  }

  /** A run of the outer loop over `ms` is its run over the first `j` cutters followed by its run over the rest. */
  lemma {:induction false} ApplyCuttersSplit(ts: seq<Tree>, cutters: seq<Tree>, ms: seq<nat>, g: Rng, j: nat)
    requires forall i :: 0 <= i < |ms| ==> ms[i] < |cutters|
    requires j <= |ms|
    ensures var a := ApplyCutters(ts, cutters, ms[..j], g);
      ApplyCutters(ts, cutters, ms, g) == ApplyCutters(a.0, cutters, ms[j..], a.1)
    decreases j
  {
    if j == 0 {
      assert ms[..0] == [] && ms[0..] == ms;
    } else {
      var p := CutterPass(ts, cutters[ms[0]], g);
      assert ms[..j][0] == ms[0] && ms[..j][1..] == ms[1..][..j - 1];
      assert ms[j..] == ms[1..][j - 1..];
      ApplyCuttersSplit(p.0, cutters, ms[1..], p.1, j - 1);
    }
  }

  /** `ms` lists distinct cut trees of `cutters`, in increasing order. */
  predicate CutterList(cutters: seq<Tree>, ms: seq<nat>) {
    Increasing(ms) && forall i :: 0 <= i < |ms| ==> ms[i] < |cutters| && cutters[ms[i]].status == Cut
  }

  /** Every suffix of a cutter list is one. */
  lemma CuttersSuffix(cutters: seq<Tree>, ms: seq<nat>, lo: nat)
    requires lo <= |ms| && CutterList(cutters, ms)
    ensures CutterList(cutters, ms[lo..])
  {
    forall i | 0 <= i < |ms[lo..]| ensures ms[lo..][i] == ms[lo + i] {
    }
  }

  /**
   * A kept tree or a victim that no cutter's fall reaches, neither in the stem zone
   * nor at the crown, comes out of the outer loop exactly as it went in: its damage
   * values are those some earlier fall gave it.
   */
  lemma {:induction false} ApplyCuttersFrame(ts: seq<Tree>, cutters: seq<Tree>, ms: seq<nat>, g: Rng, k: nat)
    requires Mirrors(ts, cutters) && UniqueIds(cutters) && Increasing(ms)
    requires forall i :: 0 <= i < |ms| ==> ms[i] < |cutters| && cutters[ms[i]].status == Cut
    requires k < |ts| && cutters[k].status != Cut && ts[k].status != Stand
    ensures var r := ApplyCutters(ts, cutters, ms, g).0;
      !StemHitByOneOf(cutters[k], cutters, ms, r) && !CrownHitByOneOf(cutters[k], cutters, ms, r) ==> r[k] == ts[k]
    decreases |ms|
  {
    var r := ApplyCutters(ts, cutters, ms, g).0;
    if ms != [] && !StemHitByOneOf(cutters[k], cutters, ms, r) && !CrownHitByOneOf(cutters[k], cutters, ms, r) {
      var m := ms[0];
      var p := CutterPass(ts, cutters[m], g);
      assert r == ApplyCutters(p.0, cutters, ms[1..], p.1).0;
      CuttersTail(cutters, ms);
      CutterPassMirrors(ts, cutters, m, g);
      CutterPassEffect(ts, cutters, m, g, m);
      ApplyCuttersAngle(p.0, cutters, ms[1..], p.1, m);
      OneOfSplit(cutters[k], cutters, ms, r);
      CutterPassStep(ts, cutters, m, g, k);
      assert p.0[k] == ts[k];
      ApplyCuttersFrame(p.0, cutters, ms[1..], p.1, k);
    }
  }

  /**
   * In the final trees `r`, tree `k` is kept and the fall of the first cutter of
   * `ms`, at its recorded angle, is the last one of `ms` that reaches its crown.
   */
  ghost predicate LastCrownHitIsFirst(r: seq<Tree>, cutters: seq<Tree>, ms: seq<nat>, k: nat)
    requires k < |cutters| && k < |r| && ms != [] && ms[0] < |cutters| && ms[0] < |r|
  {
    && r[k].status == Keep
    && r[ms[0]].cutAngle.Some? && CrownHit(cutters[k], cutters[ms[0]], r[ms[0]].cutAngle.value)
    && !CrownHitByOneOf(cutters[k], cutters, ms[1..], r)
  }

  /** Tree `k` of `after` is tree `k` of `before`, kept, with no stem damage and a crown roll in [10 %, 50 %]. */
  predicate FreshCrownRoll(before: seq<Tree>, after: seq<Tree>, k: nat)
    requires k < |before| && k < |after|
  {
    && after[k] == before[k].(status := Keep, damageStem := None, damageCrown := after[k].damageCrown)
    && after[k].damageCrown.Some? && CrownLow <= after[k].damageCrown.value <= CrownHigh
  }

  /**
   * Splitting a cutter list at `i`: the run over the first `i` cutters keeps the
   * trees a mirror of the snapshot, the rest is a cutter list, and the whole run
   * continues from where the first part stopped.
   */
  lemma SplitCutters(ts: seq<Tree>, cutters: seq<Tree>, ms: seq<nat>, g: Rng, i: nat)
    requires Mirrors(ts, cutters) && CutterList(cutters, ms) && i <= |ms|
    ensures forall j :: 0 <= j < |ms[..i]| ==> ms[..i][j] < |cutters|
    ensures var before := ApplyCutters(ts, cutters, ms[..i], g);
      && Mirrors(before.0, cutters) && CutterList(cutters, ms[i..])
      && ApplyCutters(ts, cutters, ms, g) == ApplyCutters(before.0, cutters, ms[i..], before.1)
  {
    CuttersSuffix(cutters, ms, i);
    ApplyCuttersMirrors(ts, cutters, ms[..i], g);
    ApplyCuttersSplit(ts, cutters, ms, g, i);
  }

  /**
   * The last crown roll wins, for the first cutter of the list: when its fall
   * reaches the crown of a tree that ends kept and no later fall reaches that
   * crown, the tree ends as the first pass left it.
   */
  lemma FirstCrownRollWins(ts: seq<Tree>, cutters: seq<Tree>, ms: seq<nat>, g: Rng, k: nat)
    requires Mirrors(ts, cutters) && UniqueIds(cutters) && CutterList(cutters, ms)
    requires k < |ts| && cutters[k].status != Cut && ms != []
    requires LastCrownHitIsFirst(ApplyCutters(ts, cutters, ms, g).0, cutters, ms, k)
    ensures var p := CutterPass(ts, cutters[ms[0]], g).0;
      ApplyCutters(ts, cutters, ms, g).0[k] == p[k] && FreshCrownRoll(ts, p, k)
  {
    var r := ApplyCutters(ts, cutters, ms, g).0;
    var m := ms[0];
    var p := CutterPass(ts, cutters[m], g);
    assert r == ApplyCutters(p.0, cutters, ms[1..], p.1).0;
    CuttersTail(cutters, ms);
    CutterPassMirrors(ts, cutters, m, g);
    CutterPassEffect(ts, cutters, m, g, m);
    ApplyCuttersAngle(p.0, cutters, ms[1..], p.1, m);
    assert r[m].cutAngle == Some(p.2);
    assert k != m;
    CutterPassStep(ts, cutters, m, g, k);
    MayBecomeFacts(p.0[k].status, r[k].status);
    ApplyCuttersStatus(p.0, cutters, ms[1..], p.1, k);
    ApplyCuttersFrame(p.0, cutters, ms[1..], p.1, k);
  }

  /**
   * The last crown roll wins. When the fall of cutter `ms[i]` reaches the crown of
   * a tree that ends kept, and no later cutter's fall reaches its crown, the tree
   * ends as that cutter's pass left it: kept, with no stem damage and the crown
   * roll in [10 %, 50 %] drawn in that pass, whatever earlier falls recorded.
   */
  lemma LastCrownRollWins(ts: seq<Tree>, cutters: seq<Tree>, ms: seq<nat>, g: Rng, k: nat, i: nat)
    requires Mirrors(ts, cutters) && UniqueIds(cutters) && CutterList(cutters, ms)
    requires k < |ts| && cutters[k].status != Cut && i < |ms|
    requires LastCrownHitIsFirst(ApplyCutters(ts, cutters, ms, g).0, cutters, ms[i..], k)
    ensures var before := ApplyCutters(ts, cutters, ms[..i], g);
      var after := CutterPass(before.0, cutters[ms[i]], before.1).0;
      ApplyCutters(ts, cutters, ms, g).0[k] == after[k] && FreshCrownRoll(before.0, after, k)
  {
    SplitCutters(ts, cutters, ms, g, i);
    var before := ApplyCutters(ts, cutters, ms[..i], g);
    FirstCrownRollWins(before.0, cutters, ms[i..], before.1, k);
  }

  /** Some tree that starts cut, falling at the angle it ends with in `r`, stem-hits tree `k`. */
  ghost predicate StemHitByCutter(ts: seq<Tree>, r: seq<Tree>, k: nat)
    requires k < |ts|
  {
    exists m :: 0 <= m < |ts| && m < |r| && ts[m].status == Cut && r[m].cutAngle.Some?
      && StemHit(ts[k], ts[m], r[m].cutAngle.value)
  }

  /** Some tree that starts cut, falling at the angle it ends with in `r`, crown-hits tree `k`. */
  ghost predicate CrownHitByCutter(ts: seq<Tree>, r: seq<Tree>, k: nat)
    requires k < |ts|
  {
    exists m :: 0 <= m < |ts| && m < |r| && ts[m].status == Cut && r[m].cutAngle.Some?
      && CrownHit(ts[k], ts[m], r[m].cutAngle.value)
  }

  /** No tree of tree `k`'s block starts cut. */
  predicate QuietBlock(ts: seq<Tree>, k: nat)
    requires k < |ts|
  {
    forall m :: 0 <= m < |ts| && ts[m].status == Cut ==>
      ts[m].sp.blockI != ts[k].sp.blockI || ts[m].sp.blockJ != ts[k].sp.blockJ
  }

  /** Over the cut indices, "hit by one of them" is "hit by some tree that starts cut". */
  lemma HitByCutterIsOneOf(ts: seq<Tree>, r: seq<Tree>, k: nat)
    requires k < |ts| && |r| == |ts|
    ensures StemHitByOneOf(ts[k], ts, CutterIndices(ts), r) <==> StemHitByCutter(ts, r, k)
    ensures CrownHitByOneOf(ts[k], ts, CutterIndices(ts), r) <==> CrownHitByCutter(ts, r, k)
  {
    var ms := CutterIndices(ts);
    if StemHitByCutter(ts, r, k) {
      var m :| 0 <= m < |ts| && m < |r| && ts[m].status == Cut && r[m].cutAngle.Some?
        && StemHit(ts[k], ts[m], r[m].cutAngle.value);
      assert m in ms;
      var i :| 0 <= i < |ms| && ms[i] == m;
    }
    if CrownHitByCutter(ts, r, k) {
      var m :| 0 <= m < |ts| && m < |r| && ts[m].status == Cut && r[m].cutAngle.Some?
        && CrownHit(ts[k], ts[m], r[m].cutAngle.value);
      assert m in ms;
      var i :| 0 <= i < |ms| && ms[i] == m;
    }
  }

  /**
   * The damage pass over trees with distinct ids, tree by tree: every tree that
   * starts cut gets a fall angle in [1, 360] and no other tree gets one; a tree
   * ends a victim exactly when it was one or the fall of some cut tree of its
   * block, at that tree's angle, puts it in the stem zone; it ends kept exactly
   * when it is no victim and was kept or some such fall reaches its crown; in a
   * block where no tree starts cut, nothing changes.
   */
  lemma DamageOutcome(ts: seq<Tree>, g: Rng, k: nat)
    requires UniqueIds(ts) && k < |ts|
    ensures var r := SimulateForestDamage(ts, g).0;
      && (ts[k].status == Cut ==> r[k].cutAngle.Some? && 1 <= r[k].cutAngle.value <= 360)
      && (ts[k].status != Cut ==> r[k].cutAngle == ts[k].cutAngle)
      && (ts[k].status != Cut ==>
           && (r[k].status == Victim <==> ts[k].status == Victim || StemHitByCutter(ts, r, k))
           && (r[k].status == Keep <==>
                 r[k].status != Victim && (ts[k].status == Keep || CrownHitByCutter(ts, r, k))))
      && (QuietBlock(ts, k) ==> r[k] == ts[k])
  {
    var ms := CutterIndices(ts);
    var r := SimulateForestDamage(ts, g).0;
    assert r == ApplyCutters(ts, ts, ms, g).0;
    ApplyCuttersAngle(ts, ts, ms, g, k);
    if ts[k].status != Cut {
      ApplyCuttersStatus(ts, ts, ms, g, k);
    }
    HitByCutterIsOneOf(ts, r, k);
    if QuietBlock(ts, k) {
      assert k !in ms by {
        forall i | 0 <= i < |ms| ensures ms[i] != k {
          assert ts[ms[i]].status == Cut;
        }
      }
      assert NoCutterNear(ts, ms, k);
      ApplyCuttersUntouched(ts, ts, ms, g, k);
    }
  }
}
