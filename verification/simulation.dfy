/**
 * `runFullForestSimulation`: the catalogue lookups, generation, the initial
 * volume / criteria / status of every tree, the damage pass, production and the
 * 30-year projection, in that order, on one random source.
 */
module Simulation {
  import opened Wrappers
  import opened Random
  import opened Catalog
  import opened Forest
  import opened Generator
  import opened Volume
  import opened Felling
  import opened Damage
  import opened Projection

  /**
   * A generated tree with its initial calculations: volume from its diameter and
   * height, the felling criteria at `threshold`, the status they imply, and no
   * damage, angle, production or projection yet.
   */
  function InitialTree(s: Specimen, threshold: int): (t: Tree)
    ensures t.sp == s && t.volume >= 0
    ensures t.status == Cut <==> s.group in FellingGroups && s.diameter > threshold
    ensures t.status == Cut || t.status == Stand
    ensures t.status == Cut <==> t.criteria == Met
    ensures DamageConsistent(t) && t.cutAngle.None? && t.prod.None?
    ensures t.diameter30.None? && t.volume30.None? && t.prod30.None?
  {
    var c := DetermineFellingCriteria(s.group, s.diameter, threshold);
    Tree(s, CalculateTreeVolume(s.diameter, s.height, s.dipFlag != 0), c, InitialStatus(c),
      None, None, None, None, None, None, None)
  }

  /** The initial calculations over the generated trees, in order. */
  function InitialTrees(ss: seq<Specimen>, threshold: int): (ts: seq<Tree>)
    ensures |ts| == |ss|
    ensures forall k :: 0 <= k < |ss| ==> ts[k] == InitialTree(ss[k], threshold)
  {
    seq(|ss|, k requires 0 <= k < |ss| => InitialTree(ss[k], threshold))
  }

  /** Trees numbered 1, 2, 3, ... in order have pairwise distinct ids. */
  lemma SerialsMakeIdsUnique(ss: seq<Specimen>, threshold: int)
    requires Numbered(ss)
    ensures UniqueIds(InitialTrees(ss, threshold))
  {
    var ts := InitialTrees(ss, threshold);
    forall i, j | 0 <= i < j < |ts| ensures ts[i].sp.id != ts[j].sp.id {
      assert ts[i].sp.id.serial == i + 1 && ts[j].sp.id.serial == j + 1;
    }
  }

  /**
   * The passes after generation, over any numbered trees: initial calculations,
   * damage, production and the 30-year projection.
   */
  function Pipeline(ss: seq<Specimen>, threshold: int, g: Rng): (r: (seq<Tree>, Rng))
    requires Numbered(ss)
    ensures |r.0| == |ss|
    ensures forall k :: 0 <= k < |ss| ==> r.0[k].sp == ss[k]
  {
    var init := InitialTrees(ss, threshold);
    SerialsMakeIdsUnique(ss, threshold);
    var dmg := SimulateForestDamage(init, g);
    var prod := CalculateProduction(dmg.0);
    Calculate30YearProjections(prod, threshold, dmg.1)
  }

  /** `runFullForestSimulation`, without its progress messages: the catalogue lookups, generation, then the passes. */
  function RunFullForestSimulation(cat: seq<Species>, threshold: int, g: Rng): (r: (seq<Tree>, Rng))
    ensures |r.0| == 50000
  {
    var gen := GenerateForestTrees(SpeciesNamesByGroup(cat), DipterocarpByName(cat), g);
    Pipeline(gen.0, threshold, gen.1)
  }

  /**
   * What the passes leave on tree `k`: its record, the felling criteria at the
   * threshold, cut exactly when they are met, damage fields consistent with its
   * status, production exactly for cut and victim trees, and its projection.
   */
  lemma PipelineAt(ss: seq<Specimen>, threshold: int, g: Rng, k: nat)
    requires Numbered(ss)
    requires k < |ss|
    ensures var r := Pipeline(ss, threshold, g).0;
      && r[k].sp == ss[k]
      && r[k].criteria == DetermineFellingCriteria(ss[k].group, ss[k].diameter, threshold)
      && (r[k].status == Cut <==> r[k].criteria == Met)
      && DamageConsistent(r[k])
      && (r[k].prod.Some? <==> Harvested(r[k].status))
      && (r[k].prod.Some? ==> r[k].prod.value == r[k].volume)
      && ProjectionOf(r[k], threshold, r[k])
  {
    var init := InitialTrees(ss, threshold);
    SerialsMakeIdsUnique(ss, threshold);
    var dmg := SimulateForestDamage(init, g);
    var prod := CalculateProduction(dmg.0);
    assert Calculate30YearProjections(prod, threshold, dmg.1) == Pipeline(ss, threshold, g);
    DamageStageAt(ss, threshold, g, k);
    LaterStagesAt(dmg.0, threshold, dmg.1, k);
  }

  /** Tree `k` after the damage pass: its record and criteria, cut exactly when they are met, consistent damage. */
  lemma DamageStageAt(ss: seq<Specimen>, threshold: int, g: Rng, k: nat)
    requires Numbered(ss)
    requires k < |ss|
    ensures var t := SimulateForestDamage(InitialTrees(ss, threshold), g).0[k];
      && t.sp == ss[k]
      && t.criteria == DetermineFellingCriteria(ss[k].group, ss[k].diameter, threshold)
      && (t.status == Cut <==> t.criteria == Met)
      && DamageConsistent(t)
  {
    var init := InitialTrees(ss, threshold);
    SerialsMakeIdsUnique(ss, threshold);
    var t0, t1 := init[k], SimulateForestDamage(init, g).0[k];
    assert t0 == InitialTree(ss[k], threshold);
    assert OnlyDamageOrAngleChanged(t0, t1) && MayBecome(t0.status, t1.status) && DamageConsistent(t1);
    MayBecomeFacts(t0.status, t1.status);
  }

  /**
   * Tree `k` after production and projection: record, criteria, status, volume
   * and damage as before, production exactly for cut and victim trees, and its
   * projection.
   */
  lemma LaterStagesAt(ts: seq<Tree>, threshold: int, g: Rng, k: nat)
    requires k < |ts|
    ensures var r := Calculate30YearProjections(CalculateProduction(ts), threshold, g).0[k];
      && r.sp == ts[k].sp && r.criteria == ts[k].criteria && r.status == ts[k].status && r.volume == ts[k].volume
      && r.damageStem == ts[k].damageStem && r.damageCrown == ts[k].damageCrown
      && (r.prod.Some? <==> Harvested(r.status))
      && (r.prod.Some? ==> r.prod.value == r.volume)
      && ProjectionOf(r, threshold, r)
  {
    var prod := CalculateProduction(ts);
    var t2, t3 := prod[k], Calculate30YearProjections(prod, threshold, g).0[k];
    assert t2 == ts[k].(prod := t2.prod);
    assert OnlyProjectionChanged(t2, t3) && ProjectionOf(t2, threshold, t3);
    ProjectionOfSelf(t2, threshold, t3);
  }

  /** Tree `m` of the output against the same tree before damage and after it. */
  lemma TraceAt(ss: seq<Specimen>, threshold: int, g: Rng, m: nat)
    requires Numbered(ss)
    requires m < |ss|
    ensures var init := InitialTrees(ss, threshold);
      var dmg := SimulateForestDamage(init, g).0;
      var r := Pipeline(ss, threshold, g).0;
      && |dmg| == |ss|
      && init[m] == InitialTree(ss[m], threshold)
      && r[m].sp == init[m].sp && r[m].criteria == init[m].criteria
      && r[m].status == dmg[m].status && r[m].cutAngle == dmg[m].cutAngle
      && r[m].damageStem == dmg[m].damageStem && r[m].damageCrown == dmg[m].damageCrown
      && (r[m].status == Cut <==> init[m].status == Cut)
  {
    var init := InitialTrees(ss, threshold);
    var dmg := SimulateForestDamage(init, g);
    var prod := CalculateProduction(dmg.0);
    var proj := Calculate30YearProjections(prod, threshold, dmg.1);
    assert proj == Pipeline(ss, threshold, g);
    var t0, t1, t2, t3 := init[m], dmg.0[m], prod[m], proj.0[m];
    assert OnlyDamageOrAngleChanged(t0, t1) && MayBecome(t0.status, t1.status);
    MayBecomeFacts(t0.status, t1.status);
    assert t2 == t1.(prod := t2.prod);
    assert OnlyProjectionChanged(t2, t3);
  }

  /** Some tree of the output that is cut, falling at its recorded angle, stem-hits tree `k`. */
  ghost predicate FelledOnto(r: seq<Tree>, k: nat)
    requires k < |r|
  {
    exists m :: 0 <= m < |r| && r[m].status == Cut && r[m].cutAngle.Some?
      && StemHit(r[k], r[m], r[m].cutAngle.value)
  }

  /** Some tree of the output that is cut, falling at its recorded angle, crown-hits tree `k`. */
  ghost predicate BrushedBy(r: seq<Tree>, k: nat)
    requires k < |r|
  {
    exists m :: 0 <= m < |r| && r[m].status == Cut && r[m].cutAngle.Some?
      && CrownHit(r[k], r[m], r[m].cutAngle.value)
  }

  /** `t` is tree `a` after the passes, `d` the same tree right after damage. */
  predicate Traced(a: Tree, d: Tree, t: Tree) {
    t.sp == a.sp && t.cutAngle == d.cutAngle && (t.status == Cut <==> a.status == Cut)
  }

  /** Stem hits read off the output are those of the damage pass. */
  lemma StemCausesAgree(init: seq<Tree>, dmg: seq<Tree>, r: seq<Tree>, k: nat)
    requires |init| == |dmg| == |r| && k < |r|
    requires forall m :: 0 <= m < |r| ==> Traced(init[m], dmg[m], r[m])
    ensures StemHitByCutter(init, dmg, k) <==> FelledOnto(r, k)
  {
    if StemHitByCutter(init, dmg, k) {
      var m :| 0 <= m < |init| && m < |dmg| && init[m].status == Cut && dmg[m].cutAngle.Some?
        && StemHit(init[k], init[m], dmg[m].cutAngle.value);
      assert Traced(init[m], dmg[m], r[m]) && Traced(init[k], dmg[k], r[k]);
      assert StemHit(r[k], r[m], r[m].cutAngle.value);
    }
    if FelledOnto(r, k) {
      var m :| 0 <= m < |r| && r[m].status == Cut && r[m].cutAngle.Some?
        && StemHit(r[k], r[m], r[m].cutAngle.value);
      assert Traced(init[m], dmg[m], r[m]) && Traced(init[k], dmg[k], r[k]);
      assert StemHit(init[k], init[m], dmg[m].cutAngle.value);
    }
  }

  /** Crown hits read off the output are those of the damage pass. */
  lemma CrownCausesAgree(init: seq<Tree>, dmg: seq<Tree>, r: seq<Tree>, k: nat)
    requires |init| == |dmg| == |r| && k < |r|
    requires forall m :: 0 <= m < |r| ==> Traced(init[m], dmg[m], r[m])
    ensures CrownHitByCutter(init, dmg, k) <==> BrushedBy(r, k)
  {
    if CrownHitByCutter(init, dmg, k) {
      var m :| 0 <= m < |init| && m < |dmg| && init[m].status == Cut && dmg[m].cutAngle.Some?
        && CrownHit(init[k], init[m], dmg[m].cutAngle.value);
      assert Traced(init[m], dmg[m], r[m]) && Traced(init[k], dmg[k], r[k]);
      assert CrownHit(r[k], r[m], r[m].cutAngle.value);
    }
    if BrushedBy(r, k) {
      var m :| 0 <= m < |r| && r[m].status == Cut && r[m].cutAngle.Some?
        && CrownHit(r[k], r[m], r[m].cutAngle.value);
      assert Traced(init[m], dmg[m], r[m]) && Traced(init[k], dmg[k], r[k]);
      assert CrownHit(init[k], init[m], dmg[m].cutAngle.value);
    }
  }

  /** No tree of tree `k`'s block in the output meets the felling criteria. */
  ghost predicate NoFellingInBlock(r: seq<Tree>, k: nat)
    requires k < |r|
  {
    forall m :: 0 <= m < |r| && r[m].sp.blockI == r[k].sp.blockI && r[m].sp.blockJ == r[k].sp.blockJ
      ==> r[m].criteria == NotMet
  }

  /**
   * The statuses of tree `k`, read off the output alone: a tree that meets the
   * criteria carries a fall angle in [1, 360]; any other tree carries no angle,
   * is a victim exactly when some cut tree's fall puts it in the stem zone, is
   * kept exactly when it is no victim and some fall reaches its crown, and
   * otherwise stands; in a block where no tree meets the criteria, the tree
   * stands undamaged.
   */
  ghost predicate DamageExplained(r: seq<Tree>, k: nat)
    requires k < |r|
  {
    && (r[k].criteria == Met ==> r[k].cutAngle.Some? && 1 <= r[k].cutAngle.value <= 360)
    && (r[k].criteria == NotMet ==>
         && r[k].cutAngle.None?
         && (r[k].status == Victim <==> FelledOnto(r, k))
         && (r[k].status == Keep <==> !FelledOnto(r, k) && BrushedBy(r, k))
         && (r[k].status == Stand <==> !FelledOnto(r, k) && !BrushedBy(r, k)))
    && (NoFellingInBlock(r, k) ==>
         r[k].status == Stand && r[k].cutAngle.None? && r[k].damageStem.None? && r[k].damageCrown.None?)
  }

  /** The passes explain every tree's status by the falls of the cut trees. */
  lemma PipelineOutcome(ss: seq<Specimen>, threshold: int, g: Rng, k: nat)
    requires Numbered(ss)
    requires k < |ss|
    ensures DamageExplained(Pipeline(ss, threshold, g).0, k)
  {
    var init := InitialTrees(ss, threshold);
    var dmg := SimulateForestDamage(init, g).0;
    var r := Pipeline(ss, threshold, g).0;
    SerialsMakeIdsUnique(ss, threshold);
    TraceAt(ss, threshold, g, k);
    DamageOutcome(init, g, k);
    forall m | 0 <= m < |r| ensures Traced(init[m], dmg[m], r[m]) {
      TraceAt(ss, threshold, g, m);
    }
    StemCausesAgree(init, dmg, r, k);
    CrownCausesAgree(init, dmg, r, k);
    if NoFellingInBlock(r, k) {
      assert QuietBlock(init, k) by {
        forall m | 0 <= m < |init| && init[m].status == Cut
          ensures init[m].sp.blockI != init[k].sp.blockI || init[m].sp.blockJ != init[k].sp.blockJ
        {
          TraceAt(ss, threshold, g, m);
        }
      }
    }
  }

  /** A full run is generation followed by the passes. */
  lemma RunIsPipeline(cat: seq<Species>, threshold: int, g: Rng)
    ensures var gen := GenerateForestTrees(SpeciesNamesByGroup(cat), DipterocarpByName(cat), g);
      && |gen.0| == 50000
      && Numbered(gen.0)
      && RunFullForestSimulation(cat, threshold, g) == Pipeline(gen.0, threshold, gen.1)
  {
  }

  /** A full run yields the 50 000 generated trees, each keeping its generated record. */
  lemma RunKeepsEveryTree(cat: seq<Species>, threshold: int, g: Rng)
    ensures var gen := GenerateForestTrees(SpeciesNamesByGroup(cat), DipterocarpByName(cat), g);
      var r := RunFullForestSimulation(cat, threshold, g).0;
      |r| == 50000 && forall k :: 0 <= k < 50000 ==> r[k].sp == gen.0[k]
  {
    RunIsPipeline(cat, threshold, g);
  }
}
