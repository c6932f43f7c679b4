/**
 * `generateForestTrees`: for each of the 10×10 blocks, expand the distribution
 * table into templates, shuffle them, and turn each template into one tree with a
 * drawn species, position, diameter and height. The global tree counter is
 * applied by a numbering pass: it grows by one per tree in generation order, so
 * the k-th tree generated (from 0) carries serial k + 1.
 */
module Generator {
  import opened Random
  import opened Catalog
  import opened Distribution
  import opened Height
  import opened Forest
  import opened Shuffling

  /** Number of blocks along each side of the grid. */
  const GridSide := 10

  /** Block coordinates are 1..10 and positions within a block 1..100. */
  const BlockExtent := 100

  /**
   * The species rule: a group without known species gets `UNKNOWN_SPECIES`
   * (non-dipterocarp); otherwise a name from the group's list, with the flag the
   * lookup records for it (0 when the name is missing from the lookup).
   */
  ghost predicate SpeciesRule(byGroup: map<int, seq<string>>, dip: map<string, int>, s: Specimen) {
    var avail := AvailableSpecies(byGroup, s.group);
    if avail == [] then s.species == UnknownSpecies && s.dipFlag == 0
    else s.species.Named? && s.species.name in avail && s.dipFlag == DipFlagOf(dip, s.species.name)
  }

  /**
   * A generated tree is in the grid, at a position within its block, has a
   * diameter in its class and a height the height model can produce, and its id
   * repeats its block and position.
   */
  ghost predicate WellPlaced(s: Specimen) {
    && 1 <= s.blockI <= GridSide && 1 <= s.blockJ <= GridSide
    && 1 <= s.x <= BlockExtent && 1 <= s.y <= BlockExtent
    && InClass(s.diameter, s.dClass)
    && HeightInRange(s.diameter, s.height)
    && s.id.blockI == s.blockI && s.id.blockJ == s.blockJ && s.id.x == s.x && s.id.y == s.y
  }

  /** The (group, class) template a tree was generated from. */
  function KeyOf(s: Specimen): Template {
    Template(s.group, s.dClass)
  }

  /**
   * Pick the species for group `gid`: `array_rand` over the group's names (one
   * draw), or the unknown-species fallback without a draw.
   */
  function PickSpecies(byGroup: map<int, seq<string>>, dip: map<string, int>, gid: int, g: Rng)
    : (r: (SpeciesName, int, Rng))
    ensures AvailableSpecies(byGroup, gid) == [] ==> r.0 == UnknownSpecies && r.1 == 0 && Advanced(g, r.2, 0)
    ensures AvailableSpecies(byGroup, gid) != [] ==>
      r.0.Named? && r.0.name in AvailableSpecies(byGroup, gid) && r.1 == DipFlagOf(dip, r.0.name) && Advanced(g, r.2, 1)
  {
    var avail := AvailableSpecies(byGroup, gid);
    if avail == [] then (UnknownSpecies, 0, g)
    else
      var k := Rand(g, 0, |avail| - 1);
      (Named(avail[k.0]), DipFlagOf(dip, avail[k.0]), k.1)
  }

  /**
   * One tree from one template, in the source's draw order: species, x, y,
   * diameter, height. The serial is left 0 until `Number`.
   */
  function PlantTree(t: Template, i: int, j: int,
                     byGroup: map<int, seq<string>>, dip: map<string, int>, g: Rng): (r: (Specimen, Rng))
    requires 1 <= i <= GridSide && 1 <= j <= GridSide
    ensures WellPlaced(r.0) && SpeciesRule(byGroup, dip, r.0)
    ensures r.0.blockI == i && r.0.blockJ == j
    ensures KeyOf(r.0) == t
  {
    var sp := PickSpecies(byGroup, dip, t.groupId, g);
    var x := Rand(sp.2, 1, BlockExtent);
    var y := Rand(x.1, 1, BlockExtent);
    var d := RandomDiameter(t.dClass, y.1);
    var h := GenerateHeight(d.0, d.1);
    (Specimen(TreeId(i, j, x.0, y.0, 0), i, j, x.0, y.0, sp.0, t.groupId, d.0, t.dClass, h.0, sp.1), h.1)
  }

  /** The trees of block (i, j), one per template, in template order. */
  function PlantBlock(ts: seq<Template>, i: int, j: int,
                      byGroup: map<int, seq<string>>, dip: map<string, int>, g: Rng): (r: (seq<Specimen>, Rng))
    requires 1 <= i <= GridSide && 1 <= j <= GridSide
    ensures |r.0| == |ts|
    ensures forall k :: 0 <= k < |ts| ==> KeyOf(r.0[k]) == ts[k] && r.0[k].blockI == i && r.0[k].blockJ == j
    ensures forall k :: 0 <= k < |ts| ==> WellPlaced(r.0[k]) && SpeciesRule(byGroup, dip, r.0[k])
    decreases |ts|
  {
    if ts == [] then ([], g)
    else
      var first := PlantTree(ts[0], i, j, byGroup, dip, g);
      var rest := PlantBlock(ts[1..], i, j, byGroup, dip, first.1);
      ([first.0] + rest.0, rest.1)
  }

  /** Block (i, j): a fresh shuffle of the templates, then one tree per template. */
  function GenerateBlock(i: int, j: int, ts: seq<Template>,
                         byGroup: map<int, seq<string>>, dip: map<string, int>, g: Rng): (r: (seq<Specimen>, Rng))
    requires 1 <= i <= GridSide && 1 <= j <= GridSide
    ensures |r.0| == |ts|
    ensures forall k :: 0 <= k < |ts| ==> r.0[k].blockI == i && r.0[k].blockJ == j
    ensures forall k :: 0 <= k < |ts| ==> WellPlaced(r.0[k]) && SpeciesRule(byGroup, dip, r.0[k])
  {
    var shuffled := Shuffle(ts, g);
    PlantBlock(shuffled.0, i, j, byGroup, dip, shuffled.1)
  }

  /**
   * The block the two nested loops visit at step `k` (from 0): every ten steps
   * the outer loop moves to the next row, and within a row the inner loop walks
   * the columns from 1.
   */
  function Cell(k: nat): (int, int)
    decreases k
  {
    if k < 10 then (1, k + 1) else var c := Cell(k - 10); (c.0 + 1, c.1)
  }

  /** The order in which the two nested loops visit the blocks. */
  function GridOrder(): (cs: seq<(int, int)>)
    ensures |cs| == 100
  {
    seq(100, k requires 0 <= k < 100 => Cell(k))
  }

  /** Step `k` visits row k / 10 + 1, column k % 10 + 1. */
  lemma {:induction false} CellAt(k: nat)
    ensures Cell(k) == (k / 10 + 1, k % 10 + 1)
    decreases k
  {
    if k >= 10 {
      CellAt(k - 10);
      assert (k - 10) / 10 == k / 10 - 1 && (k - 10) % 10 == k % 10;
    }
  }

  /** The `k`-th block the loops visit is row k / 10 + 1, column k % 10 + 1. */
  lemma GridOrderAt(k: nat)
    requires k < 100
    ensures GridOrder()[k] == (k / 10 + 1, k % 10 + 1)
  {
    CellAt(k);
  }

  /** No block is visited twice. */
  ghost predicate Distinct(cs: seq<(int, int)>) {
    forall p, q :: 0 <= p < q < |cs| ==> cs[p] != cs[q]
  }

  /** The loops visit only blocks of the grid. */
  lemma GridOrderInGrid()
    ensures InGrid(GridOrder())
  {
    forall k | 0 <= k < 100 ensures 1 <= GridOrder()[k].0 <= GridSide && 1 <= GridOrder()[k].1 <= GridSide {
      GridOrderAt(k);
    }
  }

  /** The loops visit no block twice. */
  lemma GridOrderDistinct()
    ensures Distinct(GridOrder())
  {
    forall p, q | 0 <= p < q < 100 ensures GridOrder()[p] != GridOrder()[q] {
      GridOrderAt(p);
      GridOrderAt(q);
    }
  }

  /** The loops visit every block of the grid. */
  lemma GridOrderCovers(i: int, j: int)
    requires 1 <= i <= GridSide && 1 <= j <= GridSide
    ensures (i, j) in GridOrder()
  {
    GridOrderAt((i - 1) * 10 + (j - 1));
    assert GridOrder()[(i - 1) * 10 + (j - 1)] == (i, j);
  }

  /** All coordinates name blocks of the grid. */
  ghost predicate InGrid(cs: seq<(int, int)>) {
    forall k :: 0 <= k < |cs| ==> 1 <= cs[k].0 <= GridSide && 1 <= cs[k].1 <= GridSide
  }

  /** The blocks `cs`, in order, each from the source the previous one left. */
  function GenerateBlocks(cs: seq<(int, int)>, ts: seq<Template>,
                          byGroup: map<int, seq<string>>, dip: map<string, int>, g: Rng): (r: (seq<Specimen>, Rng))
    requires InGrid(cs)
    decreases |cs|
  {
    if cs == [] then ([], g)
    else
      var blk := GenerateBlock(cs[0].0, cs[0].1, ts, byGroup, dip, g);
      var rest := GenerateBlocks(cs[1..], ts, byGroup, dip, blk.1);
      (blk.0 + rest.0, rest.1)
  }

  /** Each block holds `|ts|` trees. */
  lemma {:induction false} GenerateBlocksLength(cs: seq<(int, int)>, ts: seq<Template>,
                                                byGroup: map<int, seq<string>>, dip: map<string, int>, g: Rng)
    requires InGrid(cs) && |ts| == 500
    ensures |GenerateBlocks(cs, ts, byGroup, dip, g).0| == 500 * |cs|
    decreases |cs|
  {
    if cs != [] {
      var blk := GenerateBlock(cs[0].0, cs[0].1, ts, byGroup, dip, g);
      GenerateBlocksLength(cs[1..], ts, byGroup, dip, blk.1);
    }
  }

  /** Every tree is well placed and follows the species rule. */
  ghost predicate AllWellFormed(ss: seq<Specimen>, byGroup: map<int, seq<string>>, dip: map<string, int>) {
    forall k :: 0 <= k < |ss| ==> WellPlaced(ss[k]) && SpeciesRule(byGroup, dip, ss[k])
  }

  /** Every tree of the blocks `cs` is well placed and follows the species rule. */
  lemma {:induction false} GenerateBlocksWellFormed(cs: seq<(int, int)>, ts: seq<Template>,
                                                    byGroup: map<int, seq<string>>, dip: map<string, int>, g: Rng)
    requires InGrid(cs)
    ensures AllWellFormed(GenerateBlocks(cs, ts, byGroup, dip, g).0, byGroup, dip)
    decreases |cs|
  {
    if cs != [] {
      var blk := GenerateBlock(cs[0].0, cs[0].1, ts, byGroup, dip, g);
      var rest := GenerateBlocks(cs[1..], ts, byGroup, dip, blk.1).0;
      GenerateBlocksWellFormed(cs[1..], ts, byGroup, dip, blk.1);
      var ss := blk.0 + rest;
      forall k | 0 <= k < |ss| ensures WellPlaced(ss[k]) && SpeciesRule(byGroup, dip, ss[k]) {
        if k < |blk.0| {
          assert ss[k] == blk.0[k];
        } else {
          assert ss[k] == rest[k - |blk.0|];
        }
      }
    }
  }

  /** The trees carry serials 1, 2, .. in order. */
  predicate Numbered(ss: seq<Specimen>) {
    forall k :: 0 <= k < |ss| ==> ss[k].id.serial == k + 1
  }

  /** The tree counter: the k-th tree (from 0) gets serial k + 1; nothing else changes. */
  function Number(ss: seq<Specimen>): (r: seq<Specimen>)
    ensures |r| == |ss|
    ensures forall k :: 0 <= k < |ss| ==> r[k].id.serial == k + 1
    ensures forall k :: 0 <= k < |ss| ==> r[k] == ss[k].(id := ss[k].id.(serial := k + 1))
  {
    seq(|ss|, k requires 0 <= k < |ss| => ss[k].(id := ss[k].id.(serial := k + 1)))
  }

  /** The templates of one block: the distribution table expanded, 500 of them. */
  function BlockTemplates(): (ts: seq<Template>)
    ensures |ts| == 500
  {
    ExpandLength(DistributionTable(), GroupNames());
    TableTotalIs500();
    Expand(DistributionTable(), GroupNames())
  }

  /**
   * The forest over blocks `cs` from per-block templates `ts`: the blocks in
   * order, then numbered.
   */
  function GenerateForest(cs: seq<(int, int)>, ts: seq<Template>,
                          byGroup: map<int, seq<string>>, dip: map<string, int>, g: Rng): (r: (seq<Specimen>, Rng))
    requires |ts| == 500 && InGrid(cs)
    ensures |r.0| == 500 * |cs|
    ensures Numbered(r.0)
    ensures AllWellFormed(r.0, byGroup, dip)
  {
    var all := GenerateBlocks(cs, ts, byGroup, dip, g);
    GenerateBlocksLength(cs, ts, byGroup, dip, g);
    GenerateBlocksWellFormed(cs, ts, byGroup, dip, g);
    (Number(all.0), all.1)
  }

  /**
   * `generateForestTrees`: all 100 blocks of the distribution table, 50 000 trees
   * whatever the draws, numbered 1, 2, .. in generation order, each well placed and
   * following the species rule.
   */
  function GenerateForestTrees(byGroup: map<int, seq<string>>, dip: map<string, int>, g: Rng)
    : (r: (seq<Specimen>, Rng))
    ensures |r.0| == 50000
    ensures Numbered(r.0)
    ensures AllWellFormed(r.0, byGroup, dip)
  {
    GridOrderInGrid();
    GenerateForest(GridOrder(), BlockTemplates(), byGroup, dip, g)
  }

  /** The number of trees of block (bi, bj) generated from template `t`. */
  function BlockCount(ss: seq<Specimen>, bi: int, bj: int, t: Template): nat {
    if ss == [] then 0
    else
      (if ss[0].blockI == bi && ss[0].blockJ == bj && KeyOf(ss[0]) == t then 1 else 0)
      + BlockCount(ss[1..], bi, bj, t)
  }

  /** Counting over a concatenation adds up. */
  lemma {:induction false} BlockCountConcat(a: seq<Specimen>, b: seq<Specimen>, bi: int, bj: int, t: Template)
    ensures BlockCount(a + b, bi, bj, t) == BlockCount(a, bi, bj, t) + BlockCount(b, bi, bj, t)
  {
    if a == [] {
      assert a + b == b;
    } else {
      assert (a + b)[0] == a[0];
      assert (a + b)[1..] == a[1..] + b;
      BlockCountConcat(a[1..], b, bi, bj, t);
    }
  }

  /** When all trees lie in the block, its count of `t` is the number of `t` among their templates. */
  lemma {:induction false} BlockCountAllInBlock(ss: seq<Specimen>, keys: seq<Template>, bi: int, bj: int, t: Template)
    requires |ss| == |keys|
    requires forall k :: 0 <= k < |ss| ==> ss[k].blockI == bi && ss[k].blockJ == bj && KeyOf(ss[k]) == keys[k]
    ensures BlockCount(ss, bi, bj, t) == multiset(keys)[t]
  {
    if ss != [] {
      BlockCountAllInBlock(ss[1..], keys[1..], bi, bj, t);
      assert keys == [keys[0]] + keys[1..];
    }
  }

  /** Trees outside the block contribute nothing to it. */
  lemma {:induction false} BlockCountNoneInBlock(ss: seq<Specimen>, bi: int, bj: int, t: Template)
    requires forall k :: 0 <= k < |ss| ==> !(ss[k].blockI == bi && ss[k].blockJ == bj)
    ensures BlockCount(ss, bi, bj, t) == 0
  {
    if ss != [] {
      BlockCountNoneInBlock(ss[1..], bi, bj, t);
    }
  }

  /** Two sequences that agree on every tree's block and template have the same counts. */
  lemma {:induction false} BlockCountSameKeys(a: seq<Specimen>, b: seq<Specimen>, bi: int, bj: int, t: Template)
    requires |a| == |b|
    requires forall k :: 0 <= k < |a| ==> a[k].blockI == b[k].blockI && a[k].blockJ == b[k].blockJ && KeyOf(a[k]) == KeyOf(b[k])
    ensures BlockCount(a, bi, bj, t) == BlockCount(b, bi, bj, t)
  {
    if a != [] {
      BlockCountSameKeys(a[1..], b[1..], bi, bj, t);
    }
  }

  /** One generated block holds the templates `ts`, in some order, and nothing of any other block. */
  lemma GenerateBlockCount(i: int, j: int, ts: seq<Template>,
                           byGroup: map<int, seq<string>>, dip: map<string, int>, g: Rng,
                           bi: int, bj: int, t: Template)
    requires 1 <= i <= GridSide && 1 <= j <= GridSide
    ensures BlockCount(GenerateBlock(i, j, ts, byGroup, dip, g).0, bi, bj, t)
      == if bi == i && bj == j then multiset(ts)[t] else 0
  {
    var shuffled := Shuffle(ts, g);
    var blk := GenerateBlock(i, j, ts, byGroup, dip, g).0;
    if bi == i && bj == j {
      BlockCountAllInBlock(blk, shuffled.0, bi, bj, t);
      ShufflePermutes(ts, g);
    } else {
      BlockCountNoneInBlock(blk, bi, bj, t);
    }
  }

  /** Blocks visited once each give every visited block the templates `ts`, and any other block nothing. */
  lemma {:induction false} GenerateBlocksCount(cs: seq<(int, int)>, ts: seq<Template>,
                                               byGroup: map<int, seq<string>>, dip: map<string, int>, g: Rng,
                                               bi: int, bj: int, t: Template)
    requires InGrid(cs) && Distinct(cs)
    ensures BlockCount(GenerateBlocks(cs, ts, byGroup, dip, g).0, bi, bj, t)
      == if (bi, bj) in cs then multiset(ts)[t] else 0
    decreases |cs|
  {
    if cs != [] {
      var blk := GenerateBlock(cs[0].0, cs[0].1, ts, byGroup, dip, g);
      var rest := GenerateBlocks(cs[1..], ts, byGroup, dip, blk.1);
      BlockCountConcat(blk.0, rest.0, bi, bj, t);
      GenerateBlockCount(cs[0].0, cs[0].1, ts, byGroup, dip, g, bi, bj, t);
      GenerateBlocksCount(cs[1..], ts, byGroup, dip, blk.1, bi, bj, t);
      assert (bi, bj) in cs <==> (bi, bj) == cs[0] || (bi, bj) in cs[1..];
      if (bi, bj) == cs[0] {
        assert (bi, bj) !in cs[1..] by {
          forall k | 0 <= k < |cs[1..]| ensures cs[1..][k] != cs[0] {
            assert cs[1..][k] == cs[k + 1];
          }
        }
      }
    }
  }

  /** A forest over blocks visited once each gives each of them the templates `ts`. */
  lemma GenerateForestCount(cs: seq<(int, int)>, ts: seq<Template>,
                            byGroup: map<int, seq<string>>, dip: map<string, int>, g: Rng,
                            bi: int, bj: int, t: Template)
    requires |ts| == 500 && InGrid(cs) && Distinct(cs) && (bi, bj) in cs
    ensures BlockCount(GenerateForest(cs, ts, byGroup, dip, g).0, bi, bj, t) == multiset(ts)[t]
  {
    var all := GenerateBlocks(cs, ts, byGroup, dip, g).0;
    GenerateBlocksCount(cs, ts, byGroup, dip, g, bi, bj, t);
    BlockCountSameKeys(Number(all), all, bi, bj, t);
  }

  /**
   * Every block of the generated forest holds exactly `table[group][class]` trees of
   * each species group (1..7) and diameter class, whatever the random draws.
   */
  lemma GenerationFollowsTable(byGroup: map<int, seq<string>>, dip: map<string, int>, g: Rng,
                               bi: int, bj: int, gid: int, c: DiameterClass)
    requires 1 <= bi <= GridSide && 1 <= bj <= GridSide && 1 <= gid <= 7
    ensures BlockCount(GenerateForestTrees(byGroup, dip, g).0, bi, bj, Template(gid, c))
      == Count(DistributionTable()[gid - 1], c)
  {
    GridOrderInGrid();
    GridOrderDistinct();
    GridOrderCovers(bi, bj);
    GenerateForestCount(GridOrder(), BlockTemplates(), byGroup, dip, g, bi, bj, Template(gid, c));
    BlockTemplatesCount(gid, c);
  }

  /** The templates of a block hold `table[group][class]` copies of each group and class. */
  lemma BlockTemplatesCount(gid: int, c: DiameterClass)
    requires 1 <= gid <= 7
    ensures multiset(BlockTemplates())[Template(gid, c)] == Count(DistributionTable()[gid - 1], c)
  {
    ExpandCounts(DistributionTable(), GroupNames(), Template(gid, c));
    TableCountOfGroup(gid - 1, c);
  }
}
