/**
 * The tree record. A `Specimen` holds what generation fixes once and for all
 * (identity, position, species, size); a `Tree` adds what the later passes
 * compute. Units: diameters in hundredths of a cm, heights in hundredths of a m,
 * volumes in ten-thousandths of a m³, damage in hundredths of a percent. A field
 * that does not apply is `None` (the source's `null` and `'-'` alike).
 */
module Forest {
  import opened Wrappers
  import opened Distribution

  /** The tree id `T<block_i><block_j><x><y>_<n>`, kept as its parts. */
  datatype TreeId = TreeId(blockI: int, blockJ: int, x: int, y: int, serial: int)

  /**
   * A tree's species: a catalogue name, or the `UNKNOWN_SPECIES` marker the
   * generator writes when the tree's group has no catalogued species.
   */
  datatype SpeciesName = UnknownSpecies | Named(name: string)

  /** A generated tree. */
  datatype Specimen = Specimen(
    id: TreeId,
    blockI: int, blockJ: int,
    x: int, y: int,
    species: SpeciesName, group: int,
    diameter: int, dClass: DiameterClass,
    height: int, dipFlag: int)

  /** Harvest status; a tree starts `Stand` or `Cut`, and only damage moves it on. */
  datatype Status = Stand | Cut | Victim | Keep

  /** The felling-criteria result ('met' / 'not met'). */
  datatype Criteria = Met | NotMet

  /** A tree with every computed field of the simulation. */
  datatype Tree = Tree(
    sp: Specimen,
    volume: int,
    criteria: Criteria,
    status: Status,
    cutAngle: Option<int>,
    damageStem: Option<int>,
    damageCrown: Option<int>,
    prod: Option<int>,
    diameter30: Option<int>,
    volume30: Option<int>,
    prod30: Option<int>)

  /** Stem damage recorded on a victim: 100.00 %. */
  const FullStemDamage := 10000

  /** Bounds of a crown-damage roll: 10.00 % .. 50.00 %. */
  const CrownLow := 1000
  const CrownHigh := 5000

  /** Damage order of the statuses a felling can reach: stand < keep < victim. */
  function Severity(s: Status): int {
    match s
    case Stand => 0
    case Keep => 1
    case Victim => 2
    case Cut => 3
  }

  /**
   * The status transitions damage can make: none, or strictly up the damage order
   * among stand, keep and victim. `Cut` neither leaves nor is entered.
   */
  predicate MayBecome(a: Status, b: Status) {
    a == b || (a != Cut && b != Cut && Severity(a) < Severity(b))
  }

  /** The transition relation is a partial order: reflexive, transitive, antisymmetric. */
  lemma MayBecomeIsPartialOrder(a: Status, b: Status, c: Status)
    ensures MayBecome(a, a)
    ensures MayBecome(a, b) && MayBecome(b, c) ==> MayBecome(a, c)
    ensures MayBecome(a, b) && MayBecome(b, a) ==> a == b
  {
  }

  /** A victim stays a victim; a damaged tree never returns to stand; nothing becomes or stops being cut. */
  lemma MayBecomeFacts(a: Status, b: Status)
    requires MayBecome(a, b)
    ensures a == Victim ==> b == Victim
    ensures a == Keep ==> b == Keep || b == Victim
    ensures a == Cut <==> b == Cut
  {
  }

  /**
   * The damage fields agree with the status: a victim carries 100 % stem damage
   * only, a keep tree one crown roll in [10 %, 50 %] only, stand and cut trees none.
   */
  predicate DamageConsistent(t: Tree) {
    match t.status
    case Victim => t.damageStem == Some(FullStemDamage) && t.damageCrown.None?
    case Keep => t.damageStem.None? && t.damageCrown.Some? && CrownLow <= t.damageCrown.value <= CrownHigh
    case Stand => t.damageStem.None? && t.damageCrown.None?
    case Cut => t.damageStem.None? && t.damageCrown.None?
  }

  /** No two trees share an id. */
  predicate UniqueIds(ts: seq<Tree>) {
    forall i, j :: 0 <= i < j < |ts| ==> ts[i].sp.id != ts[j].sp.id
  }
}
