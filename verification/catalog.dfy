/**
 * The species catalogue as the engine consumes it: a list of species records and
 * the two lookups derived from it (names by species group, dipterocarp flag by name).
 * Reading the catalogue file is outside the model; the records are an input.
 */
module Catalog {

  /** One catalogue record, restricted to the columns the engine reads. */
  datatype Species = Species(name: string, group: int, dipFlag: int)

  /** The names of the group-`g` species, in catalogue order (duplicates kept). */
  function NamesInGroup(cat: seq<Species>, g: int): (r: seq<string>)
    ensures r == [] <==> forall k :: 0 <= k < |cat| ==> cat[k].group != g
    decreases |cat|
  {
    if cat == [] then []
    else
      var init := cat[..|cat| - 1];
      var s := cat[|cat| - 1];
      assert forall k :: 0 <= k < |init| ==> init[k] == cat[k];
      NamesInGroup(init, g) + (if s.group == g then [s.name] else [])
  }

  /** A name is listed for group `g` exactly when some record of group `g` carries it. */
  lemma {:induction false} NamesInGroupMembers(cat: seq<Species>, g: int, nm: string)
    ensures nm in NamesInGroup(cat, g) <==> exists k :: 0 <= k < |cat| && cat[k].group == g && cat[k].name == nm
    decreases |cat|
  {
    if cat != [] {
      var init := cat[..|cat| - 1];
      assert forall k :: 0 <= k < |init| ==> init[k] == cat[k];
      NamesInGroupMembers(init, g, nm);
    }
  }

  /**
   * Names by group: one entry per group that occurs in the catalogue, holding that
   * group's names in catalogue order. A group with no species has no entry.
   */
  function SpeciesNamesByGroup(cat: seq<Species>): map<int, seq<string>>
    decreases |cat|
  {
    if cat == [] then map[]
    else
      var m := SpeciesNamesByGroup(cat[..|cat| - 1]);
      var s := cat[|cat| - 1];
      m[s.group := (if s.group in m then m[s.group] else []) + [s.name]]
  }

  /**
   * Group `g` has an entry exactly when some record belongs to it, and the entry
   * lists the group's names in catalogue order.
   */
  lemma {:induction false} SpeciesNamesByGroupEntry(cat: seq<Species>, g: int)
    ensures g in SpeciesNamesByGroup(cat) <==> exists k :: 0 <= k < |cat| && cat[k].group == g
    ensures g in SpeciesNamesByGroup(cat) ==> SpeciesNamesByGroup(cat)[g] == NamesInGroup(cat, g)
    decreases |cat|
  {
    if cat != [] {
      var init := cat[..|cat| - 1];
      var s := cat[|cat| - 1];
      assert forall k :: 0 <= k < |init| ==> init[k] == cat[k];
      SpeciesNamesByGroupEntry(init, g);
      assert NamesInGroup(cat, g) == NamesInGroup(init, g) + (if s.group == g then [s.name] else []);
      if g != s.group && g in SpeciesNamesByGroup(cat) {
        assert g in SpeciesNamesByGroup(init);
        var k :| 0 <= k < |init| && init[k].group == g;
        assert cat[k].group == g;
      }
      if s.group == g && g !in SpeciesNamesByGroup(init) {
        assert NamesInGroup(init, g) == [];
      }
    }
  }

  /** The names available to group `g`, empty when the group has no entry (the source's `?? []`). */
  function AvailableSpecies(byGroup: map<int, seq<string>>, g: int): seq<string> {
    if g in byGroup then byGroup[g] else []
  }

  /** The species available to a group are exactly that group's catalogue names, in order. */
  lemma AvailableIsNamesInGroup(cat: seq<Species>, g: int)
    ensures AvailableSpecies(SpeciesNamesByGroup(cat), g) == NamesInGroup(cat, g)
  {
    SpeciesNamesByGroupEntry(cat, g);
  }

  /**
   * Dipterocarp flag by species name. A name listed twice keeps the flag of its
   * last record, since later records overwrite earlier ones.
   */
  function DipterocarpByName(cat: seq<Species>): map<string, int>
    decreases |cat|
  {
    if cat == [] then map[]
    else DipterocarpByName(cat[..|cat| - 1])[cat[|cat| - 1].name := cat[|cat| - 1].dipFlag]
  }

  /** A name has a flag exactly when some record carries it. */
  lemma {:induction false} DipterocarpByNameKeys(cat: seq<Species>, nm: string)
    ensures nm in DipterocarpByName(cat) <==> exists k :: 0 <= k < |cat| && cat[k].name == nm
    decreases |cat|
  {
    if cat != [] {
      var init := cat[..|cat| - 1];
      assert forall k :: 0 <= k < |init| ==> init[k] == cat[k];
      DipterocarpByNameKeys(init, nm);
      if nm != cat[|cat| - 1].name && nm in DipterocarpByName(cat) {
        var k :| 0 <= k < |init| && init[k].name == nm;
        assert cat[k].name == nm;
      }
    }
  }

  /** Record `k` is the last record carrying its name. */
  predicate IsLastOfName(cat: seq<Species>, k: int)
    requires 0 <= k < |cat|
  {
    forall k' :: k < k' < |cat| ==> cat[k'].name != cat[k].name
  }

  /** The flag recorded for a name is the flag of the last record with that name. */
  lemma {:induction false} DipterocarpIsLastRecord(cat: seq<Species>, k: int)
    requires 0 <= k < |cat| && IsLastOfName(cat, k)
    ensures cat[k].name in DipterocarpByName(cat)
    ensures DipterocarpByName(cat)[cat[k].name] == cat[k].dipFlag
    decreases |cat|
  {
    var init := cat[..|cat| - 1];
    assert forall j :: 0 <= j < |init| ==> init[j] == cat[j];
    if k < |init| {
      assert cat[|cat| - 1].name != cat[k].name;
      assert IsLastOfName(init, k);
      DipterocarpIsLastRecord(init, k);
    }
  }

  /** The flag the generator uses for a species name: the lookup, or 0 when the name is unknown. */
  function DipFlagOf(dip: map<string, int>, name: string): int {
    if name in dip then dip[name] else 0
  }
}
