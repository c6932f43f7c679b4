/** `determineFellingCriteria` and `getInitialTreeStatus`. */
module Felling {
  import opened Forest

  /** The species groups eligible for harvest. */
  const FellingGroups: set<int> := {1, 2, 3, 5}

  /** The default felling threshold, 45.00 cm in hundredths. */
  const DefaultThreshold := 4500

  /**
   * `determineFellingCriteria`: met exactly when the group is eligible and the
   * diameter is strictly above the threshold (both in hundredths of a cm; a real
   * threshold t is the integer floor(100·t), since diameters are whole hundredths).
   */
  function DetermineFellingCriteria(group: int, d: int, threshold: int): (c: Criteria)
    ensures c == Met <==> group in FellingGroups && d > threshold
  {
    if group in FellingGroups && d > threshold then Met else NotMet
  }

  /** `getInitialTreeStatus`: a tree that meets the criteria is cut, any other stands. */
  function InitialStatus(c: Criteria): (s: Status)
    ensures s == Cut <==> c == Met
    ensures s == Stand <==> c == NotMet
  {
    match c
    case Met => Cut
    case NotMet => Stand
  }

  /** A tree that meets the criteria still meets them when thicker. */
  lemma CriteriaMonotoneInDiameter(group: int, d1: int, d2: int, threshold: int)
    requires d1 <= d2 && DetermineFellingCriteria(group, d1, threshold) == Met
    ensures DetermineFellingCriteria(group, d2, threshold) == Met
  {
  }

  /** Raising the threshold never makes more trees eligible. */
  lemma CriteriaAntitoneInThreshold(group: int, d: int, t1: int, t2: int)
    requires t1 <= t2 && DetermineFellingCriteria(group, d, t2) == Met
    ensures DetermineFellingCriteria(group, d, t1) == Met
  {
  }

  /** The comparison is strict: 45.00 cm at a 45.00 cm threshold is not met, 45.01 cm is. */
  lemma CriteriaExamples()
    ensures DetermineFellingCriteria(1, 4500, DefaultThreshold) == NotMet
    ensures DetermineFellingCriteria(1, 4501, DefaultThreshold) == Met
    ensures DetermineFellingCriteria(4, 10000, DefaultThreshold) == NotMet
  {
  }
}
