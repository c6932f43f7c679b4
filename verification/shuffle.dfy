/**
 * PHP's `shuffle`: Fisher–Yates from the last position down, swapping position
 * `j` with a position drawn from [0, j] for j = n-1 .. 1, one draw per position.
 */
module Shuffling {
  import opened Random

  /** `s` with the elements at `i` and `j` exchanged. */
  function Swap<T>(s: seq<T>, i: nat, j: nat): (r: seq<T>)
    requires i < |s| && j < |s|
    ensures |r| == |s|
    ensures r[i] == s[j] && r[j] == s[i]
    ensures forall k :: 0 <= k < |s| && k != i && k != j ==> r[k] == s[k]
  {
    s[i := s[j]][j := s[i]]
  }

  /** Exchanging two elements keeps the multiset of elements. */
  lemma SwapPermutes<T>(s: seq<T>, i: nat, j: nat)
    requires i < |s| && j < |s|
    ensures multiset(Swap(s, i, j)) == multiset(s)
  {
    assert multiset(s[i := s[j]]) == multiset(s) - multiset{s[i]} + multiset{s[j]};
  }

  /** The shuffle steps for positions j, j-1, .., 1. */
  function ShuffleDown<T>(s: seq<T>, j: nat, g: Rng): (r: (seq<T>, Rng))
    requires j < |s|
    ensures |r.0| == |s|
    ensures Advanced(g, r.1, j)
    decreases j
  {
    if j == 0 then (s, g)
    else
      var k := Rand(g, 0, j);
      ShuffleDown(Swap(s, j, k.0), j - 1, k.1)
  }

  /** The shuffle steps only reorder. */
  lemma {:induction false} ShuffleDownPermutes<T>(s: seq<T>, j: nat, g: Rng)
    requires j < |s|
    ensures multiset(ShuffleDown(s, j, g).0) == multiset(s)
    decreases j
  {
    if j > 0 {
      var k := Rand(g, 0, j);
      SwapPermutes(s, j, k.0);
      ShuffleDownPermutes(Swap(s, j, k.0), j - 1, k.1);
    }
  }

  /** `shuffle`: a reordering of `s`, using one draw per position after the first. */
  function Shuffle<T>(s: seq<T>, g: Rng): (r: (seq<T>, Rng))
    ensures |r.0| == |s|
    ensures Advanced(g, r.1, if |s| == 0 then 0 else |s| - 1)
  {
    if |s| == 0 then (s, g) else ShuffleDown(s, |s| - 1, g)
  }

  /** `shuffle` returns a permutation of its input. */
  lemma ShufflePermutes<T>(s: seq<T>, g: Rng)
    ensures multiset(Shuffle(s, g).0) == multiset(s)
  {
    if |s| > 0 {
      ShuffleDownPermutes(s, |s| - 1, g);
    }
  }
}
