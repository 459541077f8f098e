/**
 * The shuffle of the data files in Loader (common/loader.go): one
 * Fisher-Yates pass over the list, in place, with the random choices
 * supplied by the caller.
 */
module Shuffling {
  /** The Fisher-Yates pass as written: step i swaps position i with the
      position picked for it. */
  function Swapped<T>(s: seq<T>, i: nat, j: nat): (t: seq<T>)
    requires i < |s| && j < |s|
    ensures |t| == |s|
  {
    seq(|s|, k requires 0 <= k < |s| => if k == j then s[i] else if k == i then s[j] else s[k])
  }

  /** A swap keeps every element, as often as before. */
  lemma SwappedPermutation<T>(s: seq<T>, i: nat, j: nat)
    requires i < |s| && j < |s|
    ensures multiset(Swapped(s, i, j)) == multiset(s)
  {
    assert Swapped(s, i, j) == s[i := s[j]][j := s[i]];
  }

  function Shuffled<T>(s: seq<T>, picks: seq<nat>, n: nat): (t: seq<T>)
    requires n <= |s| && |picks| == |s|
    requires forall i | 0 <= i < |s| :: picks[i] <= i
    ensures |t| == |s|
  {
    if n == 0 then s else Swapped(Shuffled(s, picks, n - 1), n - 1, picks[n - 1])
  }

  /** The shuffle only reorders: the result is a permutation of the list. */
  lemma {:induction false} ShuffledPermutation<T>(s: seq<T>, picks: seq<nat>, n: nat)
    requires n <= |s| && |picks| == |s|
    requires forall i | 0 <= i < |s| :: picks[i] <= i
    ensures multiset(Shuffled(s, picks, n)) == multiset(s)
    decreases n
  {
    if n > 0 {
      ShuffledPermutation(s, picks, n - 1);
      var t := Shuffled(s, picks, n - 1);
      SwappedPermutation(t, n - 1, picks[n - 1]);
    }
  }

  /** The in-place shuffle of the data files; `picks[i]` stands for
      `rand.Intn(i + 1)`. */
  method Shuffle<T>(a: array<T>, picks: seq<nat>)
    requires |picks| == a.Length
    requires forall i | 0 <= i < a.Length :: picks[i] <= i
    modifies a
    ensures a[..] == Shuffled(old(a[..]), picks, a.Length)
    ensures multiset(a[..]) == multiset(old(a[..]))
  {
    ghost var s := a[..];
    for i := 0 to a.Length
      invariant a[..] == Shuffled(s, picks, i)
    {
      var j := picks[i];
      ghost var before := a[..];
      a[i], a[j] := a[j], a[i];
      assert a[..] == Swapped(before, i, j);
    }
    ShuffledPermutation(s, picks, a.Length);
  }
}
