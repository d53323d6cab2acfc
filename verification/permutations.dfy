/** Outcomes of `random.shuffle`: a shuffle of a list of length n is
    described by the permutation of its indices it applies. */
module Permutations {

  /** `perm` lists each index 0 .. n-1 exactly once. */
  predicate IsPermutation(perm: seq<int>, n: nat) {
    && |perm| == n
    && (forall k :: 0 <= k < n ==> 0 <= perm[k] < n)
    && (forall k, l :: 0 <= k < l < n ==> perm[k] != perm[l])
    && (forall v :: 0 <= v < n ==> v in perm)
  }

  /** The list whose k-th entry is the `perm[k]`-th entry of `s`. */
  function Permute<T>(s: seq<T>, perm: seq<int>): (r: seq<T>)
    requires forall k :: 0 <= k < |perm| ==> 0 <= perm[k] < |s|
    ensures |r| == |perm|
    ensures forall k :: 0 <= k < |perm| ==> r[k] == s[perm[k]]
  {
    seq(|perm|, k requires 0 <= k < |perm| => s[perm[k]])
  }

  /** Removing the position that holds the largest index leaves a permutation of one fewer index. */
  lemma DropLast(perm: seq<int>, n: nat, j: int)
    requires n > 0 && IsPermutation(perm, n)
    requires 0 <= j < n && perm[j] == n - 1
    ensures IsPermutation(perm[..j] + perm[j + 1..], n - 1)
  {
    var rest := perm[..j] + perm[j + 1..];
    assert forall k :: 0 <= k < n - 1 ==> rest[k] == (if k < j then perm[k] else perm[k + 1]);
    forall v | 0 <= v < n - 1
      ensures v in rest
    {
      assert v in perm;
      var i :| 0 <= i < |perm| && perm[i] == v;
      if i < j {
        assert rest[i] == v;
      } else {
        assert rest[i - 1] == v;
      }
    }
  }

  /** Shuffling the list without its last entry by the shortened
      permutation gives the shuffle with that entry's position cut out. */
  lemma PermuteDrop<T>(s: seq<T>, perm: seq<int>, j: int)
    requires |s| > 0 && IsPermutation(perm, |s|)
    requires 0 <= j < |s| && perm[j] == |s| - 1
    ensures IsPermutation(perm[..j] + perm[j + 1..], |s| - 1)
    ensures Permute(s[..|s| - 1], perm[..j] + perm[j + 1..])
         == Permute(s, perm)[..j] + Permute(s, perm)[j + 1..]
  {
    DropLast(perm, |s|, j);
  }

  /** The position at which a permutation holds the index `v`. */
  lemma PositionOf(perm: seq<int>, n: nat, v: int) returns (j: int)
    requires IsPermutation(perm, n) && 0 <= v < n
    ensures 0 <= j < n && perm[j] == v
  {
    assert v in perm;
    j :| 0 <= j < |perm| && perm[j] == v;
  }

  /** Cutting one position out of a sequence removes one copy of its entry from the multiset. */
  lemma CutOut<T>(r: seq<T>, j: int)
    requires 0 <= j < |r|
    ensures multiset(r) == multiset(r[..j] + r[j + 1..]) + multiset{r[j]}
  {
    assert r == r[..j] + [r[j]] + r[j + 1..];
  }

  /** Putting the last entry back at the cut-out position restores the whole multiset. */
  lemma PutBack<T>(s: seq<T>, r: seq<T>, j: int)
    requires |s| > 0 && |r| == |s| && 0 <= j < |r| && r[j] == s[|s| - 1]
    requires multiset(r[..j] + r[j + 1..]) == multiset(s[..|s| - 1])
    ensures multiset(r) == multiset(s)
  {
    CutOut(r, j);
    CutOut(s, |s| - 1);
  }

  /** A shuffle rearranges its list without adding, losing or duplicating an entry. */
  lemma {:induction false} PermuteMultiset<T>(s: seq<T>, perm: seq<int>)
    requires IsPermutation(perm, |s|)
    ensures multiset(Permute(s, perm)) == multiset(s)
    decreases |s|
  {
    var n := |s|;
    if n > 0 {
      var j := PositionOf(perm, n, n - 1);
      PermuteDrop(s, perm, j);
      PermuteMultiset(s[..n - 1], perm[..j] + perm[j + 1..]);
      PutBack(s, Permute(s, perm), j);
    }
  }

  /** A shuffle of a list without repeats has no repeats. */
  lemma PermuteDistinct<T>(s: seq<T>, perm: seq<int>)
    requires IsPermutation(perm, |s|)
    requires forall k, l :: 0 <= k < l < |s| ==> s[k] != s[l]
    ensures forall k, l :: 0 <= k < l < |s| ==> Permute(s, perm)[k] != Permute(s, perm)[l]
  {
  }
}
