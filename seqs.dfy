/**
  Facts about sequences that the proofs about appended line lists use at every
  step; stated once, for any element type, so that they need not be rediscovered
  element by element.
*/
module Seqs {

  /** Concatenation is associative. */
  lemma ConcatAssoc<T>(a: seq<T>, b: seq<T>, c: seq<T>)
    ensures (a + b) + c == a + (b + c)
  {
  }

  /** A slice that lies inside the left operand of a concatenation. */
  lemma SliceLeft<T>(a: seq<T>, b: seq<T>, p: nat, q: nat)
    requires p <= q <= |a|
    ensures (a + b)[p..q] == a[p..q]
  {
  }

  /** The slice of a concatenation after its left operand is the right operand. */
  lemma SliceRight<T>(a: seq<T>, b: seq<T>)
    ensures (a + b)[|a|..|a| + |b|] == b
  {
  }

  /** A slice of a slice is a slice of the whole. */
  lemma SliceOfSlice<T>(s: seq<T>, p: nat, q: nat, a: nat, b: nat)
    requires p <= q <= |s| && a <= b <= q - p
    ensures s[p..q][a..b] == s[p + a..p + b]
  {
    forall k | 0 <= k < b - a ensures s[p..q][a..b][k] == s[p + a..p + b][k] {
      assert s[p..q][a..b][k] == s[p..q][a + k];
    }
  }

  /** An element of a slice is the element of the whole at the shifted index. */
  lemma SliceIndex<T>(s: seq<T>, p: nat, q: nat, k: nat)
    requires p <= q <= |s| && k < q - p
    ensures s[p..q][k] == s[p + k]
  {
  }

  /** In a slice made of one element and then a sequence, element `j` of the
      sequence sits `1 + j` places after the start of the slice. */
  lemma BlockElement<T>(s: seq<T>, o: nat, head: T, rest: seq<T>, j: nat)
    requires o + 1 + |rest| <= |s| && s[o..o + 1 + |rest|] == [head] + rest && j < |rest|
    ensures s[o + 1 + j] == rest[j]
  {
    assert s[o + 1 + j] == s[o..o + 1 + |rest|][1 + j];
  }

  /** The parts of one element, a sequence and a last part, laid end to end. */
  lemma HeadMiddleTail<T>(h: T, m: seq<T>, t: seq<T>)
    ensures var s := [h] + m + t;
            && |s| == 1 + |m| + |t|
            && s[0] == h
            && s[1..1 + |m|] == m
            && s[1 + |m|..] == t
  {
    var s := [h] + m + t;
    assert s[1..1 + |m|] == m;
  }
}
