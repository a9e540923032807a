/** Order-preserving subsequences, stated by an explicit increasing embedding
    of positions. */
module Subsequences {

  /** `idx` lists, in strictly increasing order, positions of `ys` whose
      elements spell out `xs`. */
  ghost predicate Embedding<T>(idx: seq<nat>, xs: seq<T>, ys: seq<T>) {
    && |idx| == |xs|
    && (forall i :: 0 <= i < |idx| ==> idx[i] < |ys| && xs[i] == ys[idx[i]])
    && (forall i, j :: 0 <= i < j < |idx| ==> idx[i] < idx[j])
  }

  /** `xs` is obtained from `ys` by deleting elements, keeping the order of the rest. */
  ghost predicate IsSubsequence<T>(xs: seq<T>, ys: seq<T>) {
    exists idx :: Embedding(idx, xs, ys)
  }

  function ShiftUp(idx: seq<nat>): (r: seq<nat>)
    ensures |r| == |idx|
    ensures forall i :: 0 <= i < |r| ==> r[i] == idx[i] + 1
  {
    seq(|idx|, i requires 0 <= i < |idx| => idx[i] + 1)
  }

  /** A subsequence of the tail of `ys` is a subsequence of `ys`, with or
      without the head of `ys` in front of it. */
  lemma SubsequenceOfTail<T>(xs: seq<T>, ys: seq<T>)
    requires |ys| > 0
    requires IsSubsequence(xs, ys[1..])
    ensures IsSubsequence(xs, ys)
    ensures IsSubsequence([ys[0]] + xs, ys)
  {
    var idx :| Embedding(idx, xs, ys[1..]);
    var up := ShiftUp(idx);
    assert Embedding(up, xs, ys);
    assert Embedding([0] + up, [ys[0]] + xs, ys);
  }
}
