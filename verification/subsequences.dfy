/** Order-preserving subsequences.

    The translators filter their input batches: the crafting translator sorts actions into
    two lists and the block-update translator drops unchanged blocks. Both promise that the
    kept elements stay in input order; this module states what that means, independently of
    how each filter is written.
 */
module Subsequences {

  /** `idx` embeds `xs` into `ys`: it lists strictly increasing positions of `ys` whose
      elements, read in order, are exactly `xs`. */
  ghost predicate Embeds<T>(idx: seq<int>, xs: seq<T>, ys: seq<T>) {
    && |idx| == |xs|
    && (forall k :: 0 <= k < |idx| ==> 0 <= idx[k] < |ys| && xs[k] == ys[idx[k]])
    && (forall k, l :: 0 <= k < l < |idx| ==> idx[k] < idx[l])
  }

  /** `xs` is obtained from `ys` by deleting elements, keeping the rest in order. */
  ghost predicate IsSubsequence<T>(xs: seq<T>, ys: seq<T>) {
    exists idx :: Embeds(idx, xs, ys)
  }

  lemma EmptyIsSubsequence<T>(ys: seq<T>)
    ensures IsSubsequence([], ys)
  {
    assert Embeds([], [], ys);
  }

  /** Keeping a new last element of `ys` extends an embedding by its position. */
  lemma EmbedsKeepLast<T>(idx: seq<int>, xs: seq<T>, ys: seq<T>, y: T)
    requires Embeds(idx, xs, ys)
    ensures Embeds(idx + [|ys|], xs + [y], ys + [y])
  {
    var idx', xs', ys' := idx + [|ys|], xs + [y], ys + [y];
    forall k | 0 <= k < |idx'| ensures 0 <= idx'[k] < |ys'| && xs'[k] == ys'[idx'[k]] {
      if k < |idx| { assert idx'[k] == idx[k] && xs'[k] == xs[k] && ys'[idx[k]] == ys[idx[k]]; }
    }
    forall k, l | 0 <= k < l < |idx'| ensures idx'[k] < idx'[l] {
      assert idx'[k] == idx[k];
      if l < |idx| { assert idx'[l] == idx[l]; }
    }
  }

  /** Dropping a new last element of `ys` keeps an embedding as it is. */
  lemma EmbedsDropLast<T>(idx: seq<int>, xs: seq<T>, ys: seq<T>, y: T)
    requires Embeds(idx, xs, ys)
    ensures Embeds(idx, xs, ys + [y])
  {
    forall k | 0 <= k < |idx| ensures (ys + [y])[idx[k]] == ys[idx[k]] {
    }
  }

  lemma KeepLast<T>(xs: seq<T>, ys: seq<T>, y: T)
    requires IsSubsequence(xs, ys)
    ensures IsSubsequence(xs + [y], ys + [y])
  {
    var idx :| Embeds(idx, xs, ys);
    EmbedsKeepLast(idx, xs, ys, y);
  }

  lemma DropLast<T>(xs: seq<T>, ys: seq<T>, y: T)
    requires IsSubsequence(xs, ys)
    ensures IsSubsequence(xs, ys + [y])
  {
    var idx :| Embeds(idx, xs, ys);
    EmbedsDropLast(idx, xs, ys, y);
  }
}
