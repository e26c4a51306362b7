/**
 * Keeping the elements of a sequence that a boolean mask marks, in order: the shape of a
 * filtering list comprehension and of pandas boolean indexing (`df.loc[mask, col]`).
 */
module Seqs {

  /** The positions the mask marks, in increasing order. */
  function TrueIndices(mask: seq<bool>): (idx: seq<nat>)
    ensures |idx| <= |mask|
    ensures forall k :: 0 <= k < |idx| ==> idx[k] < |mask| && mask[idx[k]]
    ensures forall i :: 0 <= i < |mask| && mask[i] ==> i in idx
    ensures forall k, l :: 0 <= k < l < |idx| ==> idx[k] < idx[l]
  {
    if mask == [] then []
    else
      var n := |mask| - 1;
      var front := TrueIndices(mask[..n]);
      assert forall k :: 0 <= k < |front| ==> mask[front[k]] == mask[..n][front[k]];
      assert forall i :: 0 <= i < n ==> mask[i] == mask[..n][i];
      front + (if mask[n] then [n] else [])
  }

  /** `xs[k]` for every `k` the mask marks, in order. */
  function Select<T>(xs: seq<T>, mask: seq<bool>): (r: seq<T>)
    requires |xs| == |mask|
    ensures |r| <= |xs|
  {
    if xs == [] then []
    else
      var n := |xs| - 1;
      Select(xs[..n], mask[..n]) + (if mask[n] then [xs[n]] else [])
  }

  /** A mask that marks everything keeps everything; one that marks nothing keeps nothing. */
  lemma {:induction false} SelectUniform<T>(xs: seq<T>, mask: seq<bool>)
    requires |xs| == |mask|
    ensures (forall i :: 0 <= i < |mask| ==> mask[i]) ==> Select(xs, mask) == xs
    ensures (forall i :: 0 <= i < |mask| ==> !mask[i]) ==> Select(xs, mask) == []
  {
    if xs != [] {
      var n := |xs| - 1;
      SelectUniform(xs[..n], mask[..n]);
      assert forall i :: 0 <= i < n ==> mask[..n][i] == mask[i];
      assert xs[..n] + [xs[n]] == xs;
    }
  }

  /** `Select` keeps exactly the marked elements, in their original order. */
  lemma {:induction false} SelectAtTrueIndices<T>(xs: seq<T>, mask: seq<bool>)
    requires |xs| == |mask|
    ensures |Select(xs, mask)| == |TrueIndices(mask)|
    ensures forall k :: 0 <= k < |TrueIndices(mask)| ==> Select(xs, mask)[k] == xs[TrueIndices(mask)[k]]
  {
    if xs != [] {
      var n := |xs| - 1;
      SelectAtTrueIndices(xs[..n], mask[..n]);
      var front := TrueIndices(mask[..n]);
      var kept := Select(xs[..n], mask[..n]);
      assert TrueIndices(mask) == front + (if mask[n] then [n] else []);
      assert Select(xs, mask) == kept + (if mask[n] then [xs[n]] else []);
      forall k | 0 <= k < |TrueIndices(mask)| ensures Select(xs, mask)[k] == xs[TrueIndices(mask)[k]] {
        if k < |front| {
          assert front[k] < n && kept[k] == xs[..n][front[k]];
        }
      }
    }
  }
}
