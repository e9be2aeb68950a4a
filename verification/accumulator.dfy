/** The record accumulator: `data = values + data` puts each sampled frame's
    rows in front of everything collected so far. */
module Accumulator {

  /** One step: the new frame's rows, then the rows collected before. */
  function Prepend<T>(data: seq<T>, values: seq<T>): (r: seq<T>)
    ensures |r| == |values| + |data|
    ensures r[..|values|] == values && r[|values|..] == data
  {
    values + data
  }

  /** The result after prepending each batch in turn, oldest batch first. */
  function AccumulateAll<T>(batches: seq<seq<T>>): seq<T>
    decreases |batches|
  {
    if |batches| == 0 then []
    else Prepend(AccumulateAll(batches[..|batches| - 1]), batches[|batches| - 1])
  }

  /** The newest batch leads the accumulated rows and the oldest closes
      them. */
  lemma {:induction false} NewestFirstOldestLast<T>(batches: seq<seq<T>>)
    requires |batches| > 0
    ensures batches[|batches| - 1] <= AccumulateAll(batches)
    ensures var r := AccumulateAll(batches);
      |batches[0]| <= |r| && r[|r| - |batches[0]|..] == batches[0]
    decreases |batches|
  {
    if |batches| > 1 {
      var init := batches[..|batches| - 1];
      NewestFirstOldestLast(init);
      assert init[0] == batches[0];
    }
  }

  /** Concatenation of batches in the order given. */
  function Flatten<T>(batches: seq<seq<T>>): seq<T>
    decreases |batches|
  {
    if |batches| == 0 then [] else batches[0] + Flatten(batches[1..])
  }

  /** The batches newest first. */
  function Reverse<T>(s: seq<T>): (r: seq<T>)
    ensures |r| == |s|
    ensures forall i :: 0 <= i < |s| ==> r[i] == s[|s| - 1 - i]
    decreases |s|
  {
    if |s| == 0 then [] else [s[|s| - 1]] + Reverse(s[..|s| - 1])
  }

  /** Prepending batch by batch is the same as collecting the batches in
      order, reversing once and concatenating. */
  lemma {:induction false} AccumulateIsReversedFlatten<T>(batches: seq<seq<T>>)
    ensures AccumulateAll(batches) == Flatten(Reverse(batches))
    decreases |batches|
  {
    if |batches| > 0 {
      var init := batches[..|batches| - 1];
      AccumulateIsReversedFlatten(init);
      var rev := Reverse(batches);
      assert rev[0] == batches[|batches| - 1];
      assert rev[1..] == Reverse(init);
    }
  }

  /** Every batch has `m` rows. */
  ghost predicate Uniform<T>(batches: seq<seq<T>>, m: nat) {
    forall j :: 0 <= j < |batches| ==> |batches[j]| == m
  }

  /** `k` batches of `m` rows flatten to `m * k` rows. */
  lemma {:induction false} FlattenLength<T>(batches: seq<seq<T>>, m: nat)
    requires Uniform(batches, m)
    ensures |Flatten(batches)| == m * |batches|
    decreases |batches|
  {
    if |batches| > 0 {
      FlattenLength(batches[1..], m);
      assert m * |batches| == m + m * (|batches| - 1);
    }
  }

  /** Row `i` of batch `j` is row `m * j + i` of the flattened batches. */
  lemma {:induction false} FlattenAt<T>(batches: seq<seq<T>>, m: nat, j: nat, i: nat)
    requires Uniform(batches, m)
    requires j < |batches| && i < m
    ensures m * j + i < |Flatten(batches)| && Flatten(batches)[m * j + i] == batches[j][i]
    decreases j
  {
    FlattenLength(batches, m);
    if j > 0 {
      FlattenAt(batches[1..], m, j - 1, i);
      assert m * j == m + m * (j - 1);
    }
  }

  lemma ReverseUniform<T>(batches: seq<seq<T>>, m: nat)
    requires Uniform(batches, m)
    ensures Uniform(Reverse(batches), m)
  {
    var rev := Reverse(batches);
    forall j | 0 <= j < |rev| ensures |rev[j]| == m {
      assert rev[j] == batches[|batches| - 1 - j];
    }
  }

  /** Where row `i` of the batch `t` places from the front lands when every
      batch has `m` rows. */
  function RowIndex(m: nat, t: nat, i: nat): nat {
    m * t + i
  }

  /** Row `i` of batch `j` of `k` sits at `m * (k - 1 - j) + i` of the
      accumulated rows. */
  lemma AccumulateAt<T>(batches: seq<seq<T>>, m: nat, j: nat, i: nat)
    requires Uniform(batches, m)
    requires j < |batches| && i < m
    ensures RowIndex(m, |batches| - 1 - j, i) < |AccumulateAll(batches)|
    ensures AccumulateAll(batches)[RowIndex(m, |batches| - 1 - j, i)] == batches[j][i]
  {
    var rev := Reverse(batches);
    var t := |batches| - 1 - j;
    ReverseUniform(batches, m);
    FlattenAt(rev, m, t, i);
    assert rev[t] == batches[j];
    AccumulateIsReversedFlatten(batches);
  }

  /** `k` batches of `m` rows give `m * k` rows, and row `i` of the batch
      `t` places from the newest sits at `m * t + i`: batches newest first,
      rows of one batch in their original order. */
  lemma AccumulatePositions<T>(batches: seq<seq<T>>, m: nat)
    requires Uniform(batches, m)
    ensures |AccumulateAll(batches)| == m * |batches|
    ensures forall t, i :: 0 <= t < |batches| && 0 <= i < m ==>
              RowIndex(m, t, i) < |AccumulateAll(batches)| &&
              AccumulateAll(batches)[RowIndex(m, t, i)] == batches[|batches| - 1 - t][i]
  {
    AccumulateIsReversedFlatten(batches);
    ReverseUniform(batches, m);
    FlattenLength(Reverse(batches), m);
    forall t, i | 0 <= t < |batches| && 0 <= i < m
      ensures RowIndex(m, t, i) < |AccumulateAll(batches)| &&
              AccumulateAll(batches)[RowIndex(m, t, i)] == batches[|batches| - 1 - t][i]
    {
      AccumulateAt(batches, m, |batches| - 1 - t, i);
    }
  }

  /** Frames A, B, C accumulated in that order give C's rows, then B's, then
      A's. */
  lemma ThreeBatches<T>(a: seq<T>, b: seq<T>, c: seq<T>)
    ensures AccumulateAll([a, b, c]) == c + b + a
  {
    assert [a][..0] == [];
    assert AccumulateAll([a]) == a;
    assert [a, b][..1] == [a];
    assert AccumulateAll([a, b]) == b + a;
    assert [a, b, c][..2] == [a, b];
  }
}
