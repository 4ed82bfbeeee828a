/**
 * The batch loop of `main`: the cleaned domain list is cut into consecutive
 * slices of at most `BatchSize` domains, which are handed on in input order.
 */
module Batching {

  /** `batch_size` in `main`. */
  const BatchSize: nat := 5

  /** Python's slice `s[lo:hi]` for `0 <= lo <= hi`: an end past the last element is cut back to it. */
  function Slice<T>(s: seq<T>, lo: nat, hi: nat): (r: seq<T>)
    requires lo <= hi && lo <= |s|
    ensures |r| == (if hi <= |s| then hi else |s|) - lo
    ensures forall m :: 0 <= m < |r| ==> r[m] == s[lo + m]
  {
    if hi <= |s| then s[lo..hi] else s[lo..]
  }

  /** The batches joined back together, in order. */
  function Flatten<T>(batches: seq<seq<T>>): seq<T> {
    if batches == [] then [] else Flatten(batches[..|batches| - 1]) + batches[|batches| - 1]
  }

  /** Adding a batch at the end adds its domains at the end. */
  lemma FlattenSnoc<T>(batches: seq<seq<T>>, b: seq<T>)
    ensures Flatten(batches + [b]) == Flatten(batches) + b
  {
    assert (batches + [b])[..|batches|] == batches;
  }

  /**
   * `for i in range(0, len(domains), batch_size): batch = domains[i:i + batch_size]`.
   * The batches concatenate back to `domains`; each holds one to five
   * domains; all but the last hold exactly five; there are ceil(n / 5) of
   * them; and batch `k` is the slice that starts at domain `5 * k`.
   */
  method Batches<T>(domains: seq<T>) returns (batches: seq<seq<T>>)
    ensures Flatten(batches) == domains
    ensures |batches| == (|domains| + BatchSize - 1) / BatchSize
    ensures forall k :: 0 <= k < |batches| ==> 1 <= |batches[k]| <= BatchSize
    ensures forall k :: 0 <= k < |batches| - 1 ==> |batches[k]| == BatchSize
    ensures forall k :: 0 <= k < |batches| ==> batches[k] == Slice(domains, k * BatchSize, k * BatchSize + BatchSize)
  {
    batches := [];
    var i := 0;
    while i < |domains|
      invariant Cut(domains, batches, i)
    {
      CutStep(domains, batches, i);
      batches := batches + [Slice(domains, i, i + BatchSize)];
      i := i + BatchSize;
    }
    CutComplete(domains, batches, i);
  }

  /**
   * The loop state of `Batches`: `batches` are the slices of five that start
   * at 0, 5, ..., `i - 5`, and together they are the domains before `i`.
   */
  ghost predicate Cut<T>(domains: seq<T>, batches: seq<seq<T>>, i: nat) {
    && i == |batches| * BatchSize
    && (i <= |domains| || |domains| < i < |domains| + BatchSize)
    && Flatten(batches) == (if i <= |domains| then domains[..i] else domains)
    && forall k :: 0 <= k < |batches| ==> batches[k] == Slice(domains, k * BatchSize, k * BatchSize + BatchSize)
  }

  /** One more slice keeps the loop state. */
  lemma CutStep<T>(domains: seq<T>, batches: seq<seq<T>>, i: nat)
    requires Cut(domains, batches, i) && i < |domains|
    ensures Cut(domains, batches + [Slice(domains, i, i + BatchSize)], i + BatchSize)
  {
    var next := batches + [Slice(domains, i, i + BatchSize)];
    assert |next| == |batches| + 1;
    CutStepFlatten(domains, batches, i);
    CutStepSlices(domains, batches, i);
  }

  /** The joined batches grow by the new slice. */
  lemma CutStepFlatten<T>(domains: seq<T>, batches: seq<seq<T>>, i: nat)
    requires i < |domains| && Flatten(batches) == domains[..i]
    ensures
      var next := batches + [Slice(domains, i, i + BatchSize)];
      Flatten(next) == if i + BatchSize <= |domains| then domains[..i + BatchSize] else domains
  {
    var batch := Slice(domains, i, i + BatchSize);
    FlattenSnoc(batches, batch);
    if i + BatchSize <= |domains| {
      assert domains[..i + BatchSize] == domains[..i] + batch;
    } else {
      assert domains == domains[..i] + batch;
    }
  }

  /** The new slice is the one that starts at `i`. */
  lemma CutStepSlices<T>(domains: seq<T>, batches: seq<seq<T>>, i: nat)
    requires i == |batches| * BatchSize && i < |domains|
    requires forall k :: 0 <= k < |batches| ==> batches[k] == Slice(domains, k * BatchSize, k * BatchSize + BatchSize)
    ensures
      var next := batches + [Slice(domains, i, i + BatchSize)];
      forall k :: 0 <= k < |next| ==> next[k] == Slice(domains, k * BatchSize, k * BatchSize + BatchSize)
  {
    var next := batches + [Slice(domains, i, i + BatchSize)];
    forall k | 0 <= k < |next|
      ensures next[k] == Slice(domains, k * BatchSize, k * BatchSize + BatchSize)
    {
      if k < |batches| {
        assert next[k] == batches[k];
      }
    }
  }

  /** When the loop stops, the slices have the promised count and sizes. */
  lemma CutComplete<T>(domains: seq<T>, batches: seq<seq<T>>, i: nat)
    requires Cut(domains, batches, i) && i >= |domains|
    ensures Flatten(batches) == domains
    ensures |batches| == (|domains| + BatchSize - 1) / BatchSize
    ensures forall k :: 0 <= k < |batches| ==> 1 <= |batches[k]| <= BatchSize
    ensures forall k :: 0 <= k < |batches| - 1 ==> |batches[k]| == BatchSize
    ensures forall k :: 0 <= k < |batches| ==> batches[k] == Slice(domains, k * BatchSize, k * BatchSize + BatchSize)
  {
    forall k | 0 <= k < |batches|
      ensures 1 <= |batches[k]| <= BatchSize
      ensures k < |batches| - 1 ==> |batches[k]| == BatchSize
    {
      SliceLength(domains, k, |batches|);
    }
  }

  /** The `k`-th of `count` slices of five covering `domains` holds one to five domains, five unless it is the last. */
  lemma SliceLength<T>(domains: seq<T>, k: nat, count: nat)
    requires k < count && (count - 1) * BatchSize < |domains| <= count * BatchSize
    ensures 1 <= |Slice(domains, k * BatchSize, k * BatchSize + BatchSize)| <= BatchSize
    ensures k < count - 1 ==> |Slice(domains, k * BatchSize, k * BatchSize + BatchSize)| == BatchSize
  {
  }
}
