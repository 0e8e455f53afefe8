/** The cross-validation of `train`: the folds scikit-learn's `TimeSeriesSplit` cuts, and
    one train and one test mean absolute error per fold, averaged once the folds are done.
    The errors themselves come from the fitted model, so each fold is given as its pair of
    errors. */
module CrossValidation {

  import opened Base

  /** One fold of a time-series split: the model trains on rows `[0, trainEnd)` and is
      tested on rows `[testStart, testEnd)`. */
  datatype Split = Split(trainEnd: nat, testStart: nat, testEnd: nat)

  predicate Tests(f: Split, i: nat)
  {
    f.testStart <= i < f.testEnd
  }

  /** `splits` test blocks of `size` rows fit in `samples` rows with at least `size` rows
      left in front of them. */
  lemma BlocksFit(samples: nat, splits: nat, size: nat)
    requires size == samples / (splits + 1)
    ensures splits * size + size <= samples
  {
    assert (splits + 1) * size <= samples;
  }

  lemma BlockOffsets(first: nat, size: nat, k: nat, j: nat)
    requires k < j
    ensures first + (k + 1) * size <= first + j * size
  {
    assert (k + 1) * size <= j * size;
  }

  /** `TimeSeriesSplit(n_splits=splits).split` over `samples` rows, with no gap, the default
      test size and no cap on the training size. The splitter refuses fewer than two splits
      when it is built, and more folds (`splits + 1`) than rows when it splits. Otherwise
      each test block has `samples / (splits + 1)` rows, the blocks follow one another up
      to the last row, and each fold trains on every row before its own block. */
  function TimeSeriesSplit(samples: nat, splits: nat): (r: Result<seq<Split>>)
    ensures r.Ok? <==> 2 <= splits && splits + 1 <= samples
    ensures r.Err? ==> r.error == if splits < 2 then InvalidSplits else TooFewSamples
    ensures r.Ok? ==> |r.value| == splits
    ensures r.Ok? ==> var size := samples / (splits + 1);
            size >= 1 && r.value[0].testStart >= size &&
            r.value[splits - 1].testEnd == samples &&
            forall k :: 0 <= k < splits ==>
              r.value[k].trainEnd == r.value[k].testStart &&
              r.value[k].testStart == r.value[0].testStart + k * size &&
              r.value[k].testEnd == r.value[k].testStart + size
  {
    if splits < 2 then Err(InvalidSplits)
    else if splits + 1 > samples then Err(TooFewSamples)
    else
      var size := samples / (splits + 1);
      BlocksFit(samples, splits, size);
      var first := samples - splits * size;
      var folds := seq(splits, k requires 0 <= k < splits =>
        Split(first + k * size, first + k * size, first + k * size + size));
      assert folds[splits - 1].testEnd == first + splits * size;
      Ok(folds)
  }

  lemma MulMonotone(a: nat, b: nat, c: nat)
    requires a <= b
    ensures a * c <= b * c
  {
  }

  /** Offset `d` lies in block `d / size` of blocks of `size` rows. */
  lemma BlockOf(d: nat, size: nat, splits: nat)
    requires size >= 1 && d < splits * size
    ensures var k := d / size; k < splits && k * size <= d < k * size + size
  {
    var k := d / size;
    assert d == k * size + d % size;
    if k >= splits {
      MulMonotone(splits, k, size);
    }
  }

  /** Fold `k` of a successful split, in terms of the first test row and the block size. */
  lemma FoldAt(samples: nat, splits: nat, k: nat)
    requires TimeSeriesSplit(samples, splits).Ok? && k < splits
    ensures var folds := TimeSeriesSplit(samples, splits).value;
            var size := samples / (splits + 1);
            folds[k].trainEnd == folds[k].testStart == folds[0].testStart + k * size &&
            folds[k].testEnd == folds[0].testStart + k * size + size
  {
  }

  /** The test blocks end at the last row: `samples == first + splits * size`. */
  lemma TestsEndAtLast(samples: nat, splits: nat)
    requires TimeSeriesSplit(samples, splits).Ok?
    ensures samples == TimeSeriesSplit(samples, splits).value[0].testStart + splits * (samples / (splits + 1))
  {
    var size := samples / (splits + 1);
    FoldAt(samples, splits, splits - 1);
    assert (splits - 1) * size + size == splits * size;
  }

  /** The test blocks cover the rows from the first test row on: row `i` is tested in the
      fold `(i - first) / size`, which trains only on rows before `i`. */
  lemma TestBlocksPartition(samples: nat, splits: nat, i: nat)
    requires TimeSeriesSplit(samples, splits).Ok?
    requires TimeSeriesSplit(samples, splits).value[0].testStart <= i < samples
    ensures var folds := TimeSeriesSplit(samples, splits).value;
            var k := (i - folds[0].testStart) / (samples / (splits + 1));
            k < |folds| && Tests(folds[k], i) && folds[k].trainEnd <= i
  {
    var first := TimeSeriesSplit(samples, splits).value[0].testStart;
    var size := samples / (splits + 1);
    TestsEndAtLast(samples, splits);
    BlockOf(i - first, size, splits);
    FoldAt(samples, splits, (i - first) / size);
  }

  /** No row is tested in two folds. */
  lemma TestBlocksDisjoint(samples: nat, splits: nat, a: nat, b: nat, i: nat)
    requires TimeSeriesSplit(samples, splits).Ok?
    requires a < splits && b < splits
    requires Tests(TimeSeriesSplit(samples, splits).value[a], i)
    requires Tests(TimeSeriesSplit(samples, splits).value[b], i)
    ensures a == b
  {
    var folds := TimeSeriesSplit(samples, splits).value;
    var size := samples / (splits + 1);
    var first := folds[0].testStart;
    assert folds[a].testStart == first + a * size && folds[b].testStart == first + b * size;
    if a < b {
      BlockOffsets(first, size, a, b);
    } else if b < a {
      BlockOffsets(first, size, b, a);
    }
  }

  datatype Fold = Fold(maeTrain: real, maeTest: real)

  function Sum(xs: seq<real>): real
  {
    if |xs| == 0 then 0.0 else Sum(xs[..|xs| - 1]) + xs[|xs| - 1]
  }

  function Mean(xs: seq<real>): real
    requires |xs| > 0
  {
    Sum(xs) / |xs| as real
  }

  /** The smallest element. */
  function Min(xs: seq<real>): (m: real)
    requires |xs| > 0
    ensures m in xs && forall k :: 0 <= k < |xs| ==> m <= xs[k]
  {
    if |xs| == 1 then xs[0]
    else
      var rest := Min(xs[..|xs| - 1]);
      assert forall k :: 0 <= k < |xs| - 1 ==> xs[..|xs| - 1][k] == xs[k];
      if xs[|xs| - 1] < rest then xs[|xs| - 1] else rest
  }

  /** The largest element. */
  function Max(xs: seq<real>): (m: real)
    requires |xs| > 0
    ensures m in xs && forall k :: 0 <= k < |xs| ==> xs[k] <= m
  {
    if |xs| == 1 then xs[0]
    else
      var rest := Max(xs[..|xs| - 1]);
      assert forall k :: 0 <= k < |xs| - 1 ==> xs[..|xs| - 1][k] == xs[k];
      if xs[|xs| - 1] > rest then xs[|xs| - 1] else rest
  }

  /** The loop of `train` appends each fold's errors to the two histories; the averages
      are `sum(history) / len(history)`, which divides by zero when there are no folds. */
  method FoldAverages(folds: seq<Fold>) returns (trainHist: seq<real>, testHist: seq<real>, r: Result<(real, real)>)
    ensures |trainHist| == |folds| && |testHist| == |folds|
    ensures forall k :: 0 <= k < |folds| ==> trainHist[k] == folds[k].maeTrain && testHist[k] == folds[k].maeTest
    ensures r.Err? <==> |folds| == 0
    ensures r.Err? ==> r.error == ZeroDivision
    ensures r.Ok? ==> r.value == (Mean(trainHist), Mean(testHist))
  {
    trainHist := [];
    testHist := [];
    var k := 0;
    while k < |folds|
      invariant k <= |folds| && |trainHist| == k && |testHist| == k
      invariant forall j :: 0 <= j < k ==> trainHist[j] == folds[j].maeTrain && testHist[j] == folds[j].maeTest
    {
      trainHist := trainHist + [folds[k].maeTrain];
      testHist := testHist + [folds[k].maeTest];
      k := k + 1;
    }
    if |trainHist| == 0 {
      r := Err(ZeroDivision);
    } else {
      r := Ok((Sum(trainHist) / |trainHist| as real, Sum(testHist) / |testHist| as real));
    }
  }

  /** Elements between `lo` and `hi` add up to between `n * lo` and `n * hi`. */
  lemma {:induction false} SumBounds(xs: seq<real>, lo: real, hi: real)
    requires forall k :: 0 <= k < |xs| ==> lo <= xs[k] <= hi
    ensures |xs| as real * lo <= Sum(xs) <= |xs| as real * hi
  {
    if |xs| > 0 {
      var init := xs[..|xs| - 1];
      assert forall k :: 0 <= k < |init| ==> init[k] == xs[k];
      SumBounds(init, lo, hi);
    }
  }

  /** Each average lies between the smallest and the largest fold value. */
  lemma MeanBetween(xs: seq<real>)
    requires |xs| > 0
    ensures Min(xs) <= Mean(xs) <= Max(xs)
  {
    MeanBounds(xs, Min(xs), Max(xs));
  }

  /** Elements between `lo` and `hi` average to between `lo` and `hi`. */
  lemma MeanBounds(xs: seq<real>, lo: real, hi: real)
    requires |xs| > 0 && forall k :: 0 <= k < |xs| ==> lo <= xs[k] <= hi
    ensures lo <= Mean(xs) <= hi
  {
    SumBounds(xs, lo, hi);
    DivideBounds(Sum(xs), |xs| as real, lo, hi);
  }

  lemma DivideBounds(s: real, n: real, lo: real, hi: real)
    requires n > 0.0 && n * lo <= s <= n * hi
    ensures lo <= s / n <= hi
  {
    assert s / n * n == s;
  }

  /** The averages `train` returns lie within the range of the fold errors. */
  lemma FoldAveragesBetween(folds: seq<Fold>, trainHist: seq<real>, testHist: seq<real>)
    requires |folds| > 0 && |trainHist| == |folds| && |testHist| == |folds|
    ensures Min(trainHist) <= Mean(trainHist) <= Max(trainHist)
    ensures Min(testHist) <= Mean(testHist) <= Max(testHist)
  {
    MeanBetween(trainHist);
    MeanBetween(testHist);
  }
}
