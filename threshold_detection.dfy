/** The threshold detector's selection step: the absolute z-score of every amount, the ascending
    positions whose z-score exceeds the threshold, and each such score divided by the threshold. */
module ThresholdDetection {
  import opened Transactions

  function Sum(s: seq<real>): real
    decreases |s|
  {
    if |s| == 0 then 0.0 else Sum(s[..|s| - 1]) + s[|s| - 1]
  }

  /** numpy's `mean`. */
  function Mean(s: seq<real>): real
    requires |s| > 0
  {
    Sum(s) / (|s| as real)
  }

  /** The squared deviations of `s` from `m`. */
  function SquaredDeviations(s: seq<real>, m: real): (d: seq<real>)
    ensures |d| == |s| && forall k :: 0 <= k < |s| ==> d[k] == (s[k] - m) * (s[k] - m)
  {
    seq(|s|, k requires 0 <= k < |s| => (s[k] - m) * (s[k] - m))
  }

  /** numpy's `var` (and `std` squared): the mean squared deviation from the mean. */
  function Variance(s: seq<real>): real
    requires |s| > 0
  {
    Mean(SquaredDeviations(s, Mean(s)))
  }

  /** A sum of non-negative numbers is non-negative. */
  lemma {:induction false} SumNonNegative(s: seq<real>)
    requires forall k :: 0 <= k < |s| ==> s[k] >= 0.0
    ensures Sum(s) >= 0.0
    decreases |s|
  {
    if |s| > 0 {
      var front := s[..|s| - 1];
      assert forall k :: 0 <= k < |front| ==> front[k] == s[k];
      SumNonNegative(front);
    }
  }

  /** The variance is never negative, so it has a standard deviation. */
  lemma VarianceNonNegative(s: seq<real>)
    requires |s| > 0
    ensures Variance(s) >= 0.0
  {
    var d := SquaredDeviations(s, Mean(s));
    forall k | 0 <= k < |d|
      ensures d[k] >= 0.0
    {
      MulNonNegativeSquare(s[k] - Mean(s));
    }
    SumNonNegative(d);
    assert |d| as real > 0.0;
  }

  /** A square is never negative. */
  lemma MulNonNegativeSquare(x: real)
    ensures x * x >= 0.0
  {
    if x < 0.0 {
      assert x * x == (-x) * (-x);
      MulNonNegative(-x, -x);
    } else {
      MulNonNegative(x, x);
    }
  }

  function Abs(x: real): (r: real)
    ensures r >= 0.0 && (r == x || r == -x)
  {
    if x < 0.0 then -x else x
  }

  /** `np.abs((amounts - mean) / std)`. */
  function ZScores(amounts: seq<real>, mean: real, std: real): (z: seq<real>)
    requires std > 0.0
    ensures |z| == |amounts|
    ensures forall k :: 0 <= k < |z| ==> z[k] >= 0.0
  {
    seq(|amounts|, k requires 0 <= k < |amounts| => Abs((amounts[k] - mean) / std))
  }

  /** A z-score times the standard deviation is the amount's distance from the mean. */
  lemma ZScoreScaled(amounts: seq<real>, mean: real, std: real, k: nat)
    requires std > 0.0 && k < |amounts|
    ensures ZScores(amounts, mean, std)[k] * std == Abs(amounts[k] - mean)
  {
    var d := amounts[k] - mean;
    assert (d / std) * std == d;
    if d < 0.0 {
      assert d / std < 0.0;
    } else {
      assert d / std >= 0.0;
    }
  }

  predicate Increasing(s: seq<nat>) {
    forall p, q :: 0 <= p < q < |s| ==> s[p] < s[q]
  }

  /** `np.where(z > threshold)[0]`: the positions of the scores above the threshold, ascending. */
  function Where(z: seq<real>, threshold: real): (indices: seq<nat>)
    ensures Increasing(indices)
    ensures forall k :: 0 <= k < |indices| ==> indices[k] < |z|
    ensures forall i: int :: i in indices <==> 0 <= i < |z| && z[i] > threshold
    decreases |z|
  {
    if |z| == 0 then []
    else
      var n := |z| - 1;
      var front := Where(z[..n], threshold);
      assert forall i :: 0 <= i < n ==> z[..n][i] == z[i];
      front + (if z[n] > threshold then [n] else [])
  }

  /** What `detect` returns. */
  datatype ThresholdResult = ThresholdResult(indices: seq<nat>, scores: seq<real>, zScores: seq<real>)

  /** `z[indices] / threshold`. */
  function Scores(z: seq<real>, indices: seq<nat>, threshold: real): (scores: seq<real>)
    requires threshold != 0.0
    requires forall k :: 0 <= k < |indices| ==> indices[k] < |z|
    ensures |scores| == |indices|
  {
    seq(|indices|, k requires 0 <= k < |indices| => z[indices[k]] / threshold)
  }

  /** The standard deviation numpy would compute for `amounts`: its square is the variance.
      A constant series (zero deviation) is outside the model. */
  predicate IsStd(amounts: seq<real>, std: real) {
    |amounts| > 0 ==> std > 0.0 && std * std == Variance(amounts)
  }

  /** `ThresholdDetector.detect` on the dataset's amount series, with `std` the series'
      standard deviation. */
  function DetectAmounts(amounts: seq<real>, std: real, threshold: real): (r: ThresholdResult)
    requires IsStd(amounts, std) && threshold != 0.0
    ensures |r.zScores| == |amounts| && |r.scores| == |r.indices|
  {
    if |amounts| == 0 then ThresholdResult([], [], [])
    else
      var z := ZScores(amounts, Mean(amounts), std);
      var indices := Where(z, threshold);
      ThresholdResult(indices, Scores(z, indices, threshold), z)
  }

  /** `ThresholdDetector.detect(processed_signal, raw_data)`: the processed signal is not used. */
  function Detect(data: TransactionData, std: real, threshold: real): (r: ThresholdResult)
    reads data
    requires IsStd(data.amounts, std) && threshold != 0.0
    ensures |r.zScores| == |data.amounts|
  {
    DetectAmounts(data.amounts, std, threshold)
  }

  /** The parts of a non-empty detection result. */
  lemma DetectAmountsParts(amounts: seq<real>, std: real, threshold: real)
    requires IsStd(amounts, std) && threshold != 0.0 && |amounts| > 0
    ensures var r := DetectAmounts(amounts, std, threshold);
            && r.zScores == ZScores(amounts, Mean(amounts), std)
            && r.indices == Where(r.zScores, threshold)
            && r.scores == Scores(r.zScores, r.indices, threshold)
  {
  }

  /** Every z-score is non-negative; the indices are ascending and are exactly the positions whose
      z-score exceeds the threshold; each score is the z-score at its index over the threshold. */
  lemma DetectSelects(amounts: seq<real>, std: real, threshold: real)
    requires IsStd(amounts, std) && threshold != 0.0
    ensures var r := DetectAmounts(amounts, std, threshold);
            && (forall k :: 0 <= k < |r.zScores| ==> r.zScores[k] >= 0.0)
            && Increasing(r.indices)
            && (forall k :: 0 <= k < |r.indices| ==> r.indices[k] < |amounts|)
            && (forall i: int :: i in r.indices <==> 0 <= i < |amounts| && r.zScores[i] > threshold)
            && (forall k :: 0 <= k < |r.indices| ==> r.scores[k] == r.zScores[r.indices[k]] / threshold)
  {
    if |amounts| > 0 {
      DetectAmountsParts(amounts, std, threshold);
    }
  }

  /** With a positive threshold every reported score exceeds 1. */
  lemma ScoresAboveOne(amounts: seq<real>, std: real, threshold: real)
    requires IsStd(amounts, std) && threshold > 0.0
    ensures var r := DetectAmounts(amounts, std, threshold);
            forall k :: 0 <= k < |r.scores| ==> r.scores[k] > 1.0
  {
    var r := DetectAmounts(amounts, std, threshold);
    DetectSelects(amounts, std, threshold);
    forall k | 0 <= k < |r.scores|
      ensures r.scores[k] > 1.0
    {
      assert r.indices[k] in r.indices;
      QuotientAboveOne(r.zScores[r.indices[k]], threshold);
    }
  }

  lemma QuotientAboveOne(z: real, t: real)
    requires t > 0.0 && z > t
    ensures z / t > 1.0
  {
  }

  lemma MulNonNegative(a: real, b: real)
    requires a >= 0.0 && b >= 0.0
    ensures a * b >= 0.0
  {
  }

  lemma MulPositive(a: real, b: real)
    requires a > 0.0 && b > 0.0
    ensures a * b > 0.0
  {
  }

  /** For non-negatives, comparing squares compares the numbers. */
  lemma SquareLess(a: real, b: real)
    requires a >= 0.0 && b >= 0.0
    ensures a < b <==> a * a < b * b
  {
    if a < b {
      MulNonNegative(a, b - a);
      MulPositive(b, b - a);
      assert b * b - a * a == a * (b - a) + b * (b - a);
    } else {
      MulNonNegative(b, a - b);
      MulNonNegative(a, a - b);
      assert a * a - b * b == b * (a - b) + a * (a - b);
    }
  }

  /** A deviation `d` from the mean is beyond `t` standard deviations, with `v` the variance:
      `d² > t²·v`, the comparison that needs neither division nor square root. */
  predicate Deviates(d: real, t: real, v: real) {
    d * d > t * t * v
  }

  /** The score test without division: with `z·σ = |d|` and `σ² = v`, `z > t` exactly when
      `d² > t²·v`. */
  lemma ExceedsIffSquare(z: real, std: real, d: real, t: real, v: real)
    requires std > 0.0 && t > 0.0 && z >= 0.0
    requires z * std == Abs(d) && std * std == v
    ensures z > t <==> Deviates(d, t, v)
  {
    assert Abs(d) * Abs(d) == d * d;
    assert t * t * v == (t * std) * (t * std);
    MulPositive(t, std);
    SquareLess(t * std, Abs(d));
    if z > t {
      MulPositive(z - t, std);
    } else {
      MulNonNegative(t - z, std);
    }
  }

  /** The score test without division, for any mean and standard deviation. */
  lemma SelectedIffDeviation(amounts: seq<real>, mean: real, std: real, threshold: real, i: nat)
    requires std > 0.0 && threshold > 0.0 && i < |amounts|
    ensures i in Where(ZScores(amounts, mean, std), threshold) <==>
              Deviates(amounts[i] - mean, threshold, std * std)
  {
    var z := ZScores(amounts, mean, std);
    ZScoreScaled(amounts, mean, std, i);
    ExceedsIffSquare(z[i], std, amounts[i] - mean, threshold, std * std);
  }

  /** The comparison without division or square root: for a positive threshold, position `i`
      is reported exactly when its squared deviation from the mean exceeds `threshold²` times the
      variance. */
  lemma FlaggedIffDeviation(amounts: seq<real>, std: real, threshold: real, i: nat)
    requires IsStd(amounts, std) && threshold > 0.0
    requires i < |amounts|
    ensures i in DetectAmounts(amounts, std, threshold).indices <==>
              Deviates(amounts[i] - Mean(amounts), threshold, Variance(amounts))
  {
    DetectAmountsParts(amounts, std, threshold);
    SelectedIffDeviation(amounts, Mean(amounts), std, threshold, i);
  }

  /** With a negative threshold every position is reported. */
  lemma NegativeThresholdFlagsAll(amounts: seq<real>, std: real, threshold: real)
    requires IsStd(amounts, std) && threshold < 0.0
    ensures forall i :: 0 <= i < |amounts| ==> i in DetectAmounts(amounts, std, threshold).indices
  {
    DetectSelects(amounts, std, threshold);
  }

  /** The mean and variance of the amounts 10, 12, 11, 500. */
  lemma OutlierExampleStatistics()
    ensures Mean([10.0, 12.0, 11.0, 500.0]) == 133.25
    ensures Variance([10.0, 12.0, 11.0, 500.0]) == 44835.6875
  {
    var amounts := [10.0, 12.0, 11.0, 500.0];
    SumOfFour(10.0, 12.0, 11.0, 500.0);
    assert Mean(amounts) == 133.25;
    var sq := SquaredDeviations(amounts, 133.25);
    assert sq == [15190.5625, 14701.5625, 14945.0625, 134505.5625];
    SumOfFour(15190.5625, 14701.5625, 14945.0625, 134505.5625);
  }

  /** The amounts 10, 12, 11, 500 with threshold 2: the outlier's z-score is about 1.73, so
      nothing is reported. */
  lemma OutlierExampleNotFlagged(std: real)
    requires IsStd([10.0, 12.0, 11.0, 500.0], std)
    ensures DetectAmounts([10.0, 12.0, 11.0, 500.0], std, 2.0).indices == []
  {
    var amounts := [10.0, 12.0, 11.0, 500.0];
    OutlierExampleStatistics();
    var r := DetectAmounts(amounts, std, 2.0);
    DetectSelects(amounts, std, 2.0);
    FlaggedIffDeviation(amounts, std, 2.0, 0);
    FlaggedIffDeviation(amounts, std, 2.0, 1);
    FlaggedIffDeviation(amounts, std, 2.0, 2);
    FlaggedIffDeviation(amounts, std, 2.0, 3);
    assert !Deviates(10.0 - 133.25, 2.0, 44835.6875) && !Deviates(12.0 - 133.25, 2.0, 44835.6875);
    assert !Deviates(11.0 - 133.25, 2.0, 44835.6875) && !Deviates(500.0 - 133.25, 2.0, 44835.6875);
    assert 0 !in r.indices && 1 !in r.indices && 2 !in r.indices && 3 !in r.indices;
    DetectAmountsParts(amounts, std, 2.0);
    WhereNone(r.zScores, 2.0);
  }

  /** No score above the threshold: nothing is selected. */
  lemma {:induction false} WhereNone(z: seq<real>, threshold: real)
    requires forall i :: 0 <= i < |z| ==> z[i] <= threshold
    ensures Where(z, threshold) == []
    decreases |z|
  {
    if |z| > 0 {
      WhereNone(z[..|z| - 1], threshold);
    }
  }

  lemma SumOfFour(a: real, b: real, c: real, d: real)
    ensures Sum([a, b, c, d]) == a + b + c + d
  {
    assert [a][..0] == [];
    assert Sum([a]) == a;
    assert [a, b][..1] == [a];
    assert Sum([a, b]) == a + b;
    assert [a, b, c][..2] == [a, b];
    assert Sum([a, b, c]) == a + b + c;
    assert [a, b, c, d][..3] == [a, b, c];
  }
}

