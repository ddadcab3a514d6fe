/**
 * Originality scores (`DataSimilarity.generate_originality_score`) and the
 * way the table of contents prints them: min-max scaling of the outlier
 * factors into [0, 1], the mean score of a cluster, and the percentage
 * string `str(int(x * 100)) + "%"`.
 *
 * The outlier factors themselves (UMAP reduction followed by a Local Outlier
 * Factor fit) are an input: any sequence of reals.
 */
module Originality {
  import opened Wrappers
  import opened PyStr

  /** Python's `int(x)` on a float: truncation toward zero, not rounding. */
  function Trunc(x: real): (r: int)
    ensures 0.0 <= x ==> r >= 0 && r as real <= x < r as real + 1.0
    ensures x < 0.0 ==> r <= 0 && r as real - 1.0 < x <= r as real
  {
    if x >= 0.0 then x.Floor else -((-x).Floor)
  }

  /** `str(int(x * 100)) + "%"`, the originality string of a leaf or a heading. */
  function Percent(x: real): string {
    IntToStr(Trunc(x * 100.0)) + "%"
  }

  /** Reads an originality string back: digits followed by `%`. */
  function ParsePercent(s: string): Option<nat> {
    if |s| >= 2 && s[|s| - 1] == '%' && forall i :: 0 <= i < |s| - 1 ==> IsDigit(s[i])
    then Some(ParseNat(s[..|s| - 1]))
    else None
  }

  /**
   * A score in [0, 1] prints as a whole percentage between 0 and 100 that is
   * the truncation of `100 * x` (so 0.999 prints as "99%"), and reading the
   * string back gives that number.
   */
  lemma PercentOfScore(x: real)
    requires 0.0 <= x <= 1.0
    ensures var p := Trunc(x * 100.0);
            && 0 <= p <= 100
            && p as real <= x * 100.0 < p as real + 1.0
            && Percent(x) == NatToStr(p) + "%"
            && ParsePercent(Percent(x)) == Some(p)
  {
    var p := Trunc(x * 100.0);
    assert p <= 100 by {
      assert p as real <= x * 100.0 <= 100.0;
    }
    var s := Percent(x);
    assert s[..|s| - 1] == NatToStr(p);
    ParseNatToStr(p);
  }

  /** The extreme scores print as the extreme percentages. */
  lemma PercentExtremes()
    ensures Percent(0.0) == "0%" && Percent(1.0) == "100%"
  {
    assert Trunc(100.0) == 100;
    assert NatToStr(100) == NatToStr(10) + ['0'];
    assert NatToStr(10) == NatToStr(1) + ['0'];
  }

  function Sum(s: seq<real>): real {
    if s == [] then 0.0 else s[0] + Sum(s[1..])
  }

  /** `np.mean(xs) if xs else 0`, the originality of a heading. */
  function ClusterMean(s: seq<real>): real {
    if |s| > 0 then Sum(s) / |s| as real else 0.0
  }

  predicate AllWithin(s: seq<real>, lo: real, hi: real) {
    forall i :: 0 <= i < |s| ==> lo <= s[i] <= hi
  }

  lemma {:induction false} SumBounds(s: seq<real>, lo: real, hi: real)
    requires AllWithin(s, lo, hi)
    ensures |s| as real * lo <= Sum(s) <= |s| as real * hi
  {
    if s != [] {
      assert AllWithin(s[1..], lo, hi) by {
        forall i | 0 <= i < |s[1..]| ensures lo <= s[1..][i] <= hi {
          assert s[1..][i] == s[i + 1];
        }
      }
      SumBounds(s[1..], lo, hi);
      assert |s| as real * lo == lo + |s[1..]| as real * lo;
      assert |s| as real * hi == hi + |s[1..]| as real * hi;
    }
  }

  /** The mean of member scores lies within the members' bounds: a heading's score is in [0, 1] when its members' are. */
  lemma MeanWithin(s: seq<real>, lo: real, hi: real)
    requires |s| > 0 && AllWithin(s, lo, hi)
    ensures lo <= ClusterMean(s) <= hi
  {
    SumBounds(s, lo, hi);
    var n := |s| as real;
    DivWithinBounds(Sum(s), n, lo, hi);
  }

  lemma DivWithinBounds(a: real, d: real, lo: real, hi: real)
    requires d > 0.0 && d * lo <= a <= d * hi
    ensures lo <= a / d <= hi
  {
  }

  function Min(s: seq<real>): (m: real)
    requires |s| > 0
    ensures forall i :: 0 <= i < |s| ==> m <= s[i]
    ensures exists i :: 0 <= i < |s| && m == s[i]
  {
    if |s| == 1 then s[0]
    else
      var rest := Min(s[1..]);
      assert forall i :: 1 <= i < |s| ==> s[i] == s[1..][i - 1];
      if s[0] <= rest then s[0] else rest
  }

  function Max(s: seq<real>): (m: real)
    requires |s| > 0
    ensures forall i :: 0 <= i < |s| ==> s[i] <= m
    ensures exists i :: 0 <= i < |s| && m == s[i]
  {
    if |s| == 1 then s[0]
    else
      var rest := Max(s[1..]);
      assert forall i :: 1 <= i < |s| ==> s[i] == s[1..][i - 1];
      if s[0] >= rest then s[0] else rest
  }

  /** `(x - lo) / (hi - lo)`, with a zero range replaced by 1. */
  function ScaleValue(x: real, lo: real, hi: real): real {
    if hi > lo then (x - lo) / (hi - lo) else (x - lo) / 1.0
  }

  /**
   * One column through scikit-learn's `MinMaxScaler().fit_transform`: each
   * value is mapped to `(x - min) / (max - min)`; a constant column has its
   * range replaced by 1, so every value maps to 0. An empty column is
   * refused (`None`).
   */
  function MinMaxScale(s: seq<real>): (r: Option<seq<real>>)
    ensures r.None? <==> s == []
    ensures r.Some? ==> |r.value| == |s|
  {
    if s == [] then None
    else
      var lo, hi := Min(s), Max(s);
      Some(seq(|s|, i requires 0 <= i < |s| => ScaleValue(s[i], lo, hi)))
  }

  lemma ScaledValue(s: seq<real>, i: int)
    requires 0 <= i < |s|
    ensures MinMaxScale(s).Some?
    ensures MinMaxScale(s).value[i] == ScaleValue(s[i], Min(s), Max(s))
  {
  }

  lemma DivMonotone(a: real, b: real, d: real)
    requires d > 0.0 && a <= b
    ensures a / d <= b / d
  {
  }

  /** Scaling one value within [lo, hi]: into [0, 1], monotone, lo to 0 and hi to 1. */
  lemma ScaleValueProperties(x: real, y: real, lo: real, hi: real)
    requires lo <= x <= hi && lo <= y <= hi
    ensures 0.0 <= ScaleValue(x, lo, hi) <= 1.0
    ensures x <= y ==> ScaleValue(x, lo, hi) <= ScaleValue(y, lo, hi)
    ensures x == lo ==> ScaleValue(x, lo, hi) == 0.0
    ensures lo < hi && x == hi ==> ScaleValue(x, lo, hi) == 1.0
  {
    if lo < hi {
      DivWithinBounds(x - lo, hi - lo, 0.0, 1.0);
      if x <= y {
        DivMonotone(x - lo, y - lo, hi - lo);
      }
    }
  }

  /**
   * Min-max scaling yields one score per input, each in [0, 1], in the same
   * order as the inputs (a larger input never gets a smaller score); the
   * smallest input gets 0 and, unless all inputs are equal, the largest gets 1.
   */
  lemma {:induction false} MinMaxScaleProperties(s: seq<real>)
    requires s != []
    ensures var r := MinMaxScale(s).value;
            && |r| == |s|
            && (forall i :: 0 <= i < |s| ==> 0.0 <= r[i] <= 1.0)
            && (forall i, j :: 0 <= i < |s| && 0 <= j < |s| && s[i] <= s[j] ==> r[i] <= r[j])
            && (forall i :: 0 <= i < |s| && s[i] == Min(s) ==> r[i] == 0.0)
            && (Min(s) < Max(s) ==> forall i :: 0 <= i < |s| && s[i] == Max(s) ==> r[i] == 1.0)
  {
    var r := MinMaxScale(s).value;
    var lo, hi := Min(s), Max(s);
    forall i, j | 0 <= i < |s| && 0 <= j < |s|
      ensures 0.0 <= r[i] <= 1.0
      ensures s[i] <= s[j] ==> r[i] <= r[j]
      ensures s[i] == lo ==> r[i] == 0.0
      ensures lo < hi && s[i] == hi ==> r[i] == 1.0
    {
      ScaledValue(s, i);
      ScaledValue(s, j);
      ScaleValueProperties(s[i], s[j], lo, hi);
    }
  }

  /**
   * `generate_originality_score` after the outlier fit: the scores are the
   * scaled negations of the fitted `negative_outlier_factor_` values.
   */
  function OriginalityScores(negativeOutlierFactor: seq<real>): Option<seq<real>> {
    MinMaxScale(seq(|negativeOutlierFactor|, i requires 0 <= i < |negativeOutlierFactor| => -negativeOutlierFactor[i]))
  }

  /**
   * Every document gets a score in [0, 1], and a more isolated document
   * (a lower negative outlier factor) never gets a lower score.
   */
  lemma OriginalityScoresProperties(nof: seq<real>)
    requires nof != []
    ensures OriginalityScores(nof).Some?
    ensures var r := OriginalityScores(nof).value;
            && |r| == |nof|
            && (forall i :: 0 <= i < |nof| ==> 0.0 <= r[i] <= 1.0)
            && (forall i, j :: 0 <= i < |nof| && 0 <= j < |nof| && nof[i] <= nof[j] ==> r[j] <= r[i])
  {
    var density := seq(|nof|, i requires 0 <= i < |nof| => -nof[i]);
    MinMaxScaleProperties(density);
    var r := OriginalityScores(nof).value;
    forall i, j | 0 <= i < |nof| && 0 <= j < |nof| && nof[i] <= nof[j] ensures r[j] <= r[i] {
      assert density[j] <= density[i];
    }
  }
}
