/** The impact score: every feature column divided by `max(1.0, max F)`, then
    combined in a weighted sum that includes equity only when it was
    validated. */
module Scoring {

  /** The five slider weights. */
  datatype Weights = Weights(comp: real, tenure: real, level: real, reports: real, equity: real)

  /** The feature columns of the roster, one entry per row. */
  datatype FeatureColumns = FeatureColumns(comp: seq<real>, tenure: seq<real>, level: seq<real>,
                               reports: seq<real>, equity: seq<real>)

  predicate WellShaped(f: FeatureColumns)
  {
    |f.tenure| == |f.comp| && |f.level| == |f.comp| && |f.reports| == |f.comp| && |f.equity| == |f.comp|
  }

  /** The largest entry of a non-empty column. */
  function MaxOf(xs: seq<real>): (m: real)
    requires |xs| > 0
    ensures forall k :: 0 <= k < |xs| ==> xs[k] <= m
    ensures exists k :: 0 <= k < |xs| && xs[k] == m
  {
    if |xs| == 1 then xs[0]
    else
      var rest := MaxOf(xs[1..]);
      assert forall k :: 1 <= k < |xs| ==> xs[k] == xs[1..][k - 1];
      if xs[0] >= rest then xs[0] else rest
  }

  /** `max(1.0, F.max())`. On an empty column `F.max()` is not a number and
      Python's `max` keeps its first argument, 1.0. The result is the least
      number that is at least 1 and bounds the column. */
  function Denominator(xs: seq<real>): (d: real)
    ensures d >= 1.0
    ensures forall k :: 0 <= k < |xs| ==> xs[k] <= d
    ensures d == 1.0 || exists k :: 0 <= k < |xs| && xs[k] == d
  {
    if |xs| == 0 then 1.0
    else
      var m := MaxOf(xs);
      if 1.0 >= m then 1.0 else m
  }

  /** `F / max(1.0, F.max())`. */
  function Normalize(xs: seq<real>): (r: seq<real>)
    ensures |r| == |xs|
    ensures forall k :: 0 <= k < |xs| ==> r[k] * Denominator(xs) == xs[k]
  {
    var d := Denominator(xs);
    seq(|xs|, k requires 0 <= k < |xs| => xs[k] / d)
  }

  /** A non-negative column normalises into [0, 1]. */
  lemma NormalizeUnit(xs: seq<real>)
    requires forall k :: 0 <= k < |xs| ==> xs[k] >= 0.0
    ensures forall k :: 0 <= k < |xs| ==> 0.0 <= Normalize(xs)[k] <= 1.0
  {
    var d := Denominator(xs);
    forall k | 0 <= k < |xs| ensures 0.0 <= Normalize(xs)[k] <= 1.0 {
      DivideBelowOne(xs[k], d);
    }
  }

  lemma DivideBelowOne(x: real, d: real)
    requires 0.0 <= x <= d && d >= 1.0
    ensures 0.0 <= x / d <= 1.0
  {
  }

  /** A column that is zero everywhere normalises to zero everywhere. */
  lemma NormalizeZero(xs: seq<real>)
    requires forall k :: 0 <= k < |xs| ==> xs[k] == 0.0
    ensures forall k :: 0 <= k < |xs| ==> Normalize(xs)[k] == 0.0
  {
  }

  /** Normalisation keeps the order of the entries. */
  lemma NormalizeMonotone(xs: seq<real>, i: nat, j: nat)
    requires i < |xs| && j < |xs| && xs[i] <= xs[j]
    ensures Normalize(xs)[i] <= Normalize(xs)[j]
  {
    var d := Denominator(xs);
    DivideMonotone(xs[i], xs[j], d);
  }

  lemma DivideMonotone(x: real, y: real, d: real)
    requires x <= y && d > 0.0
    ensures x / d <= y / d
  {
    assert x / d * d == x && y / d * d == y;
  }

  /** A column whose largest entry is at least 1 normalises its largest entry
      to exactly 1. */
  lemma NormalizeReachesOne(xs: seq<real>)
    requires |xs| > 0 && MaxOf(xs) >= 1.0
    ensures exists k :: 0 <= k < |xs| && Normalize(xs)[k] == 1.0
  {
    var d := Denominator(xs);
    assert d == MaxOf(xs);
    var k :| 0 <= k < |xs| && xs[k] == d;
    DivideSelf(d);
    assert Normalize(xs)[k] == xs[k] / d;
  }

  lemma DivideSelf(d: real)
    requires d != 0.0
    ensures d / d == 1.0
  {
  }

  /** The impact score of row `k` from the normalised columns. */
  function ImpactAt(w: Weights, includeEquity: bool, n: FeatureColumns, k: nat): (s: real)
    requires WellShaped(n) && k < |n.comp|
  {
    var core := w.comp * n.comp[k] + w.tenure * n.tenure[k] + w.level * n.level[k] + w.reports * n.reports[k];
    if includeEquity then core + w.equity * n.equity[k] else core
  }

  /** Every column normalised. */
  function NormalizedFeatures(f: FeatureColumns): (n: FeatureColumns)
    requires WellShaped(f)
    ensures WellShaped(n) && |n.comp| == |f.comp|
  {
    FeatureColumns(Normalize(f.comp), Normalize(f.tenure), Normalize(f.level), Normalize(f.reports), Normalize(f.equity))
  }

  /** The `impact_score` column. */
  function Impact(w: Weights, includeEquity: bool, f: FeatureColumns): (r: seq<real>)
    requires WellShaped(f)
    ensures |r| == |f.comp|
  {
    var n := NormalizedFeatures(f);
    seq(|f.comp|, k requires 0 <= k < |f.comp| => ImpactAt(w, includeEquity, n, k))
  }

  /** Without validated equity the score ignores both the equity weight and
      the equity column. */
  lemma ImpactIgnoresEquity(w: Weights, w': Weights, f: FeatureColumns, f': FeatureColumns)
    requires WellShaped(f) && WellShaped(f')
    requires w'.(equity := w.equity) == w
    requires f'.(equity := f.equity) == f
    ensures Impact(w, false, f) == Impact(w', false, f')
  {
    assert f.comp == f'.comp && f.tenure == f'.tenure && f.level == f'.level && f.reports == f'.reports;
    var n, n' := NormalizedFeatures(f), NormalizedFeatures(f');
    assert n.comp == n'.comp && n.tenure == n'.tenure && n.level == n'.level && n.reports == n'.reports;
    forall k | 0 <= k < |f.comp| ensures Impact(w, false, f)[k] == Impact(w', false, f')[k] {
      ImpactAtIgnoresEquity(w, w', n, n', k);
    }
  }

  lemma ImpactAtIgnoresEquity(w: Weights, w': Weights, n: FeatureColumns, n': FeatureColumns, k: nat)
    requires WellShaped(n) && WellShaped(n') && k < |n.comp| && |n'.comp| == |n.comp|
    requires w.comp == w'.comp && w.tenure == w'.tenure && w.level == w'.level && w.reports == w'.reports
    requires n.comp[k] == n'.comp[k] && n.tenure[k] == n'.tenure[k] && n.level[k] == n'.level[k]
    requires n.reports[k] == n'.reports[k]
    ensures ImpactAt(w, false, n, k) == ImpactAt(w', false, n', k)
  {
  }

  /** With non-negative weights and features each score lies between 0 and
      the sum of the weights in use. */
  lemma ImpactBounds(w: Weights, includeEquity: bool, f: FeatureColumns, k: nat)
    requires WellShaped(f) && k < |f.comp|
    requires w.comp >= 0.0 && w.tenure >= 0.0 && w.level >= 0.0 && w.reports >= 0.0 && w.equity >= 0.0
    requires forall j :: 0 <= j < |f.comp| ==>
      f.comp[j] >= 0.0 && f.tenure[j] >= 0.0 && f.level[j] >= 0.0 && f.reports[j] >= 0.0 && f.equity[j] >= 0.0
    ensures 0.0 <= Impact(w, includeEquity, f)[k]
    ensures Impact(w, includeEquity, f)[k] <=
      w.comp + w.tenure + w.level + w.reports + (if includeEquity then w.equity else 0.0)
  {
    NormalizeUnit(f.comp);
    NormalizeUnit(f.tenure);
    NormalizeUnit(f.level);
    NormalizeUnit(f.reports);
    NormalizeUnit(f.equity);
    ImpactAtBounds(w, includeEquity, NormalizedFeatures(f), k);
  }

  lemma ImpactAtBounds(w: Weights, includeEquity: bool, n: FeatureColumns, k: nat)
    requires WellShaped(n) && k < |n.comp|
    requires w.comp >= 0.0 && w.tenure >= 0.0 && w.level >= 0.0 && w.reports >= 0.0 && w.equity >= 0.0
    requires 0.0 <= n.comp[k] <= 1.0 && 0.0 <= n.tenure[k] <= 1.0 && 0.0 <= n.level[k] <= 1.0
    requires 0.0 <= n.reports[k] <= 1.0 && 0.0 <= n.equity[k] <= 1.0
    ensures 0.0 <= ImpactAt(w, includeEquity, n, k)
    ensures ImpactAt(w, includeEquity, n, k) <=
      w.comp + w.tenure + w.level + w.reports + (if includeEquity then w.equity else 0.0)
  {
    assert ImpactAt(w, includeEquity, n, k) ==
      Weighted(w.comp, n.comp[k]) + Weighted(w.tenure, n.tenure[k]) + Weighted(w.level, n.level[k])
      + Weighted(w.reports, n.reports[k]) + (if includeEquity then Weighted(w.equity, n.equity[k]) else 0.0);
  }

  /** One weighted term, with its bounds. */
  function Weighted(w: real, x: real): (p: real)
    requires w >= 0.0 && 0.0 <= x <= 1.0
    ensures 0.0 <= p <= w
  {
    WeightedUnit(w, x);
    w * x
  }

  lemma WeightedUnit(w: real, x: real)
    requires w >= 0.0 && 0.0 <= x <= 1.0
    ensures 0.0 <= w * x <= w
  {
  }
}
