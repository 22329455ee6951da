/** The utility metrics both mechanism files compute by comparing the true
    table with the released one (types A to E), and the dispatcher that
    picks one by the query's metric tag. */
module Metrics {
  import opened Numerics
  import opened Tables
  import opened DpConfig
  import opened PostProcessing

  /** The dictionaries the metric functions return, one variant per tag,
      before `round`. */
  datatype MetricRecord =
    | MetricA(iouTopSet: real, lInfZscore: Score, topSetSizeTrue: nat, topSetSizeDp: nat)
    | MetricB(tvd: real, maePct: Score)
    | MetricC(kendallTau: Score, topKAcc: real, topK: nat)
    | MetricD(top1Accuracy: Score)
    | MetricE(meanKlDiv: Score, maxKlDiv: Score)
    | UnknownMetric(metricType: string, error: string)

  function Abs(x: real): real {
    if x < 0.0 then -x else x
  }

  function Min(a: nat, b: nat): nat {
    if a <= b then a else b
  }

  /** `np.abs(a[:n] - b[:n])`. */
  function AbsDiffs(a: seq<real>, b: seq<real>, n: nat): (d: seq<real>)
    requires n <= |a| && n <= |b|
    ensures |d| == n && NonNegative(d)
  {
    seq(n, i requires 0 <= i < n => Abs(a[i] - b[i]))
  }

  // ----- Type A: z-score top sets -----

  /** `nunique() > 1`. */
  predicate HasSpread(xs: seq<real>) {
    exists i, j :: 0 <= i < |xs| && 0 <= j < |xs| && xs[i] != xs[j]
  }

  /** Squared deviations from the mean. */
  function Deviations(xs: seq<real>): (d: seq<real>)
    requires |xs| > 0
    ensures |d| == |xs|
  {
    seq(|xs|, i requires 0 <= i < |xs| => Square(xs[i] - Mean(xs)))
  }


  /** The population variance `scipy.stats.zscore` divides by (ddof = 0). */
  function Variance(xs: seq<real>): real
    requires |xs| > 0
  {
    Sum(Deviations(xs)) / |xs| as real
  }

  /** `scipy.stats.zscore` on a column with at least two distinct values,
      and the all-zero vector otherwise. */
  function ZScores(xs: seq<real>, lib: Library): (z: seq<real>)
    requires Sound(lib)
    ensures |z| == |xs|
    ensures !HasSpread(xs) ==> forall i :: 0 <= i < |z| ==> z[i] == 0.0
  {
    if HasSpread(xs) then
      VariancePositive(xs);
      SqrtPositive(lib, Variance(xs));
      var sd := lib.sqrt(Variance(xs));
      seq(|xs|, i requires 0 <= i < |xs| => (xs[i] - Mean(xs)) / sd)
    else seq(|xs|, i => 0.0)
  }

  /** `set(np.where(z > 0)[0])`. */
  function TopSet(z: seq<real>): set<nat> {
    set i: nat | i < |z| && z[i] > 0.0
  }

  /** The rows flagged as above normal: with at least two distinct values,
      those above the mean; otherwise none. */
  function Flagged(xs: seq<real>): set<nat> {
    if HasSpread(xs) then set i: nat | i < |xs| && xs[i] > Mean(xs) else {}
  }

  /** Intersection over union, 1.0 when both sets are empty. */
  function IoU(a: set<nat>, b: set<nat>): real {
    if |a + b| > 0 then |a * b| as real / |a + b| as real else 1.0
  }

  /** `l_inf_zscore`: the largest z-score difference, NaN when the lengths
      differ. */
  function LInf(zt: seq<real>, zd: seq<real>): (r: Score)
    requires |zt| == |zd| ==> |zt| > 0
    ensures r.NaN? <==> |zt| != |zd|
    ensures r.Val? ==> r.v >= 0.0
  {
    if |zt| == |zd| then
      var d := AbsDiffs(zt, zd, |zt|);
      assert d[0] >= 0.0;
      Val(Max(d))
    else NaN
  }

  /** `compute_metric_A` on the two value columns. Both empty makes
      `np.max` fail, so one of them must have a row. */
  function MetricAOf(xs: seq<real>, ys: seq<real>, lib: Library): (r: MetricRecord)
    requires Sound(lib) && (|xs| > 0 || |ys| > 0)
    ensures r.MetricA?
    ensures 0.0 <= r.iouTopSet <= 1.0
    ensures r.iouTopSet == 1.0 <==> Flagged(xs) == Flagged(ys)
    ensures r.lInfZscore.NaN? <==> |xs| != |ys|
    ensures r.topSetSizeTrue == |Flagged(xs)| && r.topSetSizeDp == |Flagged(ys)|
  {
    var zt, zd := ZScores(xs, lib), ZScores(ys, lib);
    var tt, td := TopSet(zt), TopSet(zd);
    TopSetOfZScores(xs, lib);
    TopSetOfZScores(ys, lib);
    IoUBounds(tt, td);
    MetricA(IoU(tt, td), LInf(zt, zd), |tt|, |td|)
  }

  /** A column with two distinct values has positive variance. */
  lemma VariancePositive(xs: seq<real>)
    requires HasSpread(xs)
    ensures |xs| > 0 && Variance(xs) > 0.0
  {
    var i, j :| 0 <= i < |xs| && 0 <= j < |xs| && xs[i] != xs[j];
    var m := Mean(xs);
    var k := if xs[i] != m then i else j;
    assert xs[k] != m;
    var d := Deviations(xs);
    forall l | 0 <= l < |xs| ensures d[l] >= 0.0 {
      SquareNonNegative(xs[l] - Mean(xs));
    }
    DeviationPositive(xs, k);
    SumAtLeastElement(d, k);
    QuotientPositive(Sum(d), |xs| as real);
  }

  lemma DeviationPositive(xs: seq<real>, k: nat)
    requires k < |xs| && xs[k] != Mean(xs)
    ensures Deviations(xs)[k] > 0.0
  {
    SquarePositive(xs[k] - Mean(xs));
  }

  lemma QuotientPositive(a: real, b: real)
    requires b > 0.0
    ensures a / b > 0.0 <==> a > 0.0
  {
    if a > 0.0 {
      assert a / b * b == a;
    } else {
      assert a / b * b == a;
    }
  }

  /** Without a square root: the z-score top set is the set of rows above
      the mean when the column has two distinct values, and empty for a
      constant column (whose z-scores are all zero). */
  lemma TopSetOfZScores(xs: seq<real>, lib: Library)
    requires Sound(lib)
    ensures TopSet(ZScores(xs, lib)) == Flagged(xs)
  {
    var z := ZScores(xs, lib);
    if HasSpread(xs) {
      VariancePositive(xs);
      SqrtPositive(lib, Variance(xs));
      var sd := lib.sqrt(Variance(xs));
      forall i: nat | i < |xs| ensures z[i] > 0.0 <==> xs[i] > Mean(xs) {
        QuotientPositive(xs[i] - Mean(xs), sd);
      }
    }
  }

  /** IoU lies in [0, 1] and is 1 exactly when the two sets agree. */
  lemma IoUBounds(a: set<nat>, b: set<nat>)
    ensures 0.0 <= IoU(a, b) <= 1.0
    ensures IoU(a, b) == 1.0 <==> a == b
  {
    var i, u := a * b, a + b;
    assert u == (a - b) + (b - a) + i;
    assert |u| == |a - b| + |b - a| + |i| by {
      assert (a - b) * (b - a) == {};
      assert ((a - b) + (b - a)) * i == {};
    }
    if |u| > 0 {
      RatioAtMostOne(|i|, |u|);
      if a != b {
        if exists x :: x in a && x !in b {
          var x :| x in a && x !in b;
          assert x in a - b;
        } else {
          var x :| x in b && x !in a;
          assert x in b - a;
        }
      }
    }
  }

  lemma RatioAtMostOne(i: nat, u: nat)
    requires i <= u && u > 0
    ensures 0.0 <= i as real / u as real <= 1.0
    ensures i as real / u as real == 1.0 <==> i == u
  {
    var n, d := i as real, u as real;
    var r := n / d;
    assert r * d == n;
    assert (1.0 - r) * d == d - n;
    ProductSign(r, d);
    ProductSign(1.0 - r, d);
  }

  /** A product with a positive factor has the sign of the other factor. */
  lemma ProductSign(x: real, d: real)
    requires d > 0.0
    ensures x * d >= 0.0 ==> x >= 0.0
    ensures x * d == 0.0 ==> x == 0.0
  {
  }

  /** A released column equal to the true one gives a perfect score. */
  lemma MetricAIdentical(xs: seq<real>, lib: Library)
    requires Sound(lib) && |xs| > 0
    ensures MetricAOf(xs, xs, lib).iouTopSet == 1.0
    ensures MetricAOf(xs, xs, lib).lInfZscore == Val(0.0)
  {
    var z := ZScores(xs, lib);
    var d := AbsDiffs(z, z, |z|);
    forall i | 0 <= i < |d| ensures d[i] == 0.0 {
      assert d[i] == Abs(z[i] - z[i]);
    }
    assert Max(d) == 0.0;
  }

  // ----- Type B: total variation distance -----

  /** `p / p.sum() if p.sum() > 0 else p`. */
  function Normalized(p: seq<real>): (r: seq<real>)
    ensures |r| == |p|
  {
    if Sum(p) > 0.0 then Scaled(p, Sum(p)) else p
  }

  /** `0.5 * np.sum(np.abs(p_true[:n] - p_noisy[:n]))` on the normalised
      columns, `n` the shorter length. */
  function Tvd(p: seq<real>, q: seq<real>): real {
    0.5 * Sum(AbsDiffs(Normalized(p), Normalized(q), Min(|p|, |q|)))
  }

  /** `np.mean(np.abs(...))` on the raw columns: NaN for no rows. */
  function Mae(p: seq<real>, q: seq<real>): (r: Score)
    ensures r.NaN? <==> Min(|p|, |q|) == 0
    ensures r.Val? ==> r.v >= 0.0
  {
    var n := Min(|p|, |q|);
    if n == 0 then NaN
    else
      var d := AbsDiffs(p, q, n);
      SumNonNegative(d);
      NonNegativeQuotient(Sum(d), n as real);
      Val(Mean(d))
  }

  /** `compute_metric_B` on the two percentage columns. */
  function MetricBOf(p: seq<real>, q: seq<real>): (r: MetricRecord)
    ensures r.MetricB? && r.tvd >= 0.0
    ensures r.maePct.NaN? <==> Min(|p|, |q|) == 0
    ensures r.maePct.Val? ==> r.maePct.v >= 0.0
  {
    SumNonNegative(AbsDiffs(Normalized(p), Normalized(q), Min(|p|, |q|)));
    MetricB(Tvd(p, q), Mae(p, q))
  }

  /** A normalised non-negative column with a positive total is
      non-negative and sums to one. */
  lemma NormalizedDistribution(p: seq<real>)
    requires NonNegative(p) && Sum(p) > 0.0
    ensures NonNegative(Normalized(p)) && Sum(Normalized(p)) == 1.0
  {
    SumScaled(p, Sum(p));
    SelfQuotientOne(Sum(p));
    forall i | 0 <= i < |p| ensures Normalized(p)[i] >= 0.0 {
      NonNegativeQuotient(p[i], Sum(p));
    }
  }

  lemma SelfQuotientOne(a: real)
    requires a != 0.0
    ensures a / a == 1.0
  {
  }

  lemma NonNegativeQuotient(a: real, b: real)
    requires a >= 0.0 && b > 0.0
    ensures a / b >= 0.0
  {
  }

  /** The summed differences of the first `n` entries are at most the two
      prefix sums together. */
  lemma {:induction false} AbsDiffsAtMost(a: seq<real>, b: seq<real>, n: nat)
    requires NonNegative(a) && NonNegative(b) && n <= |a| && n <= |b|
    ensures Sum(AbsDiffs(a, b, n)) <= Sum(a[..n]) + Sum(b[..n])
  {
    if n > 0 {
      AbsDiffsAtMost(a, b, n - 1);
      assert AbsDiffs(a, b, n)[..n - 1] == AbsDiffs(a, b, n - 1);
      assert a[..n][..n - 1] == a[..n - 1];
      assert b[..n][..n - 1] == b[..n - 1];
    }
  }

  /** TVD lies in [0, 1] for non-negative columns with positive totals. */
  lemma TvdBounds(p: seq<real>, q: seq<real>)
    requires NonNegative(p) && NonNegative(q) && Sum(p) > 0.0 && Sum(q) > 0.0
    ensures 0.0 <= Tvd(p, q) <= 1.0
  {
    var n := Min(|p|, |q|);
    var np, nq := Normalized(p), Normalized(q);
    NormalizedDistribution(p);
    NormalizedDistribution(q);
    AbsDiffsAtMost(np, nq, n);
    PrefixSumAtMost(np, n);
    PrefixSumAtMost(nq, n);
    SumNonNegative(AbsDiffs(np, nq, n));
  }

  /** Identical columns are at distance zero, with zero mean error. */
  lemma MetricBIdentical(p: seq<real>)
    ensures Tvd(p, p) == 0.0
    ensures |p| > 0 ==> Mae(p, p) == Val(0.0)
  {
    var np := Normalized(p);
    var dn, dp := AbsDiffs(np, np, |p|), AbsDiffs(p, p, |p|);
    forall i | 0 <= i < |p| ensures dn[i] == 0.0 && dp[i] == 0.0 {
      assert dn[i] == Abs(np[i] - np[i]);
      assert dp[i] == Abs(p[i] - p[i]);
    }
    SumConstant(dn, 0.0);
    SumConstant(dp, 0.0);
  }

  // ----- Type C: Kendall's tau and top-k overlap -----

  /** The index among the first `i` outside `ex` with the largest value,
      the earliest on ties. */
  function BestFrom(v: seq<real>, ex: set<nat>, i: nat): (b: Option<nat>)
    requires i <= |v|
    ensures b.None? <==> forall j: nat :: j < i ==> j in ex
    ensures b.Some? ==> b.value < i && b.value !in ex
    ensures b.Some? ==> forall j: nat :: j < i && j !in ex ==> v[j] <= v[b.value]
  {
    if i == 0 then None
    else
      var b := BestFrom(v, ex, i - 1);
      if i - 1 in ex then b
      else if b.None? || v[i - 1] > v[b.value] then Some(i - 1)
      else b
  }

  /** `set(np.argsort(-v)[:k])`: `k` indices of largest values. */
  function TopK(v: seq<real>, k: nat): (s: set<nat>)
    requires k <= |v|
    ensures |s| == k
    ensures forall i :: i in s ==> i < |v|
    ensures forall i, j: nat :: i in s && j < |v| && j !in s ==> v[j] <= v[i]
  {
    if k == 0 then {}
    else
      var s := TopK(v, k - 1);
      NotAllTaken(s, |v|);
      var b := BestFrom(v, s, |v|);
      s + {b.value}
  }

  /** Fewer than `n` indices leave one of `0 .. n-1` out. */
  lemma NotAllTaken(s: set<nat>, n: nat)
    requires |s| < n
    ensures exists j: nat :: j < n && j !in s
  {
    var r := Range(n);
    if forall j: nat :: j < n ==> j in s {
      SubsetCardinality(r, s);
      assert false;
    }
  }

  lemma SubsetCardinality(r: set<nat>, s: set<nat>)
    requires r <= s
    ensures |r| <= |s|
  {
    assert s == r + (s - r);
    assert r * (s - r) == {};
  }

  /** The indices `0 .. n-1`. */
  function Range(n: nat): (r: set<nat>)
    ensures |r| == n
    ensures forall j: nat :: j in r <==> j < n
  {
    if n == 0 then {} else Range(n - 1) + {n - 1}
  }

  /** `top_k_acc`: the shared fraction of the two top-k sets, 1.0 when
      `k` is zero. */
  function TopKAccuracy(xs: seq<real>, ys: seq<real>, k: nat): (acc: real)
    requires k <= |xs| && k <= |ys|
    ensures 0.0 <= acc <= 1.0
    ensures k == 0 ==> acc == 1.0
  {
    if k > 0 then
      var a, b := TopK(xs, k), TopK(ys, k);
      IntersectionAtMost(a, b);
      RatioAtMostOne(|a * b|, k);
      |a * b| as real / k as real
    else 1.0
  }

  lemma IntersectionAtMost(a: set<nat>, b: set<nat>)
    ensures |a * b| <= |a|
  {
    assert a == (a * b) + (a - b);
    assert (a * b) * (a - b) == {};
  }

  /** `compute_metric_C` on the two rank columns, with the default
      `top_k = 3`. */
  function MetricCOf(xs: seq<real>, ys: seq<real>, lib: Library): (r: MetricRecord)
    ensures r.MetricC?
    ensures r.topK == Min(3, Min(|xs|, |ys|))
    ensures 0.0 <= r.topKAcc <= 1.0
    ensures r.topK == 0 ==> r.topKAcc == 1.0
    ensures r.kendallTau == lib.kendallTau(xs[..Min(|xs|, |ys|)], ys[..Min(|xs|, |ys|)])
  {
    var n := Min(|xs|, |ys|);
    var k := Min(3, n);
    MetricC(lib.kendallTau(xs[..n], ys[..n]), TopKAccuracy(xs[..n], ys[..n], k), k)
  }

  /** The same rank column gives full top-k overlap. */
  lemma MetricCIdentical(xs: seq<real>, lib: Library)
    ensures MetricCOf(xs, xs, lib).topKAcc == 1.0
  {
    var k := Min(3, |xs|);
    assert xs[..|xs|] == xs;
    if k > 0 {
      var a := TopK(xs, k);
      assert a * a == a;
      RatioAtMostOne(k, k);
      assert TopKAccuracy(xs, xs, k) == 1.0;
    }
  }

  // ----- Type D: top-1 accuracy -----

  /** Whether two columns hold equal entries at row `i` (entries of
      different kinds compare unequal). */
  predicate SameEntry(a: Column, b: Column, i: nat)
    requires i < Len(a) && i < Len(b)
  {
    match (a, b)
    case (NumCol(x), NumCol(y)) => x[i] == y[i]
    case (TextCol(x), TextCol(y)) => x[i] == y[i]
    case _ => false
  }

  /** `(a[:n] == b[:n]).sum()`. */
  function MatchCount(a: Column, b: Column, n: nat): (m: nat)
    requires n <= Len(a) && n <= Len(b)
    ensures m <= n
    ensures (forall i :: 0 <= i < n ==> SameEntry(a, b, i)) ==> m == n
  {
    if n == 0 then 0
    else MatchCount(a, b, n - 1) + (if SameEntry(a, b, n - 1) then 1 else 0)
  }

  /** `compute_metric_D`: NaN when either table lacks the winner column,
      else the fraction of matching winners over the shorter length, and
      1.0 when that length is zero. */
  function MetricDOf(t: Table, u: Table, w: string): (r: MetricRecord)
    ensures r.MetricD?
    ensures r.top1Accuracy.NaN? <==> w !in t.cols || w !in u.cols
    ensures r.top1Accuracy.Val? ==> 0.0 <= r.top1Accuracy.v <= 1.0
    ensures r.top1Accuracy.Val? && Min(Len(t.cols[w]), Len(u.cols[w])) == 0 ==> r.top1Accuracy.v == 1.0
  {
    if w !in t.cols || w !in u.cols then MetricD(NaN)
    else
      var a, b := t.cols[w], u.cols[w];
      var n := Min(Len(a), Len(b));
      if n > 0 then
        RatioAtMostOne(MatchCount(a, b, n), n);
        MetricD(Val(MatchCount(a, b, n) as real / n as real))
      else MetricD(Val(1.0))
  }

  /** An unchanged winner column scores 1.0. */
  lemma MetricDIdentical(t: Table, u: Table, w: string)
    requires w in t.cols && w in u.cols && t.cols[w] == u.cols[w]
    ensures MetricDOf(t, u, w) == MetricD(Val(1.0))
  {
    var a := t.cols[w];
    var n := Len(a);
    forall i | 0 <= i < n ensures SameEntry(a, a, i) {
    }
    if n > 0 {
      RatioAtMostOne(n, n);
    }
  }

  // ----- Type E: KL divergence per row -----

  /** The lower clip `np.clip(p, 1e-10, None)` applies. */
  const KlFloor: real := 0.0000000001

  /** `np.clip(p, 1e-10, None)`. */
  function Clipped(p: seq<real>): (c: seq<real>)
    ensures |c| == |p|
    ensures forall j :: 0 <= j < |c| ==> c[j] >= KlFloor
  {
    seq(|p|, j requires 0 <= j < |p| => if p[j] < KlFloor then KlFloor else p[j])
  }

  /** The clipped row divided by its sum: every entry positive. */
  function ClippedDistribution(p: seq<real>): (d: seq<real>)
    ensures |d| == |p|
    ensures forall j :: 0 <= j < |d| ==> d[j] > 0.0
  {
    if |p| == 0 then []
    else
      var c := Clipped(p);
      assert NonNegative(c);
      SumAtLeastElement(c, 0);
      forall j | 0 <= j < |c| ensures c[j] / Sum(c) > 0.0 {
        QuotientPositive(c[j], Sum(c));
      }
      Scaled(c, Sum(c))
  }

  /** `np.sum(kl_div(p, q))` on one row pair. */
  function KlRow(p: seq<real>, q: seq<real>, lib: Library): real
    requires |p| == |q|
  {
    var dp, dq := ClippedDistribution(p), ClippedDistribution(q);
    Sum(seq(|p|, j requires 0 <= j < |p| => lib.klDiv(dp[j], dq[j])))
  }

  /** `kl_values` after the loop: one KL sum per row of the shorter table. */
  function KlValues(t: Table, u: Table, dist: seq<string>, lib: Library): (kl: seq<real>)
    requires DistReady(t, dist) && DistReady(u, dist)
    ensures |kl| == Min(t.rows, u.rows)
  {
    seq(Min(t.rows, u.rows), i requires 0 <= i < Min(t.rows, u.rows) =>
      KlRow(RowValues(t, dist, i), RowValues(u, dist, i), lib))
  }

  /** What `compute_metric_E` reports: NaN for both fields when there are
      no rows, else the mean and the maximum of the row values. */
  function MetricEOf(t: Table, u: Table, dist: seq<string>, lib: Library): (r: MetricRecord)
    requires DistReady(t, dist) && DistReady(u, dist)
    ensures r.MetricE?
    ensures r.meanKlDiv.NaN? <==> Min(t.rows, u.rows) == 0
    ensures r.maxKlDiv.NaN? <==> Min(t.rows, u.rows) == 0
    ensures r.meanKlDiv.Val? ==> r.maxKlDiv.Val? && r.meanKlDiv.v <= r.maxKlDiv.v
  {
    var kl := KlValues(t, u, dist, lib);
    if |kl| == 0 then MetricE(NaN, NaN)
    else
      MeanAtMostMax(kl);
      MetricE(Val(Mean(kl)), Val(Max(kl)))
  }

  /** `compute_metric_E`: the row loop appending to `kl_values`. */
  method ComputeMetricE(t: Table, u: Table, dist: seq<string>, lib: Library) returns (r: MetricRecord)
    requires DistReady(t, dist) && DistReady(u, dist)
    ensures r == MetricEOf(t, u, dist, lib)
  {
    ghost var kl := KlValues(t, u, dist, lib);
    var n := Min(t.rows, u.rows);
    var klValues: seq<real> := [];
    var i := 0;
    while i < n
      invariant 0 <= i <= n
      invariant klValues == kl[..i]
    {
      var p := RowValues(t, dist, i);
      var q := RowValues(u, dist, i);
      TakeOneMore(kl, i);
      klValues := klValues + [KlRow(p, q, lib)];
      i := i + 1;
    }
    assert kl[..n] == kl;
    if |klValues| == 0 {
      r := MetricE(NaN, NaN);
    } else {
      r := MetricE(Val(Mean(klValues)), Val(Max(klValues)));
    }
  }

  /** Given the library's facts about `kl_div`, every row's KL sum is
      non-negative, so are the mean and the maximum. */
  lemma MetricENonNegative(t: Table, u: Table, dist: seq<string>, lib: Library)
    requires KlSound(lib) && DistReady(t, dist) && DistReady(u, dist)
    ensures MetricEOf(t, u, dist, lib).meanKlDiv.Val? ==> MetricEOf(t, u, dist, lib).meanKlDiv.v >= 0.0
    ensures MetricEOf(t, u, dist, lib).maxKlDiv.Val? ==> MetricEOf(t, u, dist, lib).maxKlDiv.v >= 0.0
  {
    var kl := KlValues(t, u, dist, lib);
    forall i | 0 <= i < |kl| ensures kl[i] >= 0.0 {
      KlRowNonNegative(RowValues(t, dist, i), RowValues(u, dist, i), lib);
    }
    if |kl| > 0 {
      SumNonNegative(kl);
      NonNegativeQuotient(Sum(kl), |kl| as real);
      assert kl[0] <= Max(kl);
    }
  }

  lemma KlRowNonNegative(p: seq<real>, q: seq<real>, lib: Library)
    requires KlSound(lib) && |p| == |q|
    ensures KlRow(p, q, lib) >= 0.0
  {
    var dp, dq := ClippedDistribution(p), ClippedDistribution(q);
    var terms := seq(|p|, j requires 0 <= j < |p| => lib.klDiv(dp[j], dq[j]));
    forall j | 0 <= j < |p| ensures terms[j] >= 0.0 {
      assert dp[j] > 0.0 && dq[j] > 0.0;
    }
    SumNonNegative(terms);
  }

  /** Identical rows are at KL divergence zero. */
  lemma KlRowIdentical(p: seq<real>, lib: Library)
    requires KlSound(lib)
    ensures KlRow(p, p, lib) == 0.0
  {
    var dp := ClippedDistribution(p);
    var terms := seq(|p|, j requires 0 <= j < |p| => lib.klDiv(dp[j], dp[j]));
    forall j | 0 <= j < |p| ensures terms[j] == 0.0 {
      assert dp[j] > 0.0;
    }
    SumConstant(terms, 0.0);
  }

  /** A release whose distribution columns equal the true ones scores zero
      mean and maximum KL divergence. */
  lemma MetricEIdentical(t: Table, dist: seq<string>, lib: Library)
    requires KlSound(lib) && DistReady(t, dist) && t.rows > 0
    ensures MetricEOf(t, t, dist, lib) == MetricE(Val(0.0), Val(0.0))
  {
    var kl := KlValues(t, t, dist, lib);
    forall i | 0 <= i < |kl| ensures kl[i] == 0.0 {
      KlRowIdentical(RowValues(t, dist, i), lib);
    }
    SumConstant(kl, 0.0);
    ZeroMean(kl);
    assert MetricEOf(t, t, dist, lib) == MetricE(Val(Mean(kl)), Val(Max(kl)));
  }

  lemma ZeroMean(s: seq<real>)
    requires |s| > 0 && forall i :: 0 <= i < |s| ==> s[i] == 0.0
    requires Sum(s) == 0.0
    ensures Mean(s) == 0.0 && Max(s) == 0.0
  {
  }

  // ----- The dispatcher -----

  /** What each metric function demands of the two tables: its selector is
      declared, a numeric column of that name is in both tables (the
      column lookups fail otherwise), and for type A not both are empty. */
  predicate MetricInputs(t: Table, u: Table, m: Meta) {
    && (m.metricType == "A" ==>
          m.zscoreCol.Some? && NumericColumn(t, m.zscoreCol.value) && NumericColumn(u, m.zscoreCol.value)
          && (t.rows > 0 || u.rows > 0))
    && (m.metricType == "B" ==>
          m.pctCol.Some? && NumericColumn(t, m.pctCol.value) && NumericColumn(u, m.pctCol.value))
    && (m.metricType == "C" ==>
          m.rankCol.Some? && NumericColumn(t, m.rankCol.value) && NumericColumn(u, m.rankCol.value))
    && (m.metricType == "D" ==> m.winnerCol.Some?)
    && (m.metricType == "E" ==> DistReady(t, m.distCols) && DistReady(u, m.distCols))
  }

  predicate KnownTag(tag: string) {
    tag == "A" || tag == "B" || tag == "C" || tag == "D" || tag == "E"
  }

  /** The record `compute_metric` returns. */
  function MetricOf(t: Table, u: Table, m: Meta, lib: Library): (r: MetricRecord)
    requires Sound(lib) && MetricInputs(t, u, m)
    ensures m.metricType == "A" <==> r.MetricA?
    ensures m.metricType == "B" <==> r.MetricB?
    ensures m.metricType == "C" <==> r.MetricC?
    ensures m.metricType == "D" <==> r.MetricD?
    ensures m.metricType == "E" <==> r.MetricE?
    ensures !KnownTag(m.metricType) <==> r == UnknownMetric(m.metricType, "unknown metric type")
  {
    match m.metricType
    case "A" => MetricAOf(Values(t, m.zscoreCol.value), Values(u, m.zscoreCol.value), lib)
    case "B" => MetricBOf(Values(t, m.pctCol.value), Values(u, m.pctCol.value))
    case "C" => MetricCOf(Values(t, m.rankCol.value), Values(u, m.rankCol.value), lib)
    case "D" => MetricDOf(t, u, m.winnerCol.value)
    case "E" => MetricEOf(t, u, m.distCols, lib)
    case _ => UnknownMetric(m.metricType, "unknown metric type")
  }

  /** `compute_metric`. */
  method ComputeMetric(t: Table, u: Table, m: Meta, lib: Library) returns (r: MetricRecord)
    requires Sound(lib) && MetricInputs(t, u, m)
    ensures r == MetricOf(t, u, m, lib)
  {
    var mtype := m.metricType;
    if mtype == "A" {
      r := MetricAOf(Values(t, m.zscoreCol.value), Values(u, m.zscoreCol.value), lib);
    } else if mtype == "B" {
      r := MetricBOf(Values(t, m.pctCol.value), Values(u, m.pctCol.value));
    } else if mtype == "C" {
      r := MetricCOf(Values(t, m.rankCol.value), Values(u, m.rankCol.value), lib);
    } else if mtype == "D" {
      r := MetricDOf(t, u, m.winnerCol.value);
    } else if mtype == "E" {
      r := ComputeMetricE(t, u, m.distCols, lib);
    } else {
      r := UnknownMetric(mtype, "unknown metric type");
    }
  }
}
