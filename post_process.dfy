/** `post_process`, shared verbatim by both mechanisms: on a copy of the
    noisy table, clamp the declared numeric columns at zero, rescale the
    percentage column to a total of 100, and rescale each row of the
    distribution columns to a total of 100. */
module PostProcessing {
  import opened Numerics
  import opened Tables
  import opened DpConfig

  /** `clip(lower=0.0)` of one value. */
  function Clip(x: real): real {
    if x < 0.0 then 0.0 else x
  }

  /** `Series.clip(lower=0.0)`. */
  function ClampValues(xs: seq<real>): (ys: seq<real>)
    ensures |ys| == |xs|
    ensures NonNegative(ys)
    ensures forall i :: 0 <= i < |xs| && xs[i] >= 0.0 ==> ys[i] == xs[i]
    ensures forall i :: 0 <= i < |xs| && xs[i] < 0.0 ==> ys[i] == 0.0
  {
    seq(|xs|, i requires 0 <= i < |xs| => Clip(xs[i]))
  }

  /** Step 1 as a whole: every column named in `cols` that the table
      carries as numbers is clamped, every other column is kept. */
  function Clamped(t: Table, cols: seq<string>): (u: Table)
    ensures u.rows == t.rows && u.cols.Keys == t.cols.Keys
    ensures forall c :: NumericColumn(t, c) ==> NumericColumn(u, c)
    ensures forall c :: c in cols && NumericColumn(t, c) ==> NumericColumn(u, c) && NonNegative(u.cols[c].xs)
    ensures forall c :: c in t.cols && c !in cols ==> u.cols[c] == t.cols[c]
    ensures WellFormed(t) ==> WellFormed(u)
  {
    Table(t.rows, map c | c in t.cols ::
      if c in cols && t.cols[c].NumCol? then NumCol(ClampValues(t.cols[c].xs)) else t.cols[c])
  }

  /** Python truthiness of `meta.get("pct_col")`. */
  predicate Truthy(pct: Option<string>) {
    pct.Some? && pct.value != ""
  }

  /** The percentage column of `t` under `pct`, if step 2 applies to it. */
  predicate HasPctColumn(t: Table, pct: Option<string>) {
    Truthy(pct) && pct.value in t.cols
  }

  /** Step 2: a present percentage column with a positive total is
      rescaled to percentages of that total. */
  function RescaledPct(t: Table, pct: Option<string>): (u: Table)
    requires HasPctColumn(t, pct) ==> t.cols[pct.value].NumCol?
    ensures u.rows == t.rows && u.cols.Keys == t.cols.Keys
    ensures forall c :: c in t.cols && !(HasPctColumn(t, pct) && c == pct.value) ==> u.cols[c] == t.cols[c]
    ensures forall c :: NumericColumn(t, c) ==> NumericColumn(u, c)
    ensures WellFormed(t) ==> WellFormed(u)
  {
    if HasPctColumn(t, pct) then
      var xs := t.cols[pct.value].xs;
      var total := Sum(xs);
      if total > 0.0 then Table(t.rows, t.cols[pct.value := NumCol(Percentages(xs, total))]) else t
    else t
  }

  /** Every distribution column is a numeric column of the table. */
  predicate DistReady(t: Table, dist: seq<string>) {
    forall c :: c in dist ==> NumericColumn(t, c)
  }

  /** Row `i` of the distribution columns, in list order. */
  function RowValues(t: Table, dist: seq<string>, i: nat): (r: seq<real>)
    requires DistReady(t, dist) && i < t.rows
    ensures |r| == |dist|
  {
    seq(|dist|, j requires 0 <= j < |dist| => assert dist[j] in dist; t.cols[dist[j]].xs[i])
  }

  /** `df.loc[i, dist_cols].sum()`. */
  function RowSum(t: Table, dist: seq<string>, i: nat): real
    requires DistReady(t, dist) && i < t.rows
  {
    Sum(RowValues(t, dist, i))
  }

  /** Step 3 applied to the rows before `k`: a row whose distribution sum
      is positive has each distribution value rescaled to a percentage of
      that sum; other rows and other columns are kept. */
  function NormalizedRows(t: Table, dist: seq<string>, k: nat): (u: Table)
    requires DistReady(t, dist) && k <= t.rows
    ensures u.rows == t.rows && u.cols.Keys == t.cols.Keys
    ensures DistReady(u, dist)
    ensures forall c :: c in t.cols && c !in dist ==> u.cols[c] == t.cols[c]
    ensures forall c :: NumericColumn(t, c) ==> NumericColumn(u, c)
    ensures WellFormed(t) ==> WellFormed(u)
  {
    Table(t.rows, map c | c in t.cols ::
      if c in dist then
        NumCol(seq(t.rows, i requires 0 <= i < t.rows =>
          if i < k && RowSum(t, dist, i) > 0.0 then t.cols[c].xs[i] / RowSum(t, dist, i) * 100.0
          else t.cols[c].xs[i]))
      else t.cols[c])
  }

  /** What `post_process` needs to run without raising: the columns it
      does arithmetic on are numeric, and when there are distribution
      columns they are all present. */
  predicate Ready(t: Table, m: Meta) {
    && WellFormed(t)
    && NumericWherePresent(t, m.numericCols)
    && (HasPctColumn(t, m.pctCol) ==> NumericColumn(t, m.pctCol.value))
    && (|m.distCols| > 0 ==> DistReady(t, m.distCols))
  }

  /** Steps 1 and 2 on the input table: what step 3 starts from. */
  function BeforeRowStep(t: Table, m: Meta): (u: Table)
    requires Ready(t, m)
    ensures u.rows == t.rows && u.cols.Keys == t.cols.Keys
    ensures |m.distCols| > 0 ==> DistReady(u, m.distCols)
    ensures forall c :: NumericColumn(t, c) ==> NumericColumn(u, c)
    ensures WellFormed(u)
  {
    var c := Clamped(t, m.numericCols);
    assert HasPctColumn(c, m.pctCol) ==> c.cols[m.pctCol.value].NumCol?;
    var u := RescaledPct(c, m.pctCol);
    assert |m.distCols| > 0 ==> DistReady(u, m.distCols) by {
      if |m.distCols| > 0 {
        forall d | d in m.distCols ensures NumericColumn(u, d) {
          assert NumericColumn(t, d);
        }
      }
    }
    u
  }

  /** The table `post_process` returns. */
  function PostProcessed(t: Table, m: Meta): (r: Table)
    requires Ready(t, m)
    ensures r.rows == t.rows && r.cols.Keys == t.cols.Keys
    ensures |m.distCols| > 0 ==> DistReady(r, m.distCols)
    ensures forall c :: NumericColumn(t, c) ==> NumericColumn(r, c)
    ensures WellFormed(r)
  {
    var u := BeforeRowStep(t, m);
    if |m.distCols| > 0 then NormalizedRows(u, m.distCols, u.rows) else u
  }

  // ----- The loop steps -----

  lemma ClampIdempotent(xs: seq<real>)
    ensures ClampValues(ClampValues(xs)) == ClampValues(xs)
  {
  }

  /** One turn of the clamping loop extends the clamped prefix by one name. */
  lemma ClampStep(t: Table, cols: seq<string>, k: nat)
    requires k < |cols| && cols[k] in t.cols && t.cols[cols[k]].NumCol?
    ensures
      var u := Clamped(t, cols[..k]);
      Clamped(t, cols[..k + 1]) == Table(u.rows, u.cols[cols[k] := NumCol(ClampValues(u.cols[cols[k]].xs))])
  {
    var u := Clamped(t, cols[..k]);
    var col := cols[k];
    assert cols[..k + 1] == cols[..k] + [col];
    ClampIdempotent(t.cols[col].xs);
    assert forall c :: c in cols[..k + 1] <==> c in cols[..k] || c == col;
    var lhs := Clamped(t, cols[..k + 1]);
    var rhs := Table(u.rows, u.cols[col := NumCol(ClampValues(u.cols[col].xs))]);
    assert lhs.cols.Keys == rhs.cols.Keys;
    forall c | c in lhs.cols ensures lhs.cols[c] == rhs.cols[c] {
    }
  }

  /** The row sum of row `i` does not depend on the rows already rescaled. */
  lemma RowSumUnchanged(t: Table, dist: seq<string>, k: nat)
    requires DistReady(t, dist) && k < t.rows
    ensures RowSum(NormalizedRows(t, dist, k), dist, k) == RowSum(t, dist, k)
  {
    assert RowValues(NormalizedRows(t, dist, k), dist, k) == RowValues(t, dist, k);
  }

  /** Before the first row nothing is rescaled. */
  lemma NormalizedNoRows(t: Table, dist: seq<string>)
    requires DistReady(t, dist)
    ensures NormalizedRows(t, dist, 0) == t
  {
    var u := NormalizedRows(t, dist, 0);
    forall c | c in t.cols
      ensures u.cols[c] == t.cols[c]
    {
      if c in dist {
        assert u.cols[c].xs == t.cols[c].xs;
      }
    }
  }

  /** The table after rescaling row `k` in place. */
  function ScaleRow(t: Table, dist: seq<string>, k: nat, s: real): (u: Table)
    requires DistReady(t, dist) && k < t.rows && s != 0.0
    ensures u.rows == t.rows && u.cols.Keys == t.cols.Keys
  {
    Table(t.rows, map c | c in t.cols ::
      if c in dist then NumCol(t.cols[c].xs[k := t.cols[c].xs[k] / s * 100.0]) else t.cols[c])
  }

  /** One turn of the row loop extends the rescaled prefix by one row. */
  lemma NormalizeStep(t: Table, dist: seq<string>, k: nat)
    requires DistReady(t, dist) && k < t.rows
    ensures
      var u := NormalizedRows(t, dist, k);
      var s := RowSum(t, dist, k);
      NormalizedRows(t, dist, k + 1) == if s > 0.0 then ScaleRow(u, dist, k, s) else u
  {
    var u := NormalizedRows(t, dist, k);
    var s := RowSum(t, dist, k);
    var v := NormalizedRows(t, dist, k + 1);
    var w := if s > 0.0 then ScaleRow(u, dist, k, s) else u;
    forall c | c in t.cols
      ensures v.cols[c] == w.cols[c]
    {
      if c in dist {
        assert v.cols[c].xs == w.cols[c].xs;
      }
    }
  }

  // ----- The methods -----

  /** Step 1 in place: clamp each listed column the frame carries. */
  method ClampInPlace(df: Frame, cols: seq<string>)
    requires NumericWherePresent(df.Value(), cols)
    modifies df
    ensures df.Value() == Clamped(old(df.Value()), cols)
  {
    ghost var t := df.Value();
    var k := 0;
    while k < |cols|
      invariant 0 <= k <= |cols|
      invariant df.Value() == Clamped(t, cols[..k])
    {
      var col := cols[k];
      if col in df.cols {
        ClampStep(t, cols, k);
        df.cols := df.cols[col := NumCol(ClampValues(df.cols[col].xs))];
      } else {
        assert cols[..k + 1] == cols[..k] + [col];
        assert forall c :: c in cols[..k + 1] && c in t.cols ==> c in cols[..k];
      }
      k := k + 1;
    }
    assert cols[..k] == cols;
  }

  /** Step 2 in place. */
  method RescalePctInPlace(df: Frame, pct: Option<string>)
    requires HasPctColumn(df.Value(), pct) ==> df.cols[pct.value].NumCol?
    modifies df
    ensures df.Value() == RescaledPct(old(df.Value()), pct)
  {
    if pct.Some? && pct.value != "" && pct.value in df.cols {
      var xs := df.cols[pct.value].xs;
      var total := Sum(xs);
      if total > 0.0 {
        df.cols := df.cols[pct.value := NumCol(Percentages(xs, total))];
      }
    }
  }

  /** Step 3 in place, row by row. */
  method NormalizeRowsInPlace(df: Frame, dist: seq<string>)
    requires DistReady(df.Value(), dist)
    modifies df
    ensures df.Value() == NormalizedRows(old(df.Value()), dist, old(df.rows))
  {
    ghost var u := df.Value();
    NormalizedNoRows(u, dist);
    var i := 0;
    while i < df.rows
      invariant df.rows == u.rows && 0 <= i <= u.rows
      invariant df.Value() == NormalizedRows(u, dist, i)
    {
      RowSumUnchanged(u, dist, i);
      NormalizeStep(u, dist, i);
      var s := RowSum(df.Value(), dist, i);
      if s > 0.0 {
        df.cols := map c | c in df.cols ::
          if c in dist then NumCol(df.cols[c].xs[i := df.cols[c].xs[i] / s * 100.0]) else df.cols[c];
      }
      i := i + 1;
    }
  }

  /** `post_process`: copy the noisy frame, then clamp, rescale the
      percentage column and rescale the distribution rows in place. The
      input frame is left as it was. */
  method PostProcess(noisy: Frame, m: Meta) returns (df: Frame)
    requires Ready(noisy.Value(), m)
    ensures fresh(df)
    ensures df.Value() == PostProcessed(noisy.Value(), m)
  {
    ghost var t := noisy.Value();
    df := noisy.Copy();
    ClampInPlace(df, m.numericCols);
    assert HasPctColumn(df.Value(), m.pctCol) ==> df.cols[m.pctCol.value].NumCol?;
    RescalePctInPlace(df, m.pctCol);
    assert df.Value() == BeforeRowStep(t, m);
    if |m.distCols| > 0 {
      NormalizeRowsInPlace(df, m.distCols);
    }
  }

  // ----- What post-processing guarantees -----

  lemma PercentagesNonNegative(xs: seq<real>, total: real)
    requires NonNegative(xs) && total > 0.0
    ensures NonNegative(Percentages(xs, total))
  {
    forall i | 0 <= i < |xs| ensures Percentages(xs, total)[i] >= 0.0 {
      QuotientNonNegative(xs[i], total);
    }
  }

  lemma QuotientNonNegative(x: real, s: real)
    requires x >= 0.0 && s > 0.0
    ensures x / s * 100.0 >= 0.0
  {
  }

  /** Every declared numeric column the table carries is non-negative
      after post-processing. */
  lemma DeclaredColumnsNonNegative(t: Table, m: Meta, c: string)
    requires Ready(t, m) && c in m.numericCols && c in t.cols
    ensures NumericColumn(PostProcessed(t, m), c)
    ensures NonNegative(Values(PostProcessed(t, m), c))
  {
    BeforeRowStepNonNegative(t, m, c);
    if |m.distCols| > 0 {
      NormalizedNonNegative(BeforeRowStep(t, m), m.distCols, c);
    }
  }

  /** Steps 1 and 2 leave every declared numeric column non-negative. */
  lemma BeforeRowStepNonNegative(t: Table, m: Meta, c: string)
    requires Ready(t, m) && c in m.numericCols && c in t.cols
    ensures NumericColumn(BeforeRowStep(t, m), c)
    ensures NonNegative(BeforeRowStep(t, m).cols[c].xs)
  {
    var c1 := Clamped(t, m.numericCols);
    assert NumericColumn(t, c);
    assert NonNegative(c1.cols[c].xs);
    if HasPctColumn(c1, m.pctCol) && c == m.pctCol.value {
      var xs := c1.cols[c].xs;
      if Sum(xs) > 0.0 {
        PercentagesNonNegative(xs, Sum(xs));
      }
    }
  }

  /** Step 3 keeps a non-negative numeric column non-negative. */
  lemma NormalizedNonNegative(u: Table, dist: seq<string>, c: string)
    requires DistReady(u, dist) && NumericColumn(u, c) && NonNegative(u.cols[c].xs)
    ensures NumericColumn(NormalizedRows(u, dist, u.rows), c)
    ensures NonNegative(NormalizedRows(u, dist, u.rows).cols[c].xs)
  {
    if c in dist {
      var r := NormalizedRows(u, dist, u.rows);
      forall i | 0 <= i < u.rows
        ensures r.cols[c].xs[i] >= 0.0
      {
        var s := RowSum(u, dist, i);
        if s > 0.0 {
          QuotientNonNegative(u.cols[c].xs[i], s);
        }
      }
    }
  }

  lemma PercentagesOfOwnTotal(xs: seq<real>)
    requires Sum(xs) != 0.0
    ensures Sum(Percentages(xs, Sum(xs))) == 100.0
  {
    SumPercentages(xs, Sum(xs));
    SelfQuotient(Sum(xs));
  }

  lemma SelfQuotient(s: real)
    requires s != 0.0
    ensures s / s * 100.0 == 100.0
  {
    assert s / s == 1.0;
  }

  /** A present percentage column whose clamped total is positive sums to
      100 afterwards; with a total of zero it stays as clamped. */
  lemma PctColumnSumsTo100(t: Table, m: Meta)
    requires Ready(t, m) && HasPctColumn(t, m.pctCol)
    requires m.pctCol.value !in m.distCols
    ensures
      var p := m.pctCol.value;
      var clamped := Values(Clamped(t, m.numericCols), p);
      var after := Values(PostProcessed(t, m), p);
      (Sum(clamped) > 0.0 ==> Sum(after) == 100.0) && (Sum(clamped) <= 0.0 ==> after == clamped)
  {
    var p := m.pctCol.value;
    var c1 := Clamped(t, m.numericCols);
    var xs := c1.cols[p].xs;
    var u := BeforeRowStep(t, m);
    if Sum(xs) > 0.0 {
      PercentagesOfOwnTotal(xs);
      assert u.cols[p].xs == Percentages(xs, Sum(xs));
    }
  }

  /** Each row whose distribution values (as step 3 finds them) sum to a
      positive number sums to 100 afterwards; any other row is left as it
      was. */
  lemma DistRowsSumTo100(t: Table, m: Meta, i: nat)
    requires Ready(t, m) && |m.distCols| > 0 && i < t.rows
    ensures
      var u := BeforeRowStep(t, m);
      var r := PostProcessed(t, m);
      (RowSum(u, m.distCols, i) > 0.0 ==> RowSum(r, m.distCols, i) == 100.0)
      && (RowSum(u, m.distCols, i) <= 0.0 ==> RowValues(r, m.distCols, i) == RowValues(u, m.distCols, i))
  {
    var dist := m.distCols;
    var u := BeforeRowStep(t, m);
    NormalizedRowValues(u, dist, u.rows, i);
    if RowSum(u, dist, i) > 0.0 {
      PercentagesOfOwnTotal(RowValues(u, dist, i));
    }
  }

  /** Row `i` of the distribution columns after step 3 has visited the rows
      before `k`. */
  lemma NormalizedRowValues(t: Table, dist: seq<string>, k: nat, i: nat)
    requires DistReady(t, dist) && k <= t.rows && i < t.rows
    ensures i < k && RowSum(t, dist, i) > 0.0 ==>
      RowValues(NormalizedRows(t, dist, k), dist, i) == Percentages(RowValues(t, dist, i), RowSum(t, dist, i))
    ensures !(i < k && RowSum(t, dist, i) > 0.0) ==>
      RowValues(NormalizedRows(t, dist, k), dist, i) == RowValues(t, dist, i)
  {
  }

  /** A table on which post-processing has nothing to do: declared numeric
      columns non-negative, the percentage column summing to 100, every
      distribution row summing to 100. */
  predicate AlreadyPostProcessed(t: Table, m: Meta)
    requires Ready(t, m)
  {
    && (forall c :: c in m.numericCols && c in t.cols ==> NonNegative(t.cols[c].xs))
    && (HasPctColumn(t, m.pctCol) ==> Sum(t.cols[m.pctCol.value].xs) == 100.0)
    && (|m.distCols| > 0 ==> forall i :: 0 <= i < t.rows ==> RowSum(t, m.distCols, i) == 100.0)
  }

  lemma HundredthsRoundTrip(x: real)
    ensures x / 100.0 * 100.0 == x
  {
  }

  lemma PercentagesOfHundred(xs: seq<real>)
    ensures Percentages(xs, 100.0) == xs
  {
    forall i | 0 <= i < |xs| ensures Percentages(xs, 100.0)[i] == xs[i] {
      HundredthsRoundTrip(xs[i]);
    }
  }

  /** Post-processing is the identity on a table that already satisfies
      all three of its targets. */
  lemma PostProcessIdentity(t: Table, m: Meta)
    requires Ready(t, m) && AlreadyPostProcessed(t, m)
    ensures PostProcessed(t, m) == t
  {
    var c1 := Clamped(t, m.numericCols);
    forall c | c in t.cols ensures c1.cols[c] == t.cols[c] {
      if c in m.numericCols && t.cols[c].NumCol? {
        assert ClampValues(t.cols[c].xs) == t.cols[c].xs;
      }
    }
    assert c1 == t;
    if HasPctColumn(t, m.pctCol) {
      PercentagesOfHundred(t.cols[m.pctCol.value].xs);
      assert t.cols[m.pctCol.value := NumCol(t.cols[m.pctCol.value].xs)] == t.cols;
    }
    var u := BeforeRowStep(t, m);
    assert u == t;
    if |m.distCols| > 0 {
      var r := NormalizedRows(t, m.distCols, t.rows);
      forall c | c in t.cols && c in m.distCols ensures r.cols[c] == t.cols[c] {
        forall i | 0 <= i < t.rows ensures r.cols[c].xs[i] == t.cols[c].xs[i] {
          HundredthsRoundTrip(t.cols[c].xs[i]);
        }
        assert r.cols[c].xs == t.cols[c].xs;
      }
      assert r == t;
    }
  }
}
