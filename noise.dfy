/** The noise loop the two mechanism executors share: a seeded generator
    reduced to its stream of standard samples, and the in-place addition of
    one block of samples per declared column the table carries. */
module NoiseInjection {
  import opened Numerics
  import opened Tables

  /** A seeded `np.random.Generator`, reduced to the stream of standard
      samples it produces (standard normal for the Gaussian mechanism,
      standard Laplace for the Laplace mechanism) and its position in that
      stream. A sample with location 0 and scale `b` is `b` times the next
      standard sample. */
  class Rng {
    const draws: nat -> real
    var pos: nat

    /** A generator at the start of its stream. */
    constructor (draws: nat -> real)
      ensures this.draws == draws && pos == 0
    {
      this.draws := draws;
      pos := 0;
    }

    /** `rng.normal(loc=0.0, scale=scale, size=size)` or
        `rng.laplace(loc=0.0, scale=scale, size=size)`: the next `size`
        samples of the stream, scaled. */
    method Draw(scale: real, size: nat) returns (noise: seq<real>)
      modifies this
      ensures pos == old(pos) + size
      ensures noise == Samples(draws, old(pos), scale, size)
    {
      noise := Samples(draws, pos, scale, size);
      pos := pos + size;
    }
  }

  /** `size` samples with location 0 and scale `scale`, read from the
      standard stream starting at position `start`. */
  function Samples(draws: nat -> real, start: nat, scale: real, size: nat): (s: seq<real>)
    ensures |s| == size
  {
    seq(size, i requires 0 <= i < size => Noise(draws, scale, start + i))
  }

  /** The sample at stream position `k` with scale `scale`. */
  function Noise(draws: nat -> real, scale: real, k: nat): real {
    scale * draws(k)
  }

  /** `df[col] = df[col].astype(float) + noise`. */
  function AddToColumn(t: Table, c: string, noise: seq<real>): (u: Table)
    requires NumericColumn(t, c) && |noise| == t.rows
    ensures u.rows == t.rows && u.cols.Keys == t.cols.Keys
    ensures forall d :: d in t.cols && d != c ==> u.cols[d] == t.cols[d]
    ensures NumericColumn(u, c)
    ensures forall i :: 0 <= i < t.rows ==> Values(u, c)[i] == Values(t, c)[i] + noise[i]
    ensures WellFormed(t) ==> WellFormed(u)
  {
    Table(t.rows, t.cols[c := NumCol(seq(t.rows, i requires 0 <= i < t.rows => t.cols[c].xs[i] + noise[i]))])
  }

  /** How many listed names are keys of the table, counting repeats. */
  function CountPresent(keys: set<string>, cols: seq<string>): (n: nat)
    ensures n <= |cols|
    ensures (forall c :: c in cols ==> c in keys) ==> n == |cols|
    ensures (forall c :: c in cols ==> c !in keys) ==> n == 0
  {
    if |cols| == 0 then 0
    else
      assert forall c :: c in cols[1..] ==> c in cols;
      (if cols[0] in keys then 1 else 0) + CountPresent(keys, cols[1..])
  }

  /** How many samples the noise loop reads while it visits positions
      `lo` to `hi - 1` of the list: one block of `rows` per visited name
      the table carries. */
  function Consumed(keys: set<string>, cols: seq<string>, lo: nat, hi: nat, rows: nat): nat
    requires lo <= hi <= |cols|
    decreases hi - lo
  {
    if lo == hi then 0
    else (if cols[lo] in keys then rows else 0) + Consumed(keys, cols, lo + 1, hi, rows)
  }

  /** The samples read while visiting `lo` to `hi - 1` come in one block
      per name from `cols[lo..hi]` the table carries. */
  lemma {:induction false} ConsumedBlocks(keys: set<string>, cols: seq<string>, lo: nat, hi: nat, rows: nat)
    requires lo <= hi <= |cols|
    ensures Consumed(keys, cols, lo, hi, rows) == CountPresent(keys, cols[lo..hi]) * rows
    decreases hi - lo
  {
    if lo < hi {
      ConsumedBlocks(keys, cols, lo + 1, hi, rows);
      assert cols[lo..hi][0] == cols[lo];
      assert cols[lo..hi][1..] == cols[lo + 1..hi];
      NextBlock(CountPresent(keys, cols[lo + 1..hi]), rows);
    }
  }

  lemma NextBlock(p: nat, rows: nat)
    ensures (p + 1) * rows == p * rows + rows
  {
  }

  /** What the noise loop leaves once it has visited positions `k` onwards,
      starting at stream position `pos`: each visited name the table
      carries, in list order, gets the next block of `rows` samples added
      to its column; missing names are skipped and take no samples. */
  function InjectedFrom(t: Table, cols: seq<string>, k: nat, draws: nat -> real, pos: nat, scale: real): (u: Table)
    requires WellFormed(t) && NumericWherePresent(t, cols) && k <= |cols|
    ensures u.rows == t.rows && u.cols.Keys == t.cols.Keys
    ensures WellFormed(u) && NumericWherePresent(u, cols)
    decreases |cols| - k
  {
    if k == |cols| then t
    else if cols[k] in t.cols then
      InjectedFrom(AddToColumn(t, cols[k], Samples(draws, pos, scale, t.rows)), cols, k + 1, draws, pos + t.rows, scale)
    else InjectedFrom(t, cols, k + 1, draws, pos, scale)
  }

  /** The table after the whole noise loop. */
  function Injected(t: Table, cols: seq<string>, draws: nat -> real, pos: nat, scale: real): (u: Table)
    requires WellFormed(t) && NumericWherePresent(t, cols)
    ensures u.rows == t.rows && u.cols.Keys == t.cols.Keys
    ensures WellFormed(u) && NumericWherePresent(u, cols)
  {
    InjectedFrom(t, cols, 0, draws, pos, scale)
  }

  /** The noise loop of both executors. */
  method AddNoise(df: Frame, cols: seq<string>, rng: Rng, scale: real)
    requires WellFormed(df.Value()) && NumericWherePresent(df.Value(), cols)
    modifies df, rng
    ensures df.Value() == Injected(old(df.Value()), cols, rng.draws, old(rng.pos), scale)
    ensures rng.pos == old(rng.pos) + CountPresent(old(df.cols).Keys, cols) * old(df.rows)
  {
    ghost var t := df.Value();
    ghost var start := rng.pos;
    ghost var keys := t.cols.Keys;
    ghost var target := Injected(t, cols, rng.draws, start, scale);
    var k := 0;
    while k < |cols|
      invariant 0 <= k <= |cols|
      invariant WellFormed(df.Value()) && df.rows == t.rows && df.cols.Keys == keys
      invariant NumericWherePresent(df.Value(), cols)
      invariant InjectedFrom(df.Value(), cols, k, rng.draws, rng.pos, scale) == target
      invariant rng.pos == start + Consumed(keys, cols, 0, k, t.rows)
    {
      var col := cols[k];
      ConsumedStep(keys, cols, 0, k, t.rows);
      InjectedFromStep(df.Value(), cols, k, rng.draws, rng.pos, scale);
      if col in df.cols {
        var noise := rng.Draw(scale, df.rows);
        var u := AddToColumn(df.Value(), col, noise);
        df.cols := u.cols;
        assert df.Value() == u;
      }
      k := k + 1;
    }
    ConsumedBlocks(keys, cols, 0, |cols|, t.rows);
    assert cols[0..|cols|] == cols;
  }

  /** Extending the visited range by one position adds that position's block. */
  lemma {:induction false} ConsumedStep(keys: set<string>, cols: seq<string>, lo: nat, hi: nat, rows: nat)
    requires lo <= hi < |cols|
    ensures Consumed(keys, cols, lo, hi + 1, rows)
      == Consumed(keys, cols, lo, hi, rows) + (if cols[hi] in keys then rows else 0)
    decreases hi - lo
  {
    if lo < hi {
      ConsumedStep(keys, cols, lo + 1, hi, rows);
    }
  }

  /** A column the loop does not visit from `k` onwards is left as it was. */
  lemma {:induction false} InjectedUntouched(t: Table, cols: seq<string>, k: nat, draws: nat -> real, pos: nat,
                                             scale: real, c: string)
    requires WellFormed(t) && NumericWherePresent(t, cols) && k <= |cols|
    requires c in t.cols && forall m :: k <= m < |cols| ==> cols[m] != c
    ensures InjectedFrom(t, cols, k, draws, pos, scale).cols[c] == t.cols[c]
    decreases |cols| - k
  {
    if k < |cols| {
      if cols[k] in t.cols {
        var u := AddToColumn(t, cols[k], Samples(draws, pos, scale, t.rows));
        InjectedUntouched(u, cols, k + 1, draws, pos + t.rows, scale, c);
      } else {
        InjectedUntouched(t, cols, k + 1, draws, pos, scale, c);
      }
    }
  }

  /** Columns named nowhere in the list are left as they were. */
  lemma InjectedKeepsUnlisted(t: Table, cols: seq<string>, draws: nat -> real, pos: nat, scale: real, c: string)
    requires WellFormed(t) && NumericWherePresent(t, cols)
    requires c in t.cols && c !in cols
    ensures Injected(t, cols, draws, pos, scale).cols[c] == t.cols[c]
  {
    InjectedUntouched(t, cols, 0, draws, pos, scale, c);
  }

  /** A numeric column stays numeric. */
  lemma {:induction false} InjectedKeepsNumeric(t: Table, cols: seq<string>, k: nat, draws: nat -> real, pos: nat,
                                                scale: real, c: string)
    requires WellFormed(t) && NumericWherePresent(t, cols) && k <= |cols|
    requires NumericColumn(t, c)
    ensures NumericColumn(InjectedFrom(t, cols, k, draws, pos, scale), c)
    decreases |cols| - k
  {
    if k < |cols| {
      if cols[k] in t.cols {
        var u := AddToColumn(t, cols[k], Samples(draws, pos, scale, t.rows));
        InjectedKeepsNumeric(u, cols, k + 1, draws, pos + t.rows, scale, c);
      } else {
        InjectedKeepsNumeric(t, cols, k + 1, draws, pos, scale, c);
      }
    }
  }

  /** Noise injection in column order: for a duplicate-free list, row `i`
      of the `j`-th listed column, if present, receives sample `i` of the
      block that follows the blocks taken by the present columns the loop
      visited before it. */
  lemma {:induction false} InjectedColumnFrom(t: Table, cols: seq<string>, k: nat, draws: nat -> real, pos: nat,
                                              scale: real, j: nat, i: nat)
    requires WellFormed(t) && NumericWherePresent(t, cols) && Distinct(cols)
    requires k <= j < |cols| && cols[j] in t.cols && i < t.rows
    ensures NumericColumn(InjectedFrom(t, cols, k, draws, pos, scale), cols[j])
    ensures Values(InjectedFrom(t, cols, k, draws, pos, scale), cols[j])[i]
      == Values(t, cols[j])[i] + Noise(draws, scale, pos + Consumed(t.cols.Keys, cols, k, j, t.rows) + i)
    decreases |cols| - k
  {
    var c := cols[k];
    var keys := t.cols.Keys;
    InjectedFromStep(t, cols, k, draws, pos, scale);
    if k == j {
      var u := AddToColumn(t, c, Samples(draws, pos, scale, t.rows));
      DistinctLater(cols, k);
      InjectedUntouched(u, cols, k + 1, draws, pos + t.rows, scale, c);
      assert Consumed(keys, cols, k, j, t.rows) == 0;
    } else if c in t.cols {
      var u := AddToColumn(t, c, Samples(draws, pos, scale, t.rows));
      InjectedColumnFrom(u, cols, k + 1, draws, pos + t.rows, scale, j, i);
      assert DistinctAt(cols, k, j);
      assert u.cols[cols[j]] == t.cols[cols[j]];
      assert u.cols.Keys == keys;
      assert Consumed(keys, cols, k, j, t.rows) == t.rows + Consumed(keys, cols, k + 1, j, t.rows);
    } else {
      InjectedColumnFrom(t, cols, k + 1, draws, pos, scale, j, i);
      assert Consumed(keys, cols, k, j, t.rows) == Consumed(keys, cols, k + 1, j, t.rows);
    }
  }

  /** One iteration of the noise loop. */
  lemma InjectedFromStep(t: Table, cols: seq<string>, k: nat, draws: nat -> real, pos: nat, scale: real)
    requires WellFormed(t) && NumericWherePresent(t, cols) && k < |cols|
    ensures cols[k] in t.cols ==>
      InjectedFrom(t, cols, k, draws, pos, scale)
        == InjectedFrom(AddToColumn(t, cols[k], Samples(draws, pos, scale, t.rows)), cols, k + 1, draws, pos + t.rows, scale)
    ensures cols[k] !in t.cols ==>
      InjectedFrom(t, cols, k, draws, pos, scale) == InjectedFrom(t, cols, k + 1, draws, pos, scale)
  {
  }

  /** Noise injection in column order, from the start of the list: row `i`
      of the `j`-th listed column, if present, gets the standard sample at
      position `pos + Consumed(...) + i`, scaled. */
  lemma InjectedColumn(t: Table, cols: seq<string>, draws: nat -> real, pos: nat, scale: real, j: nat, i: nat)
    requires WellFormed(t) && NumericWherePresent(t, cols) && Distinct(cols)
    requires j < |cols| && cols[j] in t.cols && i < t.rows
    ensures NumericColumn(Injected(t, cols, draws, pos, scale), cols[j])
    ensures Values(Injected(t, cols, draws, pos, scale), cols[j])[i]
      == Values(t, cols[j])[i] + Noise(draws, scale, pos + CountPresent(t.cols.Keys, cols[..j]) * t.rows + i)
  {
    InjectedColumnFrom(t, cols, 0, draws, pos, scale, j, i);
    ConsumedBlocks(t.cols.Keys, cols, 0, j, t.rows);
    assert cols[0..j] == cols[..j];
  }

  /** How many samples one noisy release consumes, at most and when every
      listed column is present. */
  lemma DrawCount(t: Table, cols: seq<string>)
    ensures CountPresent(t.cols.Keys, cols) * t.rows <= |cols| * t.rows
    ensures (forall c :: c in cols ==> c in t.cols) ==> CountPresent(t.cols.Keys, cols) * t.rows == |cols| * t.rows
  {
    var n := CountPresent(t.cols.Keys, cols);
    assert n * t.rows <= |cols| * t.rows by {
      MultiplyMonotone(n, |cols|, t.rows);
    }
  }

  lemma MultiplyMonotone(a: nat, b: nat, r: nat)
    requires a <= b
    ensures a * r <= b * r
  {
  }
}
