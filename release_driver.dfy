/** The release drivers `run_gaussian_mechanism` and `run_laplace_mechanism`:
    for every registry entry whose baseline CSV exists, and for every epsilon
    of the grid, a fresh generator seeded with the base seed plus the
    epsilon's index, one release, one metric record and one summary row. */
module ReleaseDriver {
  import opened Numerics
  import opened Tables
  import opened DpConfig
  import opened PostProcessing
  import opened NoiseInjection
  import opened Mechanisms
  import opened Metrics

  datatype Mechanism = Gaussian | Laplace

  function MechanismName(mech: Mechanism): string {
    match mech
    case Gaussian => "gaussian"
    case Laplace => "laplace"
  }

  /** The summary's `delta` field: the Gaussian delta, or the text "N/A"
      for the pure-epsilon Laplace mechanism. */
  datatype DeltaField = DeltaValue(value: real) | NotApplicable

  function DeltaOf(mech: Mechanism): DeltaField {
    match mech
    case Gaussian => DeltaValue(DefaultDelta)
    case Laplace => NotApplicable
  }

  /** One summary row: the fixed fields, then the metric record. */
  datatype SummaryRow = SummaryRow(
    queryNum: nat,
    queryFile: string,
    mechanism: string,
    database: string,
    epsilon: string,
    delta: DeltaField,
    seed: nat,
    nRows: nat,
    metrics: MetricRecord)

  /** The fixed inputs of one driver run: the mechanism, the database name
      written into every row, the registry (QUERY_META by query number and
      its iteration order), the standard draws `seedStream(s)` of
      `np.random.default_rng(seed=s)` for every seed `s`, and the numeric
      library. */
  datatype Run = Run(mech: Mechanism, database: string, reg: map<nat, Meta>, order: seq<nat>,
                     seedStream: nat -> (nat -> real), lib: Library)

  ghost predicate RunValid(run: Run) {
    RegistryValid(run.reg, run.order) && Sound(run.lib)
  }

  /** With a database name the command line accepts (`mini` or `full`),
      `build_output_dir` succeeds at every epsilon: its assertions on the
      mechanism and the database name both hold. */
  lemma OutputDirBuilt(run: Run, eps: ExtReal)
    requires run.database in {"mini", "full"}
    ensures BuildOutputDir(MechanismName(run.mech), run.database, eps).Ok?
  {
  }

  /** A baseline the pipeline can perturb and score without raising. */
  predicate Usable(t: Table, m: Meta) {
    Ready(t, m) && MetricInputs(t, t, m)
  }

  /** The baseline directory, as CSV contents by filename: every baseline
      a registry entry reads is usable. */
  predicate BaselinesUsable(run: Run, baselines: map<string, Table>) {
    forall q :: q in run.reg && run.reg[q].filename in baselines ==>
      Usable(baselines[run.reg[q].filename], run.reg[q])
  }

  /** Every finite epsilon of the grid is positive. */
  lemma GridEpsilonPositive(i: nat)
    requires i < |EpsilonValues|
    ensures EpsilonValues[i].Fin? ==> EpsilonValues[i].r > 0.0
  {
    EpsilonGridOrdered();
  }

  /** The table one iteration releases, drawing from a fresh generator
      with the given stream. */
  function Release(run: Run, t: Table, q: nat, eps: ExtReal, draws: nat -> real): (u: Table)
    requires RunValid(run) && q in run.reg && Ready(t, run.reg[q])
    requires eps.Fin? ==> eps.r > 0.0
    ensures u.rows == t.rows && u.cols.Keys == t.cols.Keys
    ensures NoNoise(run.reg[q], eps) ==> u == t
  {
    FilenameLookupRecoversQuery(run.reg, run.order, q);
    match run.mech
    case Gaussian => GaussianRelease(run.reg, run.order, t, run.reg[q], eps, DefaultDelta, run.lib, draws, 0)
    case Laplace => LaplaceRelease(run.reg, t, run.reg[q], eps, q, draws, 0)
  }

  /** A release of a usable baseline can be scored against it: the
      selector columns stay numeric and the row count is kept. */
  lemma ReleaseScorable(run: Run, t: Table, q: nat, eps: ExtReal, draws: nat -> real)
    requires RunValid(run) && q in run.reg && Usable(t, run.reg[q])
    requires eps.Fin? ==> eps.r > 0.0
    ensures MetricInputs(t, Release(run, t, q, eps, draws), run.reg[q])
  {
    var m := run.reg[q];
    if !NoNoise(m, eps) {
      FilenameLookupRecoversQuery(run.reg, run.order, q);
      var scale := if run.mech == Gaussian then GaussianScale(run.reg, run.order, m, eps, DefaultDelta, run.lib)
                   else LaplaceNoiseScale(run.reg, q, eps);
      assert Release(run, t, q, eps, draws) == NoisyRelease(t, m, draws, 0, scale);
      ReleaseScoresLike(t, m, draws, scale);
    }
  }

  lemma ReleaseScoresLike(t: Table, m: Meta, draws: nat -> real, scale: real)
    requires Usable(t, m)
    ensures MetricInputs(t, NoisyRelease(t, m, draws, 0, scale), m)
  {
    var u := NoisyRelease(t, m, draws, 0, scale);
    if m.zscoreCol.Some? && NumericColumn(t, m.zscoreCol.value) {
      ReleaseKeepsNumeric(t, m, draws, 0, scale, m.zscoreCol.value);
    }
    if m.pctCol.Some? && NumericColumn(t, m.pctCol.value) {
      ReleaseKeepsNumeric(t, m, draws, 0, scale, m.pctCol.value);
    }
    if m.rankCol.Some? && NumericColumn(t, m.rankCol.value) {
      ReleaseKeepsNumeric(t, m, draws, 0, scale, m.rankCol.value);
    }
    if m.metricType == "E" {
      forall c | c in m.distCols ensures NumericColumn(u, c) {
        ReleaseKeepsNumeric(t, m, draws, 0, scale, c);
      }
    }
  }

  /** The row iteration `i` of the epsilon loop appends for query `q`. */
  function RowFor(run: Run, q: nat, t: Table, i: nat): SummaryRow
    requires RunValid(run) && q in run.reg && Usable(t, run.reg[q]) && i < |EpsilonValues|
  {
    var eps := EpsilonValues[i];
    GridEpsilonPositive(i);
    var u := Release(run, t, q, eps, run.seedStream(RandomSeed + i));
    ReleaseScorable(run, t, q, eps, run.seedStream(RandomSeed + i));
    SummaryRow(q, run.reg[q].filename, MechanismName(run.mech), run.database, EpsString(eps), DeltaOf(run.mech),
               RandomSeed + i, t.rows, MetricOf(t, u, run.reg[q], run.lib))
  }

  /** The rows one present query contributes: one per epsilon, in grid
      order. */
  function QueryRows(run: Run, q: nat, t: Table): (rows: seq<SummaryRow>)
    requires RunValid(run) && q in run.reg && Usable(t, run.reg[q])
    ensures |rows| == |EpsilonValues|
  {
    seq(|EpsilonValues|, i requires 0 <= i < |EpsilonValues| => RowFor(run, q, t, i))
  }

  /** The block of every registry entry whose baseline file exists. */
  function Blocks(run: Run, baselines: map<string, Table>): (blocks: map<nat, seq<SummaryRow>>)
    requires RunValid(run) && BaselinesUsable(run, baselines)
    ensures forall q :: q in blocks <==> q in run.reg && run.reg[q].filename in baselines
  {
    map q | q in run.reg && run.reg[q].filename in baselines :: QueryRows(run, q, baselines[run.reg[q].filename])
  }

  /** The blocks of the first `k` entries of `order`, concatenated; an entry
      without a block adds nothing. */
  function Concat(order: seq<nat>, blocks: map<nat, seq<SummaryRow>>, k: nat): seq<SummaryRow>
    requires k <= |order|
  {
    if k == 0 then []
    else if order[k - 1] in blocks then Concat(order, blocks, k - 1) + blocks[order[k - 1]]
    else Concat(order, blocks, k - 1)
  }

  /** `all_summary_rows` at the end of the run: the blocks in registry
      iteration order. */
  function Summary(run: Run, baselines: map<string, Table>): seq<SummaryRow>
    requires RunValid(run) && BaselinesUsable(run, baselines)
  {
    Concat(run.order, Blocks(run, baselines), |run.order|)
  }

  /** The executor call of one iteration, dispatched on the mechanism
      (the Gaussian one with the configured delta). */
  method ApplyMechanism(run: Run, trueDf: Frame, q: nat, eps: ExtReal, rng: Rng)
    returns (noisyDf: Frame)
    requires RunValid(run) && q in run.reg && Ready(trueDf.Value(), run.reg[q])
    requires eps.Fin? ==> eps.r > 0.0
    requires rng.pos == 0
    modifies rng
    ensures noisyDf.Value() == Release(run, trueDf.Value(), q, eps, rng.draws)
  {
    FilenameLookupRecoversQuery(run.reg, run.order, q);
    if run.mech == Gaussian {
      noisyDf := ApplyGaussianDp(run.reg, run.order, trueDf, run.reg[q], eps, DefaultDelta, rng, run.lib);
    } else {
      noisyDf := ApplyLaplaceDp(run.reg, trueDf, run.reg[q], eps, rng, q);
    }
  }

  /** One iteration of the epsilon loop: a fresh generator seeded with
      `RANDOM_SEED + i`, the release, its metric record and the summary
      row. The noisy CSV the iteration writes is not modelled. */
  method ReleaseRow(run: Run, q: nat, trueDf: Frame, i: nat) returns (row: SummaryRow)
    requires RunValid(run) && q in run.reg && Usable(trueDf.Value(), run.reg[q]) && i < |EpsilonValues|
    ensures row == RowFor(run, q, trueDf.Value(), i)
  {
    var eps := EpsilonValues[i];
    var seed := RandomSeed + i;
    GridEpsilonPositive(i);
    var rng := new Rng(run.seedStream(seed));
    var noisyDf := ApplyMechanism(run, trueDf, q, eps, rng);
    ReleaseScorable(run, trueDf.Value(), q, eps, run.seedStream(seed));
    var metrics := ComputeMetric(trueDf.Value(), noisyDf.Value(), run.reg[q], run.lib);
    row := SummaryRow(q, run.reg[q].filename, MechanismName(run.mech), run.database, EpsString(eps),
                      DeltaOf(run.mech), seed, trueDf.rows, metrics);
    RowForUnfolds(run, q, trueDf.Value(), i, noisyDf.Value(), metrics);
  }

  lemma RowForUnfolds(run: Run, q: nat, t: Table, i: nat, u: Table, metrics: MetricRecord)
    requires RunValid(run) && q in run.reg && Usable(t, run.reg[q]) && i < |EpsilonValues|
    requires EpsilonValues[i].Fin? ==> EpsilonValues[i].r > 0.0
    requires u == Release(run, t, q, EpsilonValues[i], run.seedStream(RandomSeed + i))
    requires MetricInputs(t, u, run.reg[q]) && metrics == MetricOf(t, u, run.reg[q], run.lib)
    ensures RowFor(run, q, t, i)
      == SummaryRow(q, run.reg[q].filename, MechanismName(run.mech), run.database, EpsString(EpsilonValues[i]),
                    DeltaOf(run.mech), RandomSeed + i, t.rows, metrics)
  {
  }

  /** The epsilon loop for one present query. */
  method RunQuery(run: Run, q: nat, trueDf: Frame) returns (block: seq<SummaryRow>)
    requires RunValid(run) && q in run.reg && Usable(trueDf.Value(), run.reg[q])
    ensures block == QueryRows(run, q, trueDf.Value())
  {
    ghost var t := trueDf.Value();
    ghost var all := QueryRows(run, q, t);
    block := [];
    var i := 0;
    while i < |EpsilonValues|
      invariant i <= |EpsilonValues|
      invariant trueDf.Value() == t
      invariant block == all[..i]
    {
      var row := ReleaseRow(run, q, trueDf, i);
      TakeOneMore(all, i);
      block := block + [row];
      i := i + 1;
    }
    assert all[..i] == all;
  }

  /** The nested loops of either driver: the registry entries in iteration
      order, skipping those whose baseline CSV is missing; `baselines` holds
      the CSV files of the baseline directory by name. */
  method RunMechanism(run: Run, baselines: map<string, Table>) returns (rows: seq<SummaryRow>)
    requires RunValid(run) && BaselinesUsable(run, baselines)
    ensures rows == Summary(run, baselines)
  {
    ghost var blocks := Blocks(run, baselines);
    rows := [];
    var k := 0;
    while k < |run.order|
      invariant k <= |run.order|
      invariant rows == Concat(run.order, blocks, k)
    {
      rows := VisitEntry(run, baselines, k, rows, blocks);
      k := k + 1;
    }
  }

  /** One pass of the loop over the registry: the rows of entry `k` when its
      baseline was exported, and a skip otherwise. */
  method VisitEntry(run: Run, baselines: map<string, Table>, k: nat, rows: seq<SummaryRow>,
                    ghost blocks: map<nat, seq<SummaryRow>>)
    returns (rows': seq<SummaryRow>)
    requires RunValid(run) && BaselinesUsable(run, baselines) && k < |run.order|
    requires blocks == Blocks(run, baselines) && rows == Concat(run.order, blocks, k)
    ensures rows' == Concat(run.order, blocks, k + 1)
  {
    var q := run.order[k];
    var filename := run.reg[q].filename;
    SummaryStep(run, baselines, k);
    rows' := rows;
    if filename in baselines {
      var trueDf := new Frame(baselines[filename]);
      var block := RunQuery(run, q, trueDf);
      rows' := rows + block;
    }
  }

  /** One step of the outer loop appends the block of the entry it visits,
      or nothing when its baseline is missing. */
  lemma SummaryStep(run: Run, baselines: map<string, Table>, k: nat)
    requires RunValid(run) && BaselinesUsable(run, baselines) && k < |run.order|
    ensures run.reg[run.order[k]].filename in baselines ==>
      Concat(run.order, Blocks(run, baselines), k + 1)
        == Concat(run.order, Blocks(run, baselines), k)
           + QueryRows(run, run.order[k], baselines[run.reg[run.order[k]].filename])
    ensures run.reg[run.order[k]].filename !in baselines ==>
      Concat(run.order, Blocks(run, baselines), k + 1) == Concat(run.order, Blocks(run, baselines), k)
  {
  }

  // ----- What the summary holds -----

  /** The rows of the summary that belong to query `q`, in order. */
  function RowsOf(rows: seq<SummaryRow>, q: nat): (r: seq<SummaryRow>)
    ensures |r| <= |rows|
    ensures forall j :: 0 <= j < |r| ==> r[j].queryNum == q
  {
    if |rows| == 0 then []
    else (if rows[0].queryNum == q then [rows[0]] else []) + RowsOf(rows[1..], q)
  }

  lemma {:induction false} RowsOfAppend(a: seq<SummaryRow>, b: seq<SummaryRow>, q: nat)
    ensures RowsOf(a + b, q) == RowsOf(a, q) + RowsOf(b, q)
  {
    if |a| > 0 {
      assert (a + b)[1..] == a[1..] + b;
      RowsOfAppend(a[1..], b, q);
    } else {
      assert a + b == b;
    }
  }

  /** Rows that all belong to `p`: query `q` finds all of them when it is
      `p` and none otherwise. */
  lemma {:induction false} RowsOfUniform(rows: seq<SummaryRow>, p: nat, q: nat)
    requires forall j :: 0 <= j < |rows| ==> rows[j].queryNum == p
    ensures RowsOf(rows, q) == if p == q then rows else []
  {
    if |rows| > 0 {
      RowsOfUniform(rows[1..], p, q);
      if p == q {
        assert [rows[0]] + rows[1..] == rows;
      }
    }
  }

  /** Every row built for query `q` carries its number, its file, the
      seed `RANDOM_SEED + i`, the epsilon label, the delta field of its
      mechanism and the baseline's row count. */
  lemma QueryRowFields(run: Run, q: nat, t: Table, i: nat)
    requires RunValid(run) && q in run.reg && Usable(t, run.reg[q]) && i < |EpsilonValues|
    ensures QueryRows(run, q, t)[i].queryNum == q
    ensures QueryRows(run, q, t)[i].queryFile == run.reg[q].filename
    ensures QueryRows(run, q, t)[i].seed == RandomSeed + i
    ensures QueryRows(run, q, t)[i].nRows == t.rows
    ensures QueryRows(run, q, t)[i].epsilon == "inf" <==> i == |EpsilonValues| - 1
    ensures run.mech == Laplace ==> QueryRows(run, q, t)[i].delta == NotApplicable
    ensures run.mech == Gaussian ==> QueryRows(run, q, t)[i].delta == DeltaValue(0.000001)
  {
    EpsilonGridOrdered();
    EpsStringInf(EpsilonValues[i]);
  }

  /** Blocks whose rows all carry the key they are filed under. */
  predicate Tagged(blocks: map<nat, seq<SummaryRow>>) {
    forall q, j :: q in blocks && 0 <= j < |blocks[q]| ==> blocks[q][j].queryNum == q
  }

  /** After the first `k` entries of a duplicate-free order, the rows of
      query `q` are its block when `q` is among them and has one, and none
      otherwise. */
  lemma {:induction false} RowsOfConcat(order: seq<nat>, blocks: map<nat, seq<SummaryRow>>, k: nat, q: nat)
    requires Distinct(order) && Tagged(blocks) && k <= |order|
    ensures RowsOf(Concat(order, blocks, k), q) == if q in order[..k] && q in blocks then blocks[q] else []
  {
    if k > 0 {
      var p := order[k - 1];
      assert order[..k] == order[..k - 1] + [p];
      forall m | 0 <= m < k - 1 ensures order[m] != p {
        assert DistinctAt(order, m, k - 1);
      }
      assert p == q ==> q !in order[..k - 1];
      RowsOfConcat(order, blocks, k - 1, q);
      if p in blocks {
        RowsOfAppend(Concat(order, blocks, k - 1), blocks[p], q);
        RowsOfUniform(blocks[p], p, q);
      }
    }
  }

  /** Every block of a run is filed under its own query number. */
  lemma BlocksTagged(run: Run, baselines: map<string, Table>)
    requires RunValid(run) && BaselinesUsable(run, baselines)
    ensures Tagged(Blocks(run, baselines))
  {
    var blocks: map<nat, seq<SummaryRow>> := Blocks(run, baselines);
    forall q: nat, j: int | q in blocks && 0 <= j < |blocks[q]| ensures blocks[q][j].queryNum == q {
      QueryRowFields(run, q, baselines[run.reg[q].filename], j);
    }
  }

  /** Each registry entry whose baseline exists contributes exactly one row
      per epsilon of the grid, and one whose baseline is missing none. */
  lemma RowsPerQuery(run: Run, baselines: map<string, Table>, q: nat)
    requires RunValid(run) && BaselinesUsable(run, baselines) && q in run.reg
    ensures run.reg[q].filename in baselines ==>
      RowsOf(Summary(run, baselines), q) == QueryRows(run, q, baselines[run.reg[q].filename])
    ensures |RowsOf(Summary(run, baselines), q)| == if run.reg[q].filename in baselines then |EpsilonValues| else 0
  {
    assert run.order[..|run.order|] == run.order;
    BlocksTagged(run, baselines);
    RowsOfConcat(run.order, Blocks(run, baselines), |run.order|, q);
  }

  /** At epsilon = inf the release is the baseline itself, so the row
      scores the baseline against itself. */
  lemma InfRowScoresBaseline(run: Run, q: nat, t: Table)
    requires RunValid(run) && q in run.reg && Usable(t, run.reg[q])
    ensures QueryRows(run, q, t)[|EpsilonValues| - 1].metrics == MetricOf(t, t, run.reg[q], run.lib)
  {
    var i := |EpsilonValues| - 1;
    assert EpsilonValues[i] == Inf;
    GridEpsilonPositive(i);
    assert Release(run, t, q, Inf, run.seedStream(RandomSeed + i)) == t;
  }

  /** A query that declares no noise-bearing column is released unchanged
      at every epsilon, so each of its rows scores the baseline against
      itself. */
  lemma UnperturbedRowsScoreBaseline(run: Run, q: nat, t: Table, i: nat)
    requires RunValid(run) && q in run.reg && Usable(t, run.reg[q]) && i < |EpsilonValues|
    requires run.reg[q].numericCols == []
    ensures QueryRows(run, q, t)[i].metrics == MetricOf(t, t, run.reg[q], run.lib)
  {
    GridEpsilonPositive(i);
    assert Release(run, t, q, EpsilonValues[i], run.seedStream(RandomSeed + i)) == t;
  }

  /** A query scored by its winner column and declaring no noise-bearing
      column has top-1 accuracy 1.0 in every row, when the baseline carries
      the winner column. */
  lemma WinnerRowsExact(run: Run, q: nat, t: Table, i: nat)
    requires RunValid(run) && q in run.reg && Usable(t, run.reg[q]) && i < |EpsilonValues|
    requires run.reg[q].numericCols == [] && run.reg[q].metricType == "D"
    requires run.reg[q].winnerCol.Some? && run.reg[q].winnerCol.value in t.cols
    ensures QueryRows(run, q, t)[i].metrics == MetricD(Val(1.0))
  {
    UnperturbedRowsScoreBaseline(run, q, t, i);
    MetricDIdentical(t, t, run.reg[q].winnerCol.value);
  }

  /** Query 6 of the shipped registry (the most popular browser of each
      country) is such a query: all its rows report accuracy 1.0. */
  lemma Query6RowsExact(run: Run, t: Table, i: nat)
    requires RunValid(run) && 6 in run.reg && run.reg[6] == Query6 && Usable(t, Query6) && i < |EpsilonValues|
    requires "browser" in t.cols
    ensures QueryRows(run, 6, t)[i].metrics == MetricD(Val(1.0))
  {
    WinnerRowsExact(run, 6, t, i);
  }
}
