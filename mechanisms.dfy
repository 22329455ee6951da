/** The two mechanism executors, `apply_gaussian_dp` and `apply_laplace_dp`:
    copy the true table; return the copy untouched at epsilon = inf or when
    the query declares no noise-bearing column; otherwise add one noise
    sample per row to each declared column the table carries, in declaration
    order, and post-process. They differ only in how the scale is found. */
module Mechanisms {
  import opened Numerics
  import opened Tables
  import opened DpConfig
  import opened PostProcessing
  import opened NoiseInjection

  // ----- Finding the query number -----

  /** `list.index(x)`: the first position holding `x`. */
  function FirstIndex(s: seq<string>, x: string): (i: nat)
    requires x in s
    ensures i < |s| && s[i] == x
    ensures forall j :: 0 <= j < i ==> s[j] != x
  {
    if s[0] == x then 0 else 1 + FirstIndex(s[1..], x)
  }

  /** The Gaussian executor's lookup of the query number: the key at the
      position of the first registry entry carrying the given filename. */
  function QueryNumberOf(reg: map<nat, Meta>, order: seq<nat>, filename: string): (q: nat)
    requires forall i :: 0 <= i < |order| ==> order[i] in reg
    requires filename in Filenames(reg, order)
    ensures q in reg && q in order && reg[q].filename == filename
  {
    order[FirstIndex(Filenames(reg, order), filename)]
  }

  /** Because registry filenames are distinct, the lookup recovers the
      number of the query whose descriptor was passed. */
  lemma FilenameLookupRecoversQuery(reg: map<nat, Meta>, order: seq<nat>, q: nat)
    requires RegistryValid(reg, order) && q in reg
    ensures reg[q].filename in Filenames(reg, order)
    ensures QueryNumberOf(reg, order, reg[q].filename) == q
  {
    var j :| 0 <= j < |order| && order[j] == q;
    FirstIndexOfDistinct(Filenames(reg, order), j);
  }

  /** In a sequence without repetitions, `index` finds each element at its
      own position. */
  lemma FirstIndexOfDistinct(s: seq<string>, j: nat)
    requires Distinct(s) && j < |s|
    ensures FirstIndex(s, s[j]) == j
  {
    var i := FirstIndex(s, s[j]);
    assert i == j || DistinctAt(s, i, j);
  }

  // ----- The executors -----

  /** Whether the executors return the copy untouched. */
  predicate NoNoise(m: Meta, eps: ExtReal) {
    m.numericCols == [] || eps == Inf
  }

  /** Once the noise has been added the table is still ready for
      post-processing. */
  lemma InjectedReady(t: Table, m: Meta, draws: nat -> real, start: nat, scale: real)
    requires Ready(t, m)
    ensures Ready(Injected(t, m.numericCols, draws, start, scale), m)
  {
    var u := Injected(t, m.numericCols, draws, start, scale);
    if HasPctColumn(u, m.pctCol) {
      InjectedKeepsNumeric(t, m.numericCols, 0, draws, start, scale, m.pctCol.value);
    }
    if |m.distCols| > 0 {
      forall c | c in m.distCols ensures NumericColumn(u, c) {
        InjectedKeepsNumeric(t, m.numericCols, 0, draws, start, scale, c);
      }
    }
  }

  /** The shared noisy branch of both executors: noise with the given
      scale, then post-processing. */
  function NoisyRelease(t: Table, m: Meta, draws: nat -> real, start: nat, scale: real): (r: Table)
    requires Ready(t, m)
    ensures r.rows == t.rows && r.cols.Keys == t.cols.Keys
  {
    InjectedReady(t, m, draws, start, scale);
    PostProcessed(Injected(t, m.numericCols, draws, start, scale), m)
  }

  /** The Gaussian noise scale of a query, found through its filename. */
  function GaussianScale(reg: map<nat, Meta>, order: seq<nat>, m: Meta, eps: ExtReal, delta: real, lib: Library): real
    requires RegistryValid(reg, order) && m.filename in Filenames(reg, order) && Sound(lib)
    requires eps.Fin? && eps.r > 0.0 && delta != 0.0
  {
    GaussianSigma(GetL2Sensitivity(reg, QueryNumberOf(reg, order, m.filename), lib), eps, delta, lib).r
  }

  /** The scale is calibrated to the L2 sensitivity of the query the
      filename names: sigma * epsilon = l2 * sqrt(2 ln(1.25 / delta)). */
  lemma GaussianScaleCalibrated(reg: map<nat, Meta>, order: seq<nat>, m: Meta, eps: ExtReal, delta: real, lib: Library)
    requires RegistryValid(reg, order) && m.filename in Filenames(reg, order) && Sound(lib)
    requires eps.Fin? && eps.r > 0.0 && delta != 0.0
    ensures GaussianScale(reg, order, m, eps, delta, lib) * eps.r
      == GetL2Sensitivity(reg, QueryNumberOf(reg, order, m.filename), lib) * GaussianFactor(delta, lib)
  {
  }

  /** The table `apply_gaussian_dp` returns, given the generator's stream
      and position. */
  function GaussianRelease(reg: map<nat, Meta>, order: seq<nat>, t: Table, m: Meta, eps: ExtReal, delta: real,
                           lib: Library, draws: nat -> real, start: nat): (r: Table)
    requires Ready(t, m) && Sound(lib)
    requires !NoNoise(m, eps) ==>
      RegistryValid(reg, order) && m.filename in Filenames(reg, order) && eps.r > 0.0 && delta != 0.0
    ensures r.rows == t.rows && r.cols.Keys == t.cols.Keys
  {
    if NoNoise(m, eps) then t
    else NoisyRelease(t, m, draws, start, GaussianScale(reg, order, m, eps, delta, lib))
  }

  /** The Laplace noise scale of a query, found through its number. */
  function LaplaceNoiseScale(reg: map<nat, Meta>, q: nat, eps: ExtReal): (b: real)
    requires q in reg && WellFormedMeta(reg[q]) && eps.Fin? && eps.r > 0.0
    ensures b * eps.r == GetL1Sensitivity(reg, q)
    ensures b >= 0.0
  {
    var b := LaplaceScale(GetL1Sensitivity(reg, q), eps).r;
    NonNegativeQuotient(GetL1Sensitivity(reg, q), eps.r);
    b
  }

  lemma NonNegativeQuotient(a: real, e: real)
    requires a >= 0.0 && e > 0.0
    ensures a / e >= 0.0
  {
  }

  /** The table `apply_laplace_dp` returns, given the generator's stream
      and position. */
  function LaplaceRelease(reg: map<nat, Meta>, t: Table, m: Meta, eps: ExtReal, q: nat,
                          draws: nat -> real, start: nat): (r: Table)
    requires Ready(t, m)
    requires !NoNoise(m, eps) ==> q in reg && WellFormedMeta(reg[q]) && eps.r > 0.0
    ensures r.rows == t.rows && r.cols.Keys == t.cols.Keys
  {
    if NoNoise(m, eps) then t
    else NoisyRelease(t, m, draws, start, LaplaceNoiseScale(reg, q, eps))
  }

  /** `apply_gaussian_dp`. The generator advances by one block of rows for
      each declared column the table carries, and not at all when no noise
      is added; the input frame is left as it was. */
  method ApplyGaussianDp(reg: map<nat, Meta>, order: seq<nat>, trueDf: Frame, m: Meta, eps: ExtReal, delta: real,
                         rng: Rng, lib: Library)
    returns (noisy: Frame)
    requires Ready(trueDf.Value(), m) && Sound(lib)
    requires !NoNoise(m, eps) ==>
      RegistryValid(reg, order) && m.filename in Filenames(reg, order) && eps.r > 0.0 && delta != 0.0
    modifies rng
    ensures fresh(noisy)
    ensures noisy.Value() == GaussianRelease(reg, order, trueDf.Value(), m, eps, delta, lib, rng.draws, old(rng.pos))
    ensures NoNoise(m, eps) ==> noisy.Value() == trueDf.Value() && rng.pos == old(rng.pos)
    ensures !NoNoise(m, eps) ==>
      rng.pos == old(rng.pos) + CountPresent(trueDf.cols.Keys, m.numericCols) * trueDf.rows
  {
    noisy := trueDf.Copy();
    if m.numericCols == [] || eps == Inf {
      return;
    }
    var q := QueryNumberOf(reg, order, m.filename);
    var l2 := GetL2Sensitivity(reg, q, lib);
    var sigma := GaussianSigma(l2, eps, delta, lib);
    AddNoise(noisy, m.numericCols, rng, sigma.r);
    InjectedReady(trueDf.Value(), m, rng.draws, old(rng.pos), sigma.r);
    noisy := PostProcess(noisy, m);
  }

  /** `apply_laplace_dp`, with the query number passed in. */
  method ApplyLaplaceDp(reg: map<nat, Meta>, trueDf: Frame, m: Meta, eps: ExtReal, rng: Rng, q: nat)
    returns (noisy: Frame)
    requires Ready(trueDf.Value(), m)
    requires !NoNoise(m, eps) ==> q in reg && WellFormedMeta(reg[q]) && eps.r > 0.0
    modifies rng
    ensures fresh(noisy)
    ensures noisy.Value() == LaplaceRelease(reg, trueDf.Value(), m, eps, q, rng.draws, old(rng.pos))
    ensures NoNoise(m, eps) ==> noisy.Value() == trueDf.Value() && rng.pos == old(rng.pos)
    ensures !NoNoise(m, eps) ==>
      rng.pos == old(rng.pos) + CountPresent(trueDf.cols.Keys, m.numericCols) * trueDf.rows
  {
    noisy := trueDf.Copy();
    if m.numericCols == [] || eps == Inf {
      return;
    }
    var l1 := GetL1Sensitivity(reg, q);
    var scale := LaplaceScale(l1, eps);
    AddNoise(noisy, m.numericCols, rng, scale.r);
    InjectedReady(trueDf.Value(), m, rng.draws, old(rng.pos), scale.r);
    noisy := PostProcess(noisy, m);
  }

  // ----- What a release guarantees -----

  /** A release changes only declared columns: every column outside
      `numeric_cols` (and outside the percentage and distribution columns,
      which the registry keeps among them) is the true column. */
  lemma ReleaseKeepsUndeclared(t: Table, m: Meta, draws: nat -> real, start: nat, scale: real, c: string)
    requires Ready(t, m) && c in t.cols
    requires c !in m.numericCols && c !in m.distCols && !(HasPctColumn(t, m.pctCol) && c == m.pctCol.value)
    ensures NoisyRelease(t, m, draws, start, scale).cols[c] == t.cols[c]
  {
    InjectedReady(t, m, draws, start, scale);
    var u := Injected(t, m.numericCols, draws, start, scale);
    var c1 := Clamped(u, m.numericCols);
    InjectedKeepsUnlisted(t, m.numericCols, draws, start, scale, c);
    assert c1.cols[c] == u.cols[c];
  }

  /** Every declared column a noisy release carries is non-negative, for
      either mechanism. */
  lemma ReleaseNonNegative(t: Table, m: Meta, draws: nat -> real, start: nat, scale: real, c: string)
    requires Ready(t, m) && c in m.numericCols && c in t.cols
    ensures NumericColumn(NoisyRelease(t, m, draws, start, scale), c)
    ensures NonNegative(Values(NoisyRelease(t, m, draws, start, scale), c))
  {
    InjectedReady(t, m, draws, start, scale);
    DeclaredColumnsNonNegative(Injected(t, m.numericCols, draws, start, scale), m, c);
  }

  /** A numeric column of the true table is a numeric column of the noisy
      release. */
  lemma ReleaseKeepsNumeric(t: Table, m: Meta, draws: nat -> real, start: nat, scale: real, c: string)
    requires Ready(t, m) && NumericColumn(t, c)
    ensures NumericColumn(NoisyRelease(t, m, draws, start, scale), c)
  {
    InjectedReady(t, m, draws, start, scale);
    InjectedKeepsNumeric(t, m.numericCols, 0, draws, start, scale, c);
  }
}
