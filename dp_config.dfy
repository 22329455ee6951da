/** The sensitivity registry and noise calibrators shared by both mechanisms:
    the epsilon grid, the delta constant, the base seed, the per-query
    descriptors, the L1 and L2 sensitivity norms, the Laplace and Gaussian
    scale functions and the output-directory naming. */
module DpConfig {
  import opened Numerics

  const RandomSeed: nat := 42

  /** Delta of the Gaussian mechanism (1e-6). */
  const DefaultDelta: real := 0.000001

  /** The epsilon grid, from very strong privacy to none. */
  const EpsilonValues: seq<ExtReal> := [
    Fin(0.01), Fin(0.05), Fin(0.1), Fin(0.5), Fin(1.0), Fin(2.0),
    Fin(5.0), Fin(10.0), Fin(20.0), Fin(50.0), Inf]

  /** One registry entry. `None` or an empty list stands for a key the
      Python dictionary does not carry; `sensitivity` keeps the dictionary's
      insertion order. The informational `group_col` is not modelled. */
  datatype Meta = Meta(
    filename: string,
    numericCols: seq<string>,
    zscoreCol: Option<string>,
    pctCol: Option<string>,
    rankCol: Option<string>,
    winnerCol: Option<string>,
    distCols: seq<string>,
    metricType: string,
    sensitivity: seq<(string, real)>)

  /** The web-category columns of query 8, in declaration order. */
  const WebCategories: seq<string> := [
    "content_creation_photo_edit_creation",
    "content_creation_video_audio_edit_creation",
    "content_creation_web_design_development",
    "education", "entertainment_music_audio_streaming",
    "entertainment_other", "entertainment_video_streaming",
    "finance", "games_other", "games_video_games",
    "mail", "news", "unclassified", "private",
    "productivity_crm", "productivity_other",
    "productivity_presentations", "productivity_programming",
    "productivity_project_management", "productivity_spreadsheets",
    "productivity_word_processing", "recreation_travel",
    "reference", "search", "shopping",
    "social_social_network", "social_communication",
    "social_communication_live"]

  /** The dictionary comprehension `{col: 1.0 for col in cols}`. */
  function UnitSensitivities(cols: seq<string>): (s: seq<(string, real)>)
    ensures |s| == |cols|
    ensures forall i :: 0 <= i < |cols| ==> s[i] == (cols[i], 1.0)
  {
    seq(|cols|, i requires 0 <= i < |cols| => (cols[i], 1.0))
  }

  // ----- One constant per QUERY_META entry -----
  // Each filename is written as the concatenation of its words: the same
  // string, in a form whose characters the verifier reaches cheaply.

  const Query1: Meta := Meta("battery" + "_power" + "_on" + "_geographic" + "_summary" + ".csv",
      ["number_of_systems", "avg_number_of_dc_powerons", "avg_duration"],
      Some("avg_duration"), None, None, None, [], "A",
      [("number_of_systems", 1.0), ("avg_number_of_dc_powerons", 10.0), ("avg_duration", 60.0)])

  const Query2: Meta := Meta("battery" + "_on" + "_duration" + "_by" + "_cpu" + "_family" + "_and" + "_generation" + ".csv",
      ["number_of_systems", "avg_duration_mins_on_battery"],
      Some("avg_duration_mins_on_battery"), None, None, None, [], "A",
      [("number_of_systems", 1.0), ("avg_duration_mins_on_battery", 60.0)])

  const Query3: Meta := Meta("display" + "_devices" + "_connection" + "_type" + "_resolution" + "_durations" + ".csv",
      ["number_of_systems", "average_duration_on_ac_in_seconds", "average_duration_on_dc_in_seconds"],
      None, None, Some("average_duration_on_ac_in_seconds"), None, [], "C",
      [("number_of_systems", 1.0), ("average_duration_on_ac_in_seconds", 3600.0),
       ("average_duration_on_dc_in_seconds", 3600.0)])

  const Query4: Meta := Meta("display" + "_devices" + "_vendors" + "_percentage" + ".csv",
      ["number_of_systems", "percentage_of_systems"],
      None, Some("percentage_of_systems"), None, None, [], "B",
      [("number_of_systems", 1.0), ("percentage_of_systems", 1.0)])

  const Query5: Meta := Meta("mods" + "_blockers" + "_by" + "_os" + "_name" + "_and" + "_codename" + ".csv",
      ["num_entries", "number_of_systems", "entries_per_system"],
      Some("entries_per_system"), None, None, None, [], "A",
      [("num_entries", 1.0), ("number_of_systems", 1.0), ("entries_per_system", 5.0)])

  const Query6: Meta := Meta("most" + "_popular" + "_browser" + "_in" + "_each" + "_country" + ".csv",
      [], None, None, None, Some("browser"), [], "D", [])

  const Query7: Meta := Meta("on" + "_off" + "_mods" + "_sleep" + "_summary" + "_by" + "_cpu" + ".csv",
      ["number_of_systems", "avg_on_time", "avg_off_time", "avg_modern_sleep_time",
       "avg_sleep_time", "avg_total_time", "avg_pcnt_on_time", "avg_pcnt_off_time",
       "avg_pcnt_mods_time", "avg_pcnt_sleep_time"],
      Some("avg_modern_sleep_time"), None, None, None, [], "A",
      [("number_of_systems", 1.0), ("avg_on_time", 1440.0), ("avg_off_time", 1440.0),
       ("avg_modern_sleep_time", 1440.0), ("avg_sleep_time", 1440.0), ("avg_total_time", 1440.0),
       ("avg_pcnt_on_time", 100.0), ("avg_pcnt_off_time", 100.0), ("avg_pcnt_mods_time", 100.0),
       ("avg_pcnt_sleep_time", 100.0)])

  const Query8: Meta := Meta("persona" + "_web" + "_category" + "_usage" + "_analysis" + ".csv",
      ["number_of_systems", "days"] + WebCategories,
      None, None, None, None, WebCategories, "E",
      UnitSensitivities(WebCategories) + [("number_of_systems", 1.0), ("days", 1.0)])

  const Query9: Meta := Meta("package" + "_power" + "_by" + "_country" + ".csv",
      ["number_of_systems", "avg_pkg_power_consumed"],
      Some("avg_pkg_power_consumed"), None, None, None, [], "A",
      [("number_of_systems", 1.0), ("avg_pkg_power_consumed", 50.0)])

  const Query10: Meta := Meta("popular" + "_browsers" + "_by" + "_count" + "_usage" + "_percentage" + ".csv",
      ["percent_systems", "percent_instances", "percent_duration"],
      None, Some("percent_systems"), Some("percent_systems"), None, [], "B",
      [("percent_systems", 1.0), ("percent_instances", 1.0), ("percent_duration", 1.0)])

  const Query11: Meta := Meta("ram" + "_utilization" + "_histogram" + ".csv",
      ["number_of_systems", "avg_percentage_used"],
      None, Some("avg_percentage_used"), None, None, [], "B",
      [("number_of_systems", 1.0), ("avg_percentage_used", 100.0)])

  const Query12: Meta := Meta("ranked" + "_process" + "_classifications" + ".csv",
      ["total_power_consumption"],
      None, None, Some("total_power_consumption"), None, [], "C",
      [("total_power_consumption", 100.0)])

  /** QUERY_META. */
  const Registry: map<nat, Meta> := map[
    1 := Query1,
    2 := Query2,
    3 := Query3,
    4 := Query4,
    5 := Query5,
    6 := Query6,
    7 := Query7,
    8 := Query8,
    9 := Query9,
    10 := Query10,
    11 := Query11,
    12 := Query12]

  /** The dictionary's iteration order, `QUERY_META.keys()`. */
  const QueryOrder: seq<nat> := [1, 2, 3, 4, 5, 6, 7, 8, 9, 10, 11, 12]

  function SensitivityKeys(sens: seq<(string, real)>): seq<string> {
    seq(|sens|, i requires 0 <= i < |sens| => sens[i].0)
  }

  function SensitivityValues(sens: seq<(string, real)>): seq<real> {
    seq(|sens|, i requires 0 <= i < |sens| => sens[i].1)
  }

  /** No column is listed twice, in any of the three column lists. */
  predicate ColumnsDistinct(m: Meta) {
    && Distinct(m.numericCols)
    && Distinct(SensitivityKeys(m.sensitivity))
    && Distinct(m.distCols)
  }

  /** One positive sensitivity for each noise-bearing column, keyed by
      that column. */
  predicate SensitivityCovers(m: Meta) {
    && |m.sensitivity| == |m.numericCols|
    && (forall i :: 0 <= i < |m.sensitivity| ==> m.sensitivity[i].0 in m.numericCols)
    && (forall i :: 0 <= i < |m.sensitivity| ==> m.sensitivity[i].1 > 0.0)
  }

  /** Every metric selector among the noise-bearing columns (the winner
      column outside them), the selector its metric type reads present, and
      no column both the percentage column and a distribution column. */
  predicate SelectorsPlaced(m: Meta) {
    && (m.zscoreCol.Some? ==> m.zscoreCol.value in m.numericCols)
    && (m.pctCol.Some? ==> m.pctCol.value in m.numericCols)
    && (m.rankCol.Some? ==> m.rankCol.value in m.numericCols)
    && (m.winnerCol.Some? ==> m.winnerCol.value !in m.numericCols)
    && (forall c :: c in m.distCols ==> c in m.numericCols)
    && (m.pctCol.Some? ==> m.pctCol.value !in m.distCols)
    && (m.metricType == "A" ==> m.zscoreCol.Some?)
    && (m.metricType == "B" ==> m.pctCol.Some?)
    && (m.metricType == "C" ==> m.rankCol.Some?)
    && (m.metricType == "D" ==> m.winnerCol.Some?)
    && (m.metricType == "E" ==> m.distCols != [])
    && m.metricType in {"A", "B", "C", "D", "E"}
  }

  /** What a registry entry must satisfy. */
  predicate WellFormedMeta(m: Meta) {
    ColumnsDistinct(m) && SensitivityCovers(m) && SelectorsPlaced(m)
  }

  /** The filenames of a registry's entries, in the given iteration order
      (`[v["filename"] for v in QUERY_META.values()]`). */
  function Filenames(registry: map<nat, Meta>, order: seq<nat>): (fs: seq<string>)
    requires forall i :: 0 <= i < |order| ==> order[i] in registry
    ensures |fs| == |order|
    ensures forall i :: 0 <= i < |order| ==> fs[i] == registry[order[i]].filename
  {
    seq(|order|, i requires 0 <= i < |order| => registry[order[i]].filename)
  }

  /** What every registry keeps and the release code relies on: the
      iteration order lists each key exactly once, every entry is well
      formed, and no two entries share a filename. Operations take the
      registry as a parameter; `Registry` is the one the repository ships. */
  predicate RegistryValid(reg: map<nat, Meta>, order: seq<nat>) {
    && Distinct(order)
    && (forall i :: 0 <= i < |order| ==> order[i] in reg)
    && (forall q :: q in reg ==> q in order)
    && (forall q :: q in reg ==> WellFormedMeta(reg[q]))
    && Distinct(Filenames(reg, order))
  }

  // ----- Registry facts, one lemma per entry to keep each proof small -----

  /** The shipped registry keeps the registry invariant. */
  lemma ShippedRegistryValid()
    ensures RegistryValid(Registry, QueryOrder)
  {
    QueryOrderLists();
    RegistryWellFormed();
    FilenamesDistinct();
  }

  lemma QueryOrderLists()
    ensures Distinct(QueryOrder)
    ensures forall i :: 0 <= i < |QueryOrder| ==> QueryOrder[i] in Registry
    ensures forall q :: q in Registry ==> q in QueryOrder
    ensures forall i, j :: 0 <= i < j < |QueryOrder| ==> QueryOrder[i] < QueryOrder[j]
  {
    QueryOrderCounts();
    RegistryKeys();
  }

  lemma QueryOrderCounts()
    ensures |QueryOrder| == 12
    ensures forall i :: 0 <= i < |QueryOrder| ==> QueryOrder[i] == i + 1
  {
  }

  lemma RegistryKeys()
    ensures forall q :: q in Registry <==> 1 <= q <= 12
  {
  }

  lemma WellFormed1() ensures WellFormedMeta(Query1) {}
  lemma WellFormed2() ensures WellFormedMeta(Query2) {}
  lemma WellFormed3() ensures WellFormedMeta(Query3) {}
  lemma WellFormed4() ensures WellFormedMeta(Query4) {}
  lemma WellFormed5() ensures WellFormedMeta(Query5) {}
  lemma WellFormed6() ensures WellFormedMeta(Query6) {}
  lemma WellFormed7() ensures WellFormedMeta(Query7)
  {
    assert SensitivityKeys(Query7.sensitivity) == Query7.numericCols;
    Columns7Distinct();
    Sensitivity7Covers();
  }

  lemma Columns7Distinct() ensures Distinct(Query7.numericCols) {}
  lemma Sensitivity7Covers() ensures SensitivityCovers(Query7) {}

  lemma WellFormed8() ensures WellFormedMeta(Query8)
  {
    Keys8();
    Columns8Distinct();
    WebCategoriesDistinct();
    Sensitivity8Covers();
    Selectors8Placed();
  }

  lemma Columns8Distinct()
    ensures Distinct(Query8.numericCols)
    ensures Distinct(WebCategories + ["number_of_systems", "days"])
  {
    WebCategoriesDistinct();
    CountersNotWebCategories();
    var counters := ["number_of_systems", "days"];
    assert Distinct(counters);
    assert forall x :: x in WebCategories ==> x !in counters;
    DistinctAppend(counters, WebCategories);
    DistinctAppend(WebCategories, counters);
  }

  lemma CountersNotWebCategories()
    ensures "number_of_systems" !in WebCategories && "days" !in WebCategories
  {
  }

  lemma WebCategoriesDistinct() ensures Distinct(WebCategories)
  {
    forall i, j | 0 <= i < j < |WebCategories| ensures DistinctAt(WebCategories, i, j) {
      assert WebCategories[i] != WebCategories[j];
    }
  }

  /** Two duplicate-free lists with no common element concatenate to a
      duplicate-free list. */
  lemma DistinctAppend<T>(a: seq<T>, b: seq<T>)
    requires Distinct(a) && Distinct(b)
    requires forall x :: x in a ==> x !in b
    ensures Distinct(a + b)
  {
    forall i, j | 0 <= i < j < |a + b|
      ensures DistinctAt(a + b, i, j)
    {
      if j < |a| {
        assert DistinctAt(a, i, j);
      } else if i >= |a| {
        assert DistinctAt(b, i - |a|, j - |a|);
        assert (a + b)[i] == b[i - |a|];
      } else {
        assert (a + b)[i] in a;
        assert (a + b)[j] == b[j - |a|];
      }
    }
  }

  lemma Keys8()
    ensures SensitivityKeys(Query8.sensitivity) == WebCategories + ["number_of_systems", "days"]
  {
    var sens := Query8.sensitivity;
    var counters := ["number_of_systems", "days"];
    var u := UnitSensitivities(WebCategories);
    assert sens == u + [("number_of_systems", 1.0), ("days", 1.0)];
    forall i | 0 <= i < |sens|
      ensures sens[i].0 == (WebCategories + counters)[i]
    {
      if i < |u| {
        assert sens[i] == u[i];
      }
    }
  }

  lemma Sensitivity8Covers() ensures SensitivityCovers(Query8) {}
  lemma Selectors8Placed() ensures SelectorsPlaced(Query8) {}

  lemma WellFormed9() ensures WellFormedMeta(Query9) {}
  lemma WellFormed10() ensures WellFormedMeta(Query10) {}
  lemma WellFormed11() ensures WellFormedMeta(Query11) {}
  lemma WellFormed12() ensures WellFormedMeta(Query12) {}

  /** Every registry entry is well formed. */
  lemma RegistryWellFormed()
    ensures forall q :: q in Registry ==> WellFormedMeta(Registry[q])
  {
    RegistryKeys();
    FirstQuarterWellFormed(); SecondQuarterWellFormed(); ThirdQuarterWellFormed(); FourthQuarterWellFormed();
  }

  lemma FirstQuarterWellFormed()
    ensures forall q :: 1 <= q <= 3 ==> q in Registry && WellFormedMeta(Registry[q])
  {
    WellFormed1(); WellFormed2(); WellFormed3();
  }

  lemma SecondQuarterWellFormed()
    ensures forall q :: 4 <= q <= 6 ==> q in Registry && WellFormedMeta(Registry[q])
  {
    WellFormed4(); WellFormed5(); WellFormed6();
  }

  lemma ThirdQuarterWellFormed()
    ensures forall q :: 7 <= q <= 9 ==> q in Registry && WellFormedMeta(Registry[q])
  {
    WellFormed7(); WellFormed8(); WellFormed9();
  }

  lemma FourthQuarterWellFormed()
    ensures forall q :: 10 <= q <= 12 ==> q in Registry && WellFormedMeta(Registry[q])
  {
    WellFormed10(); WellFormed11(); WellFormed12();
  }

  /** No two queries write or read the same CSV file. */
  lemma FilenamesDistinct()
    ensures Distinct(Filenames(Registry, QueryOrder))
  {
    FilenamesWrittenOut();
    FilenameListDistinct();
  }

  lemma FilenameListDistinct()
    ensures Distinct(FilenameList)
  {
    forall i, j | 0 <= i < j < |FilenameList| ensures DistinctAt(FilenameList, i, j) {
      FilenameSignature(i);
      FilenameSignature(j);
    }
  }

  /** The registry's filenames, entry by entry. */
  const FilenameList: seq<string> := [
    Query1.filename, Query2.filename, Query3.filename, Query4.filename,
    Query5.filename, Query6.filename, Query7.filename, Query8.filename,
    Query9.filename, Query10.filename, Query11.filename, Query12.filename]

  lemma FilenamesWrittenOut()
    ensures Filenames(Registry, QueryOrder) == FilenameList
  {
    var fs := Filenames(Registry, QueryOrder);
    QueryOrderCounts();
    forall i | 0 <= i < |fs| ensures fs[i] == FilenameList[i] {
    }
  }

  /** Length and last letter before ".csv" of each registry filename, in
      iteration order; no two entries agree on both. */
  const FilenameSignatures: seq<(nat, char)> := [
    (39, 'y'), (52, 'n'), (56, 's'), (38, 'e'), (41, 'e'), (40, 'y'),
    (36, 'u'), (39, 's'), (28, 'y'), (46, 'e'), (29, 'm'), (34, 's')]

  lemma FilenameSignature(i: nat)
    requires i < |FilenameList|
    ensures |FilenameList[i]| == FilenameSignatures[i].0 >= 5
    ensures FilenameList[i][|FilenameList[i]| - 5] == FilenameSignatures[i].1
  {
  }

  // ----- Sensitivity norms -----

  /** L1 norm of a sensitivity dictionary: the sum of its values. */
  function L1Norm(sens: seq<(string, real)>): real {
    Sum(SensitivityValues(sens))
  }

  /** Sum of the squared sensitivities. */
  function SquaredNorm(sens: seq<(string, real)>): real {
    var v := SensitivityValues(sens);
    Sum(seq(|v|, i requires 0 <= i < |v| => Square(v[i])))
  }

  /** L2 norm of a sensitivity dictionary. */
  function L2Norm(sens: seq<(string, real)>, lib: Library): (r: real)
    requires Sound(lib)
    ensures r >= 0.0
    ensures Square(r) == SquaredNorm(sens)
    ensures sens == [] ==> r == 0.0
  {
    var v := SensitivityValues(sens);
    var squares := seq(|v|, i requires 0 <= i < |v| => Square(v[i]));
    forall i | 0 <= i < |v| ensures squares[i] >= 0.0 {
      SquareNonNegative(v[i]);
    }
    SumNonNegative(squares);
    lib.sqrt(SquaredNorm(sens))
  }

  /** get_l1_sensitivity: the sum of the query's declared sensitivities. */
  function GetL1Sensitivity(reg: map<nat, Meta>, q: nat): (r: real)
    requires q in reg && WellFormedMeta(reg[q])
    ensures r >= 0.0
    ensures reg[q].sensitivity == [] ==> r == 0.0
  {
    SumNonNegative(SensitivityValues(reg[q].sensitivity));
    L1Norm(reg[q].sensitivity)
  }

  /** get_l2_sensitivity: the Euclidean norm of the query's sensitivities. */
  function GetL2Sensitivity(reg: map<nat, Meta>, q: nat, lib: Library): (r: real)
    requires q in reg && Sound(lib)
    ensures r >= 0.0
    ensures Square(r) == SquaredNorm(reg[q].sensitivity)
    ensures reg[q].sensitivity == [] ==> r == 0.0
  {
    L2Norm(reg[q].sensitivity, lib)
  }

  /** The L1 norm adds up the per-column sensitivities one by one. */
  lemma {:induction false} L1NormAppend(sens: seq<(string, real)>, col: string, s: real)
    ensures L1Norm(sens + [(col, s)]) == L1Norm(sens) + s
  {
    assert SensitivityValues(sens + [(col, s)])[..|sens|] == SensitivityValues(sens);
  }

  /** No single column's sensitivity exceeds the L1 sensitivity of its
      query: the L1 norm bounds every per-column sensitivity. */
  lemma SensitivityAtMostL1(reg: map<nat, Meta>, q: nat, k: nat)
    requires q in reg && WellFormedMeta(reg[q]) && k < |reg[q].sensitivity|
    ensures reg[q].sensitivity[k].1 <= GetL1Sensitivity(reg, q)
  {
    var vs := SensitivityValues(reg[q].sensitivity);
    SumAtLeastElement(vs, k);
  }

  /** A well-formed entry's sensitivity keys are exactly its noise-bearing
      columns: every numeric column has a sensitivity, and every
      sensitivity belongs to a numeric column. */
  lemma SensitivityKeysCoverColumns(m: Meta)
    requires WellFormedMeta(m)
    ensures forall c :: c in m.numericCols <==> c in SensitivityKeys(m.sensitivity)
  {
    var keys := SensitivityKeys(m.sensitivity);
    SameLengthCovers(keys, m.numericCols);
  }

  /** Query 6 declares no sensitivity, so both norms are zero. */
  lemma L1OfQuery6()
    ensures 6 in Registry && WellFormedMeta(Registry[6]) && GetL1Sensitivity(Registry, 6) == 0.0
  {
    WellFormed6();
  }

  lemma L2OfQuery6(lib: Library)
    requires Sound(lib)
    ensures 6 in Registry && GetL2Sensitivity(Registry, 6, lib) == 0.0
  {
  }

  // ----- Noise calibrators -----

  /** The Gaussian calibration factor sqrt(2 ln(1.25 / delta)). */
  function GaussianFactor(delta: real, lib: Library): real
    requires delta != 0.0
  {
    lib.sqrt(2.0 * lib.ln(1.25 / delta))
  }

  /** gaussian_sigma: 0 at epsilon = inf, the infinite sentinel at
      epsilon = 0, (l2 / epsilon) * sqrt(2 ln(1.25 / delta)) otherwise. */
  function GaussianSigma(l2: real, eps: ExtReal, delta: real, lib: Library): (sigma: ExtReal)
    requires eps.Fin? && eps.r != 0.0 ==> delta != 0.0
    ensures eps == Inf ==> sigma == Fin(0.0)
    ensures eps == Fin(0.0) ==> sigma == Inf
    ensures eps.Fin? && eps.r != 0.0 ==> sigma.Fin? && sigma.r * eps.r == l2 * GaussianFactor(delta, lib)
  {
    if eps == Inf then Fin(0.0)
    else if eps.r == 0.0 then Inf
    else Fin((l2 / eps.r) * GaussianFactor(delta, lib))
  }

  /** laplace_scale: 0 at epsilon = inf, the infinite sentinel at
      epsilon = 0, l1 / epsilon otherwise. */
  function LaplaceScale(l1: real, eps: ExtReal): (b: ExtReal)
    ensures eps == Inf ==> b == Fin(0.0)
    ensures eps == Fin(0.0) ==> b == Inf
    ensures eps.Fin? && eps.r != 0.0 ==> b.Fin? && b.r * eps.r == l1
  {
    if eps == Inf then Fin(0.0)
    else if eps.r == 0.0 then Inf
    else Fin(l1 / eps.r)
  }

  /** The Gaussian factor is positive for every delta in (0, 1.25). */
  lemma GaussianFactorPositive(delta: real, lib: Library)
    requires Sound(lib) && 0.0 < delta < 1.25
    ensures GaussianFactor(delta, lib) > 0.0
  {
    QuotientAboveOne(1.25, delta);
    assert lib.ln(1.25 / delta) > 0.0;
    SqrtPositive(lib, 2.0 * lib.ln(1.25 / delta));
  }

  lemma QuotientAboveOne(a: real, d: real)
    requires 0.0 < d < a
    ensures a / d > 1.0
  {
    assert a / d * d == a;
  }

  /** The configured delta gives a positive Gaussian factor. */
  lemma DefaultDeltaFactorPositive(lib: Library)
    requires Sound(lib)
    ensures GaussianFactor(DefaultDelta, lib) > 0.0
  {
    GaussianFactorPositive(DefaultDelta, lib);
  }

  /** laplace_scale(5.0, 2.5) is exactly 2.0. */
  lemma LaplaceScaleExample()
    ensures LaplaceScale(5.0, Fin(2.5)) == Fin(2.0)
  {
  }

  /** gaussian_sigma(2.0, 1.0, 1e-6) is 2 sqrt(2 ln(1.25 / 1e-6)). */
  lemma GaussianSigmaExample(lib: Library)
    ensures GaussianSigma(2.0, Fin(1.0), DefaultDelta, lib)
      == Fin(2.0 * lib.sqrt(2.0 * lib.ln(1.25 / 0.000001)))
  {
  }

  /** For finite epsilon > 0, the Laplace scale is linear in the
      sensitivity and non-increasing in epsilon. */
  lemma LaplaceScaleLinearAndMonotone(d1: real, d2: real, k: real, e1: real, e2: real)
    requires 0.0 < e1 <= e2 && d1 >= 0.0
    ensures LaplaceScale(d1 + d2, Fin(e1)).r == LaplaceScale(d1, Fin(e1)).r + LaplaceScale(d2, Fin(e1)).r
    ensures LaplaceScale(k * d1, Fin(e1)).r == k * LaplaceScale(d1, Fin(e1)).r
    ensures LaplaceScale(d1, Fin(e2)).r <= LaplaceScale(d1, Fin(e1)).r
  {
    DivideByLarger(d1, e1, e2);
  }

  /** For finite epsilon > 0, the Gaussian sigma is linear in the
      sensitivity and non-increasing in epsilon. */
  lemma GaussianSigmaLinearAndMonotone(d1: real, d2: real, k: real, e1: real, e2: real, delta: real, lib: Library)
    requires Sound(lib) && 0.0 < delta < 1.25
    requires 0.0 < e1 <= e2 && d1 >= 0.0
    ensures GaussianSigma(d1 + d2, Fin(e1), delta, lib).r
      == GaussianSigma(d1, Fin(e1), delta, lib).r + GaussianSigma(d2, Fin(e1), delta, lib).r
    ensures GaussianSigma(k * d1, Fin(e1), delta, lib).r == k * GaussianSigma(d1, Fin(e1), delta, lib).r
    ensures GaussianSigma(d1, Fin(e2), delta, lib).r <= GaussianSigma(d1, Fin(e1), delta, lib).r
  {
    var c := GaussianFactor(delta, lib);
    GaussianFactorPositive(delta, lib);
    ScaledQuotientLinear(d1, d2, k, e1, c);
    ScaledQuotientMonotone(d1, e1, e2, c);
  }

  lemma ScaledQuotientLinear(a: real, b: real, k: real, e: real, c: real)
    requires e != 0.0
    ensures (a + b) / e * c == a / e * c + b / e * c
    ensures (k * a) / e * c == k * (a / e * c)
  {
  }

  lemma ScaledQuotientMonotone(d: real, e1: real, e2: real, c: real)
    requires d >= 0.0 && 0.0 < e1 <= e2 && c > 0.0
    ensures d / e2 * c <= d / e1 * c
  {
    DivideByLarger(d, e1, e2);
  }

  lemma DivideByLarger(d: real, e1: real, e2: real)
    requires d >= 0.0 && 0.0 < e1 <= e2
    ensures d / e2 <= d / e1
  {
    assert d / e2 * e2 == d;
    assert d / e1 * e1 == d;
    assert d / e2 * e1 <= d / e2 * e2;
  }

  // ----- The epsilon grid -----

  /** The grid is strictly increasing, its finite values are positive, and
      infinity appears only as its last element. */
  lemma EpsilonGridOrdered()
    ensures forall i, j :: 0 <= i < j < |EpsilonValues| ==> Below(EpsilonValues[i], EpsilonValues[j])
    ensures forall i :: 0 <= i < |EpsilonValues| && EpsilonValues[i].Fin? ==> EpsilonValues[i].r > 0.0
    ensures forall i :: 0 <= i < |EpsilonValues| ==> (EpsilonValues[i] == Inf <==> i == |EpsilonValues| - 1)
  {
  }

  // ----- Output directories -----

  /** Decimal digits of a natural number. */
  function NatToString(n: nat): (s: string)
    ensures |s| > 0 && '0' <= s[0] <= '9'
    decreases n
  {
    var d := ['0' + (n % 10) as char];
    if n < 10 then d else NatToString(n / 10) + d
  }

  /** Digits of a fraction in [0, 1), stopping when nothing is left or
      after `fuel` digits. */
  function FractionDigits(f: real, fuel: nat): string
    requires 0.0 <= f < 1.0
    decreases fuel
  {
    if f == 0.0 || fuel == 0 then ""
    else
      var d := (f * 10.0).Floor;
      assert 0 <= d <= 9;
      ['0' + d as char] + FractionDigits(f * 10.0 - d as real, fuel - 1)
  }

  /** Python's `str` of a non-negative float written in positional
      notation: the integer part, a point, and the fraction digits (a single
      0 when there are none). */
  function ReprNonNegative(r: real): (s: string)
    requires r >= 0.0
    ensures |s| > 0 && '0' <= s[0] <= '9'
  {
    var ip := r.Floor;
    var frac := FractionDigits(r - ip as real, 17);
    NatToString(ip) + "." + (if frac == "" then "0" else frac)
  }

  /** Python's `str(float)` for the values this model covers. */
  function ReprReal(r: real): (s: string)
    ensures |s| > 0 && s[0] != 'i'
  {
    if r < 0.0 then "-" + ReprNonNegative(-r) else ReprNonNegative(r)
  }

  /** The epsilon label: "inf" for the no-noise sentinel, `str(eps)` otherwise. */
  function EpsString(eps: ExtReal): string {
    if eps == Inf then "inf" else ReprReal(eps.r)
  }

  lemma EpsStringInf(eps: ExtReal)
    ensures EpsString(eps) == "inf" <==> eps == Inf
  {
  }

  datatype OutputDir = OutputDir(base: string, leaf: string)

  const DataDir: string := "data"

  /** build_output_dir: asserts the mechanism and the database, picks one of
      four bases, and names the leaf `eps_<label>`. */
  function BuildOutputDir(mechanism: string, database: string, eps: ExtReal): (d: Result<OutputDir>)
    ensures d.Ok? <==> mechanism in {"gaussian", "laplace"} && database in {"mini", "full"}
    ensures d.Ok? ==> (d.value.leaf == "eps_inf" <==> eps == Inf)
    ensures d.Ok? && eps.Fin? ==> d.value.leaf == "eps_" + ReprReal(eps.r)
  {
    if mechanism !in {"gaussian", "laplace"} then Err("mechanism must be 'gaussian' or 'laplace'")
    else if database !in {"mini", "full"} then Err("database must be 'mini' or 'full'")
    else
      var base :=
        if mechanism == "gaussian" && database == "mini" then "dp_gaussian_mini"
        else if mechanism == "gaussian" && database == "full" then "dp_gaussian_full"
        else if mechanism == "laplace" && database == "mini" then "dp_laplace_mini"
        else "dp_laplace_full";
      EpsStringInf(eps);
      assert "eps_" + EpsString(eps) == "eps_inf" ==> EpsString(eps) == "inf" by {
        if "eps_" + EpsString(eps) == "eps_inf" {
          assert ("eps_" + EpsString(eps))[4..] == EpsString(eps);
        }
      }
      Ok(OutputDir(base, "eps_" + EpsString(eps)))
  }

  /** The four accepted (mechanism, database) pairs get four distinct bases. */
  lemma OutputBasesDistinct(m1: string, d1: string, m2: string, d2: string, e1: ExtReal, e2: ExtReal)
    requires BuildOutputDir(m1, d1, e1).Ok? && BuildOutputDir(m2, d2, e2).Ok?
    ensures BuildOutputDir(m1, d1, e1).value.base == BuildOutputDir(m2, d2, e2).value.base
      <==> m1 == m2 && d1 == d2
  {
  }

  /** The labels of the grid, as the directories and summaries carry them. */
  lemma EpsilonLabels()
    ensures EpsString(Fin(0.01)) == "0.01"
    ensures EpsString(Fin(1.0)) == "1.0"
    ensures EpsString(Fin(50.0)) == "50.0"
    ensures EpsString(Inf) == "inf"
  {
    LabelOfHundredth();
    LabelOfOne();
    LabelOfFifty();
  }

  lemma LabelOfHundredth() ensures EpsString(Fin(0.01)) == "0.01"
  {
    assert FractionDigits(0.01, 17) == "01" by {
      assert FractionDigits(0.1, 16) == "1";
    }
  }

  lemma LabelOfOne() ensures EpsString(Fin(1.0)) == "1.0"
  {
    assert FractionDigits(0.0, 17) == "";
  }

  lemma LabelOfFifty() ensures EpsString(Fin(50.0)) == "50.0"
  {
    assert NatToString(50) == "50";
    assert FractionDigits(0.0, 17) == "";
  }
}
