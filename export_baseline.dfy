/** The baseline exporter's bookkeeping: the CSV filename each query title
    is saved under, and the loop that runs the queries in ascending number
    and files each one under `successful` or `failed`. Running the SQL and
    writing the CSV are one outcome per query, passed in. */
module ExportBaseline {
  import opened Numerics
  import opened Tables
  import opened DpConfig

  // ----- The filename derivation -----

  /** `str.lower()` on one character, for the ASCII letters titles use. */
  function LowerChar(c: char): (d: char)
    ensures !('A' <= d <= 'Z')
  {
    if 'A' <= c <= 'Z' then (c as int + 32) as char else c
  }

  /** `s.lower()`. */
  function Lower(s: string): (r: string)
    ensures |r| == |s|
  {
    seq(|s|, i requires 0 <= i < |s| => LowerChar(s[i]))
  }

  /** `s.replace(a, b)` for one-character `a` and `b`. */
  function Replace(s: string, a: char, b: char): (r: string)
    ensures |r| == |s|
  {
    seq(|s|, i requires 0 <= i < |s| => if s[i] == a then b else s[i])
  }

  /** `query_name.lower().replace(' ', '_').replace('/', '_') + '.csv'`. */
  function FilenameOf(title: string): string {
    Replace(Replace(Lower(title), ' ', '_'), '/', '_') + ".csv"
  }

  /** What one title character becomes: lower-cased, with a space or a
      slash turned into an underscore. */
  function FileChar(c: char): (d: char)
    ensures d != ' ' && d != '/' && !('A' <= d <= 'Z')
    ensures c == ' ' || c == '/' ==> d == '_'
    ensures c != ' ' && c != '/' ==> d == LowerChar(c)
  {
    var l := LowerChar(c);
    if l == ' ' || l == '/' then '_' else l
  }

  /** The title, character by character, as it appears in the filename. */
  function Stem(s: string): (r: string)
    ensures |r| == |s|
    ensures forall i :: 0 <= i < |s| ==> r[i] == FileChar(s[i])
  {
    seq(|s|, i requires 0 <= i < |s| => FileChar(s[i]))
  }

  /** The three passes of the derivation act character by character. */
  lemma FilenameIsStem(title: string)
    ensures FilenameOf(title) == Stem(title) + ".csv"
  {
    var f := FilenameOf(title);
    forall i | 0 <= i < |title| ensures f[i] == FileChar(title[i]) {
      assert f[i] == Replace(Replace(Lower(title), ' ', '_'), '/', '_')[i];
    }
  }

  /** The shape of every derived filename: four characters longer than the
      title, ending in ".csv", without spaces or slashes, and otherwise the
      title's characters lower-cased. */
  lemma FilenameShape(title: string)
    ensures |FilenameOf(title)| == |title| + 4
    ensures FilenameOf(title)[|title|..] == ".csv"
    ensures ' ' !in FilenameOf(title) && '/' !in FilenameOf(title)
    ensures forall i :: 0 <= i < |title| && (title[i] == ' ' || title[i] == '/') ==> FilenameOf(title)[i] == '_'
    ensures forall i :: 0 <= i < |title| && title[i] != ' ' && title[i] != '/' ==>
      FilenameOf(title)[i] == LowerChar(title[i])
  {
    FilenameIsStem(title);
    var f := FilenameOf(title);
    forall i | 0 <= i < |f| ensures f[i] != ' ' && f[i] != '/' {
      if i >= |title| {
        assert f[i] == ".csv"[i - |title|];
      }
    }
  }

  /** The derivation is not injective in general. */
  lemma FilenameCollision()
    ensures FilenameOf("a b") == FilenameOf("A/B")
  {
    FilenameIsStem("a b");
    FilenameIsStem("A/B");
    assert Stem("a b") == Stem("A/B");
  }

  // ----- Computing the filenames of the twelve titles -----

  lemma StemAppend(a: string, b: string)
    ensures Stem(a + b) == Stem(a) + Stem(b)
  {
  }

  /** `s` and `t` agree, character for character, from position `i` on. */
  predicate MatchesFrom(s: string, t: string, i: nat)
    requires |s| == |t| && i <= |s|
    decreases |s| - i
  {
    i == |s| || (FileChar(s[i]) == t[i] && MatchesFrom(s, t, i + 1))
  }

  lemma {:induction false} MatchesFromAt(s: string, t: string, i: nat, j: nat)
    requires |s| == |t| && i <= j < |s| && MatchesFrom(s, t, i)
    ensures FileChar(s[j]) == t[j]
    decreases j - i
  {
    if i < j {
      MatchesFromAt(s, t, i + 1, j);
    }
  }

  lemma StemOfMatch(s: string, t: string)
    requires |s| == |t| && MatchesFrom(s, t, 0)
    ensures Stem(s) == t
  {
    forall j | 0 <= j < |s| ensures Stem(s)[j] == t[j] {
      MatchesFromAt(s, t, 0, j);
    }
  }

  // ----- The twelve queries -----
  // Each title is written as the concatenation of its words: the same
  // string, in a form whose characters the verifier reaches cheaply.

  const Title1: string := "Battery" + " Power" + " On" + " Geographic" + " Summary"
  const Title2: string := "Battery" + " On" + " Duration" + " by" + " CPU" + " Family" + " and" + " Generation"
  const Title3: string := "Display" + " Devices" + " Connection" + " Type" + " Resolution" + " Durations"
  const Title4: string := "Display" + " Devices" + " Vendors" + " Percentage"
  const Title5: string := "MODS" + " Blockers" + " by" + " OS" + " Name" + " and" + " Codename"
  const Title6: string := "Most" + " Popular" + " Browser" + " in" + " Each" + " Country"
  const Title7: string := "On" + " Off" + " MODS" + " Sleep" + " Summary" + " by" + " CPU"
  const Title8: string := "Persona" + " Web" + " Category" + " Usage" + " Analysis"
  const Title9: string := "Package" + " Power" + " by" + " Country"
  const Title10: string := "Popular" + " Browsers" + " by" + " Count" + " Usage" + " Percentage"
  const Title11: string := "RAM" + " Utilization" + " Histogram"
  const Title12: string := "Ranked" + " Process" + " Classifications"

  /** `QUERIES`, titles only. */
  const Titles: map<nat, string> := map[
    1 := Title1, 2 := Title2, 3 := Title3, 4 := Title4, 5 := Title5, 6 := Title6,
    7 := Title7, 8 := Title8, 9 := Title9, 10 := Title10, 11 := Title11, 12 := Title12]

  /** `sorted(QUERIES.keys())`. */
  const ExportOrder: seq<nat> := [1, 2, 3, 4, 5, 6, 7, 8, 9, 10, 11, 12]

  lemma TitleWords1()
    ensures Stem("Battery") == "battery" && Stem(" Power") == "_power" && Stem(" On") == "_on" && Stem(" Geographic") == "_geographic" && Stem(" Summary") == "_summary"
  {
    StemOfMatch("Battery", "battery");
    StemOfMatch(" Power", "_power");
    StemOfMatch(" On", "_on");
    StemOfMatch(" Geographic", "_geographic");
    StemOfMatch(" Summary", "_summary");
  }

  lemma TitleFile1() ensures FilenameOf(Title1) == Query1.filename
  {
    FilenameIsStem(Title1);
    TitleWords1();
    StemAppend("Battery", " Power");
    StemAppend("Battery" + " Power", " On");
    StemAppend("Battery" + " Power" + " On", " Geographic");
    StemAppend("Battery" + " Power" + " On" + " Geographic", " Summary");
  }

  lemma TitleWords2()
    ensures Stem("Battery") == "battery" && Stem(" On") == "_on" && Stem(" Duration") == "_duration" && Stem(" by") == "_by" && Stem(" CPU") == "_cpu" && Stem(" Family") == "_family" && Stem(" and") == "_and" && Stem(" Generation") == "_generation"
  {
    StemOfMatch("Battery", "battery");
    StemOfMatch(" On", "_on");
    StemOfMatch(" Duration", "_duration");
    StemOfMatch(" by", "_by");
    StemOfMatch(" CPU", "_cpu");
    StemOfMatch(" Family", "_family");
    StemOfMatch(" and", "_and");
    StemOfMatch(" Generation", "_generation");
  }

  lemma TitleFile2() ensures FilenameOf(Title2) == Query2.filename
  {
    FilenameIsStem(Title2);
    TitleWords2();
    StemAppend("Battery", " On");
    StemAppend("Battery" + " On", " Duration");
    StemAppend("Battery" + " On" + " Duration", " by");
    StemAppend("Battery" + " On" + " Duration" + " by", " CPU");
    StemAppend("Battery" + " On" + " Duration" + " by" + " CPU", " Family");
    StemAppend("Battery" + " On" + " Duration" + " by" + " CPU" + " Family", " and");
    StemAppend("Battery" + " On" + " Duration" + " by" + " CPU" + " Family" + " and", " Generation");
  }

  lemma TitleWords3()
    ensures Stem("Display") == "display" && Stem(" Devices") == "_devices" && Stem(" Connection") == "_connection" && Stem(" Type") == "_type" && Stem(" Resolution") == "_resolution" && Stem(" Durations") == "_durations"
  {
    StemOfMatch("Display", "display");
    StemOfMatch(" Devices", "_devices");
    StemOfMatch(" Connection", "_connection");
    StemOfMatch(" Type", "_type");
    StemOfMatch(" Resolution", "_resolution");
    StemOfMatch(" Durations", "_durations");
  }

  lemma TitleFile3() ensures FilenameOf(Title3) == Query3.filename
  {
    FilenameIsStem(Title3);
    TitleWords3();
    StemAppend("Display", " Devices");
    StemAppend("Display" + " Devices", " Connection");
    StemAppend("Display" + " Devices" + " Connection", " Type");
    StemAppend("Display" + " Devices" + " Connection" + " Type", " Resolution");
    StemAppend("Display" + " Devices" + " Connection" + " Type" + " Resolution", " Durations");
  }

  lemma TitleWords4()
    ensures Stem("Display") == "display" && Stem(" Devices") == "_devices" && Stem(" Vendors") == "_vendors" && Stem(" Percentage") == "_percentage"
  {
    StemOfMatch("Display", "display");
    StemOfMatch(" Devices", "_devices");
    StemOfMatch(" Vendors", "_vendors");
    StemOfMatch(" Percentage", "_percentage");
  }

  lemma TitleFile4() ensures FilenameOf(Title4) == Query4.filename
  {
    FilenameIsStem(Title4);
    TitleWords4();
    StemAppend("Display", " Devices");
    StemAppend("Display" + " Devices", " Vendors");
    StemAppend("Display" + " Devices" + " Vendors", " Percentage");
  }

  lemma TitleWords5()
    ensures Stem("MODS") == "mods" && Stem(" Blockers") == "_blockers" && Stem(" by") == "_by" && Stem(" OS") == "_os" && Stem(" Name") == "_name" && Stem(" and") == "_and" && Stem(" Codename") == "_codename"
  {
    StemOfMatch("MODS", "mods");
    StemOfMatch(" Blockers", "_blockers");
    StemOfMatch(" by", "_by");
    StemOfMatch(" OS", "_os");
    StemOfMatch(" Name", "_name");
    StemOfMatch(" and", "_and");
    StemOfMatch(" Codename", "_codename");
  }

  lemma TitleFile5() ensures FilenameOf(Title5) == Query5.filename
  {
    FilenameIsStem(Title5);
    TitleWords5();
    StemAppend("MODS", " Blockers");
    StemAppend("MODS" + " Blockers", " by");
    StemAppend("MODS" + " Blockers" + " by", " OS");
    StemAppend("MODS" + " Blockers" + " by" + " OS", " Name");
    StemAppend("MODS" + " Blockers" + " by" + " OS" + " Name", " and");
    StemAppend("MODS" + " Blockers" + " by" + " OS" + " Name" + " and", " Codename");
  }

  lemma TitleWords6()
    ensures Stem("Most") == "most" && Stem(" Popular") == "_popular" && Stem(" Browser") == "_browser" && Stem(" in") == "_in" && Stem(" Each") == "_each" && Stem(" Country") == "_country"
  {
    StemOfMatch("Most", "most");
    StemOfMatch(" Popular", "_popular");
    StemOfMatch(" Browser", "_browser");
    StemOfMatch(" in", "_in");
    StemOfMatch(" Each", "_each");
    StemOfMatch(" Country", "_country");
  }

  lemma TitleFile6() ensures FilenameOf(Title6) == Query6.filename
  {
    FilenameIsStem(Title6);
    TitleWords6();
    StemAppend("Most", " Popular");
    StemAppend("Most" + " Popular", " Browser");
    StemAppend("Most" + " Popular" + " Browser", " in");
    StemAppend("Most" + " Popular" + " Browser" + " in", " Each");
    StemAppend("Most" + " Popular" + " Browser" + " in" + " Each", " Country");
  }

  lemma TitleWords7()
    ensures Stem("On") == "on" && Stem(" Off") == "_off" && Stem(" MODS") == "_mods" && Stem(" Sleep") == "_sleep" && Stem(" Summary") == "_summary" && Stem(" by") == "_by" && Stem(" CPU") == "_cpu"
  {
    StemOfMatch("On", "on");
    StemOfMatch(" Off", "_off");
    StemOfMatch(" MODS", "_mods");
    StemOfMatch(" Sleep", "_sleep");
    StemOfMatch(" Summary", "_summary");
    StemOfMatch(" by", "_by");
    StemOfMatch(" CPU", "_cpu");
  }

  lemma TitleFile7() ensures FilenameOf(Title7) == Query7.filename
  {
    FilenameIsStem(Title7);
    TitleWords7();
    StemAppend("On", " Off");
    StemAppend("On" + " Off", " MODS");
    StemAppend("On" + " Off" + " MODS", " Sleep");
    StemAppend("On" + " Off" + " MODS" + " Sleep", " Summary");
    StemAppend("On" + " Off" + " MODS" + " Sleep" + " Summary", " by");
    StemAppend("On" + " Off" + " MODS" + " Sleep" + " Summary" + " by", " CPU");
  }

  lemma TitleWords8()
    ensures Stem("Persona") == "persona" && Stem(" Web") == "_web" && Stem(" Category") == "_category" && Stem(" Usage") == "_usage" && Stem(" Analysis") == "_analysis"
  {
    StemOfMatch("Persona", "persona");
    StemOfMatch(" Web", "_web");
    StemOfMatch(" Category", "_category");
    StemOfMatch(" Usage", "_usage");
    StemOfMatch(" Analysis", "_analysis");
  }

  lemma TitleFile8() ensures FilenameOf(Title8) == Query8.filename
  {
    FilenameIsStem(Title8);
    TitleWords8();
    StemAppend("Persona", " Web");
    StemAppend("Persona" + " Web", " Category");
    StemAppend("Persona" + " Web" + " Category", " Usage");
    StemAppend("Persona" + " Web" + " Category" + " Usage", " Analysis");
  }

  lemma TitleWords9()
    ensures Stem("Package") == "package" && Stem(" Power") == "_power" && Stem(" by") == "_by" && Stem(" Country") == "_country"
  {
    StemOfMatch("Package", "package");
    StemOfMatch(" Power", "_power");
    StemOfMatch(" by", "_by");
    StemOfMatch(" Country", "_country");
  }

  lemma TitleFile9() ensures FilenameOf(Title9) == Query9.filename
  {
    FilenameIsStem(Title9);
    TitleWords9();
    StemAppend("Package", " Power");
    StemAppend("Package" + " Power", " by");
    StemAppend("Package" + " Power" + " by", " Country");
  }

  lemma TitleWords10()
    ensures Stem("Popular") == "popular" && Stem(" Browsers") == "_browsers" && Stem(" by") == "_by" && Stem(" Count") == "_count" && Stem(" Usage") == "_usage" && Stem(" Percentage") == "_percentage"
  {
    StemOfMatch("Popular", "popular");
    StemOfMatch(" Browsers", "_browsers");
    StemOfMatch(" by", "_by");
    StemOfMatch(" Count", "_count");
    StemOfMatch(" Usage", "_usage");
    StemOfMatch(" Percentage", "_percentage");
  }

  lemma TitleFile10() ensures FilenameOf(Title10) == Query10.filename
  {
    FilenameIsStem(Title10);
    TitleWords10();
    StemAppend("Popular", " Browsers");
    StemAppend("Popular" + " Browsers", " by");
    StemAppend("Popular" + " Browsers" + " by", " Count");
    StemAppend("Popular" + " Browsers" + " by" + " Count", " Usage");
    StemAppend("Popular" + " Browsers" + " by" + " Count" + " Usage", " Percentage");
  }

  lemma TitleWords11()
    ensures Stem("RAM") == "ram" && Stem(" Utilization") == "_utilization" && Stem(" Histogram") == "_histogram"
  {
    StemOfMatch("RAM", "ram");
    StemOfMatch(" Utilization", "_utilization");
    StemOfMatch(" Histogram", "_histogram");
  }

  lemma TitleFile11() ensures FilenameOf(Title11) == Query11.filename
  {
    FilenameIsStem(Title11);
    TitleWords11();
    StemAppend("RAM", " Utilization");
    StemAppend("RAM" + " Utilization", " Histogram");
  }

  lemma TitleWords12()
    ensures Stem("Ranked") == "ranked" && Stem(" Process") == "_process" && Stem(" Classifications") == "_classifications"
  {
    StemOfMatch("Ranked", "ranked");
    StemOfMatch(" Process", "_process");
    assert MatchesFrom(" Classifications", "_classifications", 8);
    StemOfMatch(" Classifications", "_classifications");
  }

  lemma TitleFile12() ensures FilenameOf(Title12) == Query12.filename
  {
    FilenameIsStem(Title12);
    TitleWords12();
    StemAppend("Ranked", " Process");
    StemAppend("Ranked" + " Process", " Classifications");
  }

  /** Every title is saved under the filename the registry declares for the
      same query number, so the export writes exactly the files the release
      drivers read. */
  lemma TitlesMatchRegistry()
    ensures Titles.Keys == Registry.Keys
    ensures forall q :: q in Titles ==> FilenameOf(Titles[q]) == Registry[q].filename
  {
    RegistryKeys();
    TitleFile1(); TitleFile2(); TitleFile3(); TitleFile4();
    TitleFile5(); TitleFile6(); TitleFile7(); TitleFile8();
    TitleFile9(); TitleFile10(); TitleFile11(); TitleFile12();
  }

  /** No two of the twelve queries write the same CSV file. */
  lemma TitlesInjective()
    ensures forall p, q :: p in Titles && q in Titles && p != q ==> FilenameOf(Titles[p]) != FilenameOf(Titles[q])
  {
    TitlesMatchRegistry();
    FilenamesDistinct();
    QueryOrderCounts();
    RegistryKeys();
    var fs := Filenames(Registry, QueryOrder);
    forall p, q | p in Titles && q in Titles && p != q
      ensures FilenameOf(Titles[p]) != FilenameOf(Titles[q])
    {
      assert fs[p - 1] == Registry[p].filename && fs[q - 1] == Registry[q].filename;
      if p < q { assert DistinctAt(fs, p - 1, q - 1); } else { assert DistinctAt(fs, q - 1, p - 1); }
    }
  }

  /** The export visits the keys of `QUERIES` in ascending order. */
  lemma ExportOrderSorted()
    ensures Increasing(ExportOrder)
    ensures forall q :: q in Titles <==> q in ExportOrder
  {
    QueryOrderCounts();
  }

  // ----- The export loop -----

  /** Strictly ascending. */
  predicate Increasing(s: seq<nat>) {
    forall i, j :: 0 <= i < j < |s| ==> s[i] < s[j]
  }

  /** What running one query gives: the result table, which is then saved
      as CSV, or the message of the exception it raised. */
  datatype Outcome = Exported(df: Table) | Raised(error: string)

  /** The lists `successful` and `failed`, and the CSV files of the output
      directory by name: those left there before the run, overwritten
      by the ones the run writes. */
  datatype ExportLog = ExportLog(successful: seq<nat>, failed: seq<(nat, string)>, written: map<string, Table>)

  /** The log after the first `k` passes of the loop, over an output
      directory that held `dir0` beforehand (it is never cleared). */
  function ExportedUpTo(titles: map<nat, string>, order: seq<nat>, run: nat -> Outcome, dir0: map<string, Table>, k: nat): (log: ExportLog)
    requires k <= |order| && forall i :: 0 <= i < |order| ==> order[i] in titles
  {
    if k == 0 then ExportLog([], [], dir0)
    else
      var log := ExportedUpTo(titles, order, run, dir0, k - 1);
      var q := order[k - 1];
      match run(q)
      case Exported(df) => ExportLog(log.successful + [q], log.failed, log.written[FilenameOf(titles[q]) := df])
      case Raised(e) => ExportLog(log.successful, log.failed + [(q, e)], log.written)
  }

  /** The query numbers of the failures. */
  function FailedNumbers(failed: seq<(nat, string)>): (ns: seq<nat>)
    ensures |ns| == |failed| && forall j :: 0 <= j < |failed| ==> ns[j] == failed[j].0
  {
    seq(|failed|, j requires 0 <= j < |failed| => failed[j].0)
  }

  /** `export_queries`: nothing is run when the connection fails; otherwise
      each query in `order` is run once, and counted as a success, with its
      table saved under the derived filename, or as a failure with its
      error message. The directory keeps what it held before, `dir0`. */
  method ExportQueries(titles: map<nat, string>, order: seq<nat>, connected: bool, run: nat -> Outcome, dir0: map<string, Table>)
    returns (log: ExportLog)
    requires forall i :: 0 <= i < |order| ==> order[i] in titles
    ensures !connected ==> log == ExportLog([], [], dir0)
    ensures connected ==> log == ExportedUpTo(titles, order, run, dir0, |order|)
  {
    if !connected {
      return ExportLog([], [], dir0);
    }
    var successful: seq<nat> := [];
    var failed: seq<(nat, string)> := [];
    var written: map<string, Table> := dir0;
    var k := 0;
    while k < |order|
      invariant k <= |order|
      invariant ExportLog(successful, failed, written) == ExportedUpTo(titles, order, run, dir0, k)
    {
      var queryNum := order[k];
      var filename := FilenameOf(titles[queryNum]);
      match run(queryNum) {
        case Exported(df) =>
          written := written[filename := df];
          successful := successful + [queryNum];
        case Raised(e) =>
          failed := failed + [(queryNum, e)];
      }
      k := k + 1;
    }
    log := ExportLog(successful, failed, written);
  }

  /** Each visited query ends up in exactly one of the two lists, according
      to its outcome, the failures with their messages, and no other number
      appears; together the lists have one entry per pass. */
  lemma {:induction false} ExportPartition(titles: map<nat, string>, order: seq<nat>, run: nat -> Outcome, dir0: map<string, Table>, k: nat, q: nat)
    requires k <= |order| && forall i :: 0 <= i < |order| ==> order[i] in titles
    ensures var log := ExportedUpTo(titles, order, run, dir0, k);
      && (q in log.successful <==> q in order[..k] && run(q).Exported?)
      && (q in FailedNumbers(log.failed) <==> q in order[..k] && run(q).Raised?)
      && (forall j :: 0 <= j < |log.failed| ==> run(log.failed[j].0) == Raised(log.failed[j].1))
      && |log.successful| + |log.failed| == k
  {
    if k > 0 {
      ExportPartition(titles, order, run, dir0, k - 1, q);
      var prev := ExportedUpTo(titles, order, run, dir0, k - 1);
      var log := ExportedUpTo(titles, order, run, dir0, k);
      assert order[..k] == order[..k - 1] + [order[k - 1]];
      if run(order[k - 1]).Raised? {
        assert FailedNumbers(log.failed) == FailedNumbers(prev.failed) + [order[k - 1]];
      }
    }
  }

  /** When the order ascends, so do both lists: queries are reported in
      ascending number. */
  lemma {:induction false} ExportAscending(titles: map<nat, string>, order: seq<nat>, run: nat -> Outcome, dir0: map<string, Table>, k: nat)
    requires k <= |order| && forall i :: 0 <= i < |order| ==> order[i] in titles
    requires Increasing(order)
    ensures Increasing(ExportedUpTo(titles, order, run, dir0, k).successful)
    ensures Increasing(FailedNumbers(ExportedUpTo(titles, order, run, dir0, k).failed))
  {
    if k > 0 {
      ExportAscending(titles, order, run, dir0, k - 1);
      var prev := ExportedUpTo(titles, order, run, dir0, k - 1);
      var q := order[k - 1];
      forall x | x in prev.successful ensures x < q {
        ExportPartition(titles, order, run, dir0, k - 1, x);
      }
      forall x | x in FailedNumbers(prev.failed) ensures x < q {
        ExportPartition(titles, order, run, dir0, k - 1, x);
      }
      var log := ExportedUpTo(titles, order, run, dir0, k);
      if run(q).Raised? {
        assert FailedNumbers(log.failed) == FailedNumbers(prev.failed) + [q];
        IncreasingAppend(FailedNumbers(prev.failed), q);
      } else {
        IncreasingAppend(prev.successful, q);
      }
    }
  }

  lemma IncreasingAppend(s: seq<nat>, q: nat)
    requires Increasing(s) && forall x :: x in s ==> x < q
    ensures Increasing(s + [q])
  {
    forall i, j | 0 <= i < j < |s| + 1 ensures (s + [q])[i] < (s + [q])[j] {
      if j == |s| {
        assert s[i] in s;
      }
    }
  }

  /** No two entries of `order` with different numbers share a filename. */
  predicate FilenamesUnique(titles: map<nat, string>, order: seq<nat>)
    requires forall i :: 0 <= i < |order| ==> order[i] in titles
  {
    forall i, j :: 0 <= i < |order| && 0 <= j < |order| && order[i] != order[j] ==>
      FilenameOf(titles[order[i]]) != FilenameOf(titles[order[j]])
  }

  /** A file no visited export writes keeps what the directory held
      before the run: it is there exactly when it was there before, with
      the same table. */
  lemma {:induction false} ExportUntouched(titles: map<nat, string>, order: seq<nat>, run: nat -> Outcome, dir0: map<string, Table>, k: nat, f: string)
    requires k <= |order| && forall i :: 0 <= i < |order| ==> order[i] in titles
    requires forall j :: 0 <= j < k && FilenameOf(titles[order[j]]) == f ==> run(order[j]).Raised?
    ensures var log := ExportedUpTo(titles, order, run, dir0, k);
      && (f in log.written <==> f in dir0)
      && (f in dir0 ==> log.written[f] == dir0[f])
  {
    if k > 0 {
      ExportUntouched(titles, order, run, dir0, k - 1, f);
    }
  }

  /** With distinct filenames, a visited query that was exported has its
      table in the output directory under its filename; any other entry's
      file is there exactly when it was there before the run, unchanged. */
  lemma {:induction false} ExportWritten(titles: map<nat, string>, order: seq<nat>, run: nat -> Outcome, dir0: map<string, Table>, k: nat, i: nat)
    requires k <= |order| && i < |order| && forall i :: 0 <= i < |order| ==> order[i] in titles
    requires FilenamesUnique(titles, order)
    ensures var log := ExportedUpTo(titles, order, run, dir0, k);
      var f := FilenameOf(titles[order[i]]);
      && (order[i] in order[..k] && run(order[i]).Exported? ==> f in log.written && log.written[f] == run(order[i]).df)
      && (!(order[i] in order[..k] && run(order[i]).Exported?) ==>
            (f in log.written <==> f in dir0) && (f in dir0 ==> log.written[f] == dir0[f]))
  {
    if k > 0 {
      ExportWritten(titles, order, run, dir0, k - 1, i);
      assert order[..k] == order[..k - 1] + [order[k - 1]];
      var q := order[k - 1];
      if order[i] != q {
        assert FilenameOf(titles[order[i]]) != FilenameOf(titles[q]);
      }
    }
  }

  /** A complete export over an ascending order with distinct filenames:
      the entry at position `i` is reported according to its outcome; when
      it was exported its file holds its table, and when it raised its file
      is whatever the directory held before the run. */
  lemma ExportComplete(titles: map<nat, string>, order: seq<nat>, run: nat -> Outcome, dir0: map<string, Table>, i: nat)
    requires i < |order| && forall i :: 0 <= i < |order| ==> order[i] in titles
    requires Increasing(order) && FilenamesUnique(titles, order)
    ensures var log := ExportedUpTo(titles, order, run, dir0, |order|);
      var q := order[i];
      var f := FilenameOf(titles[q]);
      && Increasing(log.successful) && Increasing(FailedNumbers(log.failed))
      && (q in log.successful <==> run(q).Exported?)
      && (q in FailedNumbers(log.failed) <==> run(q).Raised?)
      && (run(q).Exported? ==> f in log.written && log.written[f] == run(q).df)
      && (run(q).Raised? ==> (f in log.written <==> f in dir0) && (f in dir0 ==> log.written[f] == dir0[f]))
  {
    assert order[..|order|] == order;
    assert order[i] in order;
    ExportAscending(titles, order, run, dir0, |order|);
    ExportPartition(titles, order, run, dir0, |order|, order[i]);
    ExportWritten(titles, order, run, dir0, |order|, i);
  }

  /** The shipped titles in the shipped order have distinct filenames. */
  lemma ShippedFilenamesUnique()
    ensures forall i :: 0 <= i < |ExportOrder| ==> ExportOrder[i] in Titles
    ensures FilenamesUnique(Titles, ExportOrder)
  {
    ExportOrderSorted();
    TitlesInjective();
  }

  /** The shipped export, once connected: the queries are reported in
      ascending number, each in the list its outcome calls for; an exported
      query's table is saved under the filename the registry declares for
      it, and a query that raised leaves that file as it was before the run
      (absent from a fresh directory). */
  lemma ShippedExport(run: nat -> Outcome, dir0: map<string, Table>, q: nat)
    requires q in Registry
    ensures var log := ExportedUpTo(Titles, ExportOrder, run, dir0, |ExportOrder|);
      var f := Registry[q].filename;
      && Increasing(log.successful) && Increasing(FailedNumbers(log.failed))
      && (q in log.successful <==> run(q).Exported?)
      && (q in FailedNumbers(log.failed) <==> run(q).Raised?)
      && (run(q).Exported? ==> f in log.written && log.written[f] == run(q).df)
      && (run(q).Raised? ==> (f in log.written <==> f in dir0) && (f in dir0 ==> log.written[f] == dir0[f]))
  {
    ExportOrderSorted();
    ShippedFilenamesUnique();
    TitlesMatchRegistry();
    QueryOrderCounts();
    RegistryKeys();
    assert ExportOrder[q - 1] == q;
    ExportComplete(Titles, ExportOrder, run, dir0, q - 1);
  }
}
