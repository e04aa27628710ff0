/**
 * The detectors of detector/detectors.py: an ASLR flag check on the linker line, the C++
 * standard a package is built against, the report of `hardening-check` on a binary, and
 * counts of named casts and smart pointers found by `grep` in the sources.
 */
module Detectors {
  import opened Wrappers
  import opened Text
  import opened Env
  import opened Tables
  import opened Parsers

  // ---------------------------------------------------------------------------------
  // ASLR
  // ---------------------------------------------------------------------------------

  /** `ASLRDetector.detect_feature`: the command line asks for a position-independent executable. */
  predicate AslrDetect(source: string) {
    Contains(source, "-fPIE") || Contains(source, "-pie")
  }

  /** Detection only looks for the flags: whatever surrounds a detected command line, it stays detected. */
  lemma {:induction false} AslrDetectExtended(a: string, source: string, b: string)
    requires AslrDetect(source)
    ensures AslrDetect(a + source + b)
  {
    if Contains(source, "-fPIE") {
      ContainsExtended(a, source, b, "-fPIE");
    } else {
      ContainsExtended(a, source, b, "-pie");
    }
  }

  /** Either flag, written anywhere on the line, is detected. */
  lemma {:induction false} AslrDetectsFlag(a: string, flag: string, b: string)
    requires flag == "-fPIE" || flag == "-pie"
    ensures AslrDetect(a + flag + b)
  {
    assert (a + flag + b)[|a|..|a| + |flag|] == flag;
    ContainsAt(a + flag + b, flag, |a|);
  }

  /** The linker lines of the log a build-log parser reads. */
  function LinkerLinesOf(b: BuildLogParser, fs: FileSystem): seq<string>
    requires IsFile(fs, b.buildLogPath)
  {
    LinesIn(b.binaryName, CompilerLines(ReadLines(fs[b.buildLogPath].text)), Linker)
  }

  /**
   * `ASLRDetector.run`: look up the detector's parser, ask it for the linker lines and
   * check the first one. A missing parser is a KeyError, a rules parser (which answers
   * None) a TypeError, and a log without a linker line an IndexError.
   */
  function AslrOutcome(parserToUse: string, parsers: map<string, ParserRef>, fs: FileSystem): (r: Outcome<bool>)
    ensures parserToUse !in parsers ==> r == Err(KeyError(parserToUse))
    ensures parserToUse in parsers && parsers[parserToUse].RulesRef? ==> r == Err(TypeError)
    ensures r.Ok? ==> (
      && parserToUse in parsers && parsers[parserToUse].BuildLogRef?
      && IsFile(fs, parsers[parserToUse].log.buildLogPath)
      && var linker := LinkerLinesOf(parsers[parserToUse].log, fs);
         linker != [] && r.value == AslrDetect(linker[0]))
    ensures r == Err(IndexError) <==> (
      && parserToUse in parsers && parsers[parserToUse].BuildLogRef?
      && IsFile(fs, parsers[parserToUse].log.buildLogPath)
      && LinkerLinesOf(parsers[parserToUse].log, fs) == [])
  {
    if parserToUse !in parsers then Err(KeyError(parserToUse))
    else
      match StageLines(parsers[parserToUse], "linker", fs)
      case Err(e) => Err(e)
      case Ok(None) => Err(TypeError)
      case Ok(Some(lines)) => if lines == [] then Err(IndexError) else Ok(AslrDetect(lines[0]))
  }

  /** Only the first linker line decides: later linker lines, with or without the flags, change nothing. */
  lemma {:induction false} AslrFirstLinkerLineDecides(parserToUse: string, parsers: map<string, ParserRef>, fs: FileSystem)
    requires parserToUse in parsers && parsers[parserToUse].BuildLogRef?
    requires IsFile(fs, parsers[parserToUse].log.buildLogPath)
    requires LinkerLinesOf(parsers[parserToUse].log, fs) != []
    ensures AslrOutcome(parserToUse, parsers, fs) == Ok(AslrDetect(LinkerLinesOf(parsers[parserToUse].log, fs)[0]))
  {
    assert StageBucket("linker") == Some(Linker);
  }

  /** An ASLR detector as the registry holds it: its name and the name of the parser it uses. */
  datatype AslrDetector = AslrDetector(name: string, parserToUse: string)

  /** `ASLRDetector.run(parsers)` */
  method AslrRun(d: AslrDetector, parsers: map<string, ParserRef>, fs: FileSystem) returns (r: Outcome<bool>)
    requires d.parserToUse in parsers ==> Consistent(parsers[d.parserToUse], fs)
    modifies if d.parserToUse in parsers then parsers[d.parserToUse].Footprint() else {}
    ensures d.parserToUse in parsers ==> Consistent(parsers[d.parserToUse], fs)
    ensures r == AslrOutcome(d.parserToUse, parsers, fs)
  {
    if d.parserToUse !in parsers {
      return Err(KeyError(d.parserToUse));
    }
    var linking := ParseStage(parsers[d.parserToUse], "linker", fs);
    if linking.Err? {
      return Err(linking.error);
    }
    if linking.value.None? {
      return Err(TypeError);
    }
    var lines := linking.value.value;
    if lines == [] {
      return Err(IndexError);
    }
    return Ok(AslrDetect(lines[0]));
  }

  // ---------------------------------------------------------------------------------
  // C++ standard
  // ---------------------------------------------------------------------------------

  /** The standard names `detect_feature` counts, in the order of its dictionary. */
  const StdNames: seq<string> := [
    "c++98", "c++03", "gnu++98", "gnu++03",
    "c++11", "c++0x", "gnu++11", "gnu++0x",
    "c++14", "c++1y", "gnu++14", "gnu++1y",
    "c++17", "c++1z", "gnu++17", "gnu++1z",
    "c++2a", "gnu++2a"]

  /** Number of lines that contain the name. */
  function LinesContaining(lines: seq<string>, name: string): nat
    decreases |lines|
  {
    if lines == [] then 0 else (if Contains(lines[0], name) then 1 else 0) + LinesContaining(lines[1..], name)
  }

  /** The count is positive exactly when some line contains the name. */
  lemma {:induction false} LinesContainingPositive(lines: seq<string>, name: string)
    ensures LinesContaining(lines, name) > 0 <==> exists i :: 0 <= i < |lines| && Contains(lines[i], name)
    decreases |lines|
  {
    if lines != [] {
      LinesContainingPositive(lines[1..], name);
      assert forall i :: 1 <= i < |lines| ==> lines[i] == lines[1..][i - 1];
      if exists i :: 0 <= i < |lines[1..]| && Contains(lines[1..][i], name) {
        var i :| 0 <= i < |lines[1..]| && Contains(lines[1..][i], name);
        assert Contains(lines[i + 1], name);
      }
    }
  }

  /** Some line mentions the name. */
  predicate Mentioned(lines: seq<string>, name: string) {
    exists i :: 0 <= i < |lines| && Contains(lines[i], name)
  }

  /** The names, in their order, that some line mentions. */
  function MentionedNames(names: seq<string>, lines: seq<string>): (r: seq<string>)
    ensures forall k :: 0 <= k < |r| ==> r[k] in names && Mentioned(lines, r[k])
    ensures forall k :: 0 <= k < |names| && Mentioned(lines, names[k]) ==> names[k] in r
    ensures |r| <= |names|
    decreases |names|
  {
    if names == [] then []
    else
      var rest := MentionedNames(names[1..], lines);
      assert forall k :: 1 <= k < |names| ==> names[k] == names[1..][k - 1];
      if Mentioned(lines, names[0]) then [names[0]] + rest else rest
  }

  /** The names kept by the filter over positive counts, in dictionary order. */
  function PositiveNames(names: seq<string>, counts: map<string, nat>): seq<string>
    requires forall k :: 0 <= k < |names| ==> names[k] in counts
    decreases |names|
  {
    if names == [] then []
    else (if counts[names[0]] > 0 then [names[0]] else []) + PositiveNames(names[1..], counts)
  }

  /** Filtering on the counts keeps exactly the mentioned names. */
  lemma {:induction false} PositiveNamesMentioned(names: seq<string>, counts: map<string, nat>, lines: seq<string>)
    requires forall k :: 0 <= k < |names| ==> names[k] in counts && counts[names[k]] == LinesContaining(lines, names[k])
    ensures PositiveNames(names, counts) == MentionedNames(names, lines)
    decreases |names|
  {
    if names != [] {
      var tail := names[1..];
      LinesContainingPositive(lines, names[0]);
      assert counts[names[0]] > 0 <==> Mentioned(lines, names[0]);
      forall k | 0 <= k < |tail|
        ensures tail[k] in counts && counts[tail[k]] == LinesContaining(lines, tail[k])
      {
        assert tail[k] == names[k + 1];
      }
      PositiveNamesMentioned(tail, counts, lines);
    }
  }

  /**
   * The version fallback, taken when no standard is named: None when no GCC version
   * could be read from the lines, otherwise whether that version is newer than 6.1.
   */
  function Fallback(gccNewerThan61: Option<bool>): (r: seq<string>)
    ensures gccNewerThan61.None? <==> r == []
    ensures gccNewerThan61 == Some(true) ==> r == ["c++14"]
    ensures gccNewerThan61 == Some(false) ==> r == ["c++03"]
  {
    match gccNewerThan61
    case None => []
    case Some(newer) => if newer then ["c++14"] else ["c++03"]
  }

  /** No name is listed twice, as in the keys of a dictionary. */
  predicate Distinct(names: seq<string>) {
    forall a, b :: 0 <= a < b < |names| ==> names[a] != names[b]
  }

  /** Length and last two characters of a name, packed in one number. */
  function NameKey(s: string): int {
    if |s| < 2 then 0 else |s| * 65536 + (s[|s| - 2] as int) * 256 + s[|s| - 1] as int
  }

  lemma NameKeyApart(s: string, t: string)
    requires NameKey(s) != NameKey(t)
    ensures s != t
  {
  }

  /** The eighteen standard names are the distinct keys of the counting dictionary. */
  lemma StdNamesDistinct()
    ensures Distinct(StdNames)
  {
    forall a, b | 0 <= a < b < |StdNames|
      ensures StdNames[a] != StdNames[b]
    {
      NameKeyApart(StdNames[a], StdNames[b]);
    }
  }

  /** The counting loops of `detect_feature`: per name, the number of lines that contain it. */
  method CountMentions(names: seq<string>, lines: seq<string>) returns (counts: map<string, nat>)
    requires Distinct(names)
    ensures forall k :: 0 <= k < |names| ==> names[k] in counts && counts[names[k]] == LinesContaining(lines, names[k])
  {
    counts := map k | k in names :: 0;
    var i := 0;
    while i < |names|
      invariant 0 <= i <= |names|
      invariant forall k :: 0 <= k < |names| ==> names[k] in counts
      invariant forall k :: 0 <= k < i ==> counts[names[k]] == LinesContaining(lines, names[k])
      invariant forall k :: i <= k < |names| ==> counts[names[k]] == 0
    {
      var key := names[i];
      var j := 0;
      while j < |lines|
        invariant 0 <= j <= |lines|
        invariant forall k :: 0 <= k < |names| ==> names[k] in counts
        invariant forall k :: 0 <= k < i ==> counts[names[k]] == LinesContaining(lines, names[k])
        invariant forall k :: i < k < |names| ==> counts[names[k]] == 0
        invariant counts[key] == LinesContaining(lines[..j], key)
      {
        LinesContainingSnoc(lines, j, key);
        if Contains(lines[j], key) {
          counts := counts[key := counts[key] + 1];
        }
        j := j + 1;
      }
      assert lines[..j] == lines;
      i := i + 1;
    }
  }

  /**
   * `CppVersionDetector.detect_feature`: count, per standard name, the lines that contain
   * it, and keep the names with a positive count; fall back on the GCC version when none is.
   */
  method DetectStandards(compilerLines: seq<string>, gccNewerThan61: Option<bool>) returns (results: seq<string>)
    ensures results == Detection(compilerLines, gccNewerThan61)
  {
    StdNamesDistinct();
    var counts := CountMentions(StdNames, compilerLines);
    results := PositiveNames(StdNames, counts);
    PositiveNamesMentioned(StdNames, counts, compilerLines);
    if |results| == 0 {
      results := Fallback(gccNewerThan61);
    }
  }

  lemma {:induction false} LinesContainingSnoc(lines: seq<string>, j: nat, name: string)
    requires j < |lines|
    ensures LinesContaining(lines[..j + 1], name) == LinesContaining(lines[..j], name) + if Contains(lines[j], name) then 1 else 0
  {
    LinesContainingAppend(lines[..j], [lines[j]], name);
    assert lines[..j + 1] == lines[..j] + [lines[j]];
  }

  lemma {:induction false} LinesContainingAppend(a: seq<string>, b: seq<string>, name: string)
    ensures LinesContaining(a + b, name) == LinesContaining(a, name) + LinesContaining(b, name)
    decreases |a|
  {
    if a == [] {
      assert a + b == b;
    } else {
      assert (a + b)[1..] == a[1..] + b;
      LinesContainingAppend(a[1..], b, name);
    }
  }

  /** `version[-2:]`: the last two characters, or the whole string when it is shorter. */
  function Suffix2(version: string): string {
    if |version| < 2 then version else version[|version| - 2..]
  }

  /** `version_mapping`: the age of a standard, by the last two characters of its name. */
  const VersionOrdinals: map<string, nat> := map[
    "98" := 0, "03" := 1, "0x" := 2, "11" := 2, "14" := 3, "1y" := 3, "17" := 4, "1z" := 4, "2a" := 5]

  /** The name `_clean_detection_results` reports for an age. */
  function OrdinalName(n: nat): string {
    if n == 0 then "c++98"
    else if n == 1 then "c++03"
    else if n == 2 then "c++11"
    else if n == 3 then "c++14"
    else if n == 4 then "c++17"
    else "c++2a"
  }

  /** The six names a cleaned result can be. */
  predicate IsCleanName(s: string) {
    s in {"c++98", "c++03", "c++11", "c++14", "c++17", "c++2a"}
  }

  /** The ages of the detected names in a table of ages, or a KeyError for the first name whose suffix has none. */
  function Ordinals(results: seq<string>, ages: map<string, nat>): (r: Outcome<seq<nat>>)
    ensures r.Ok? <==> forall k :: 0 <= k < |results| ==> Suffix2(results[k]) in ages
    ensures r.Ok? ==> |r.value| == |results|
    ensures r.Ok? ==> forall k :: 0 <= k < |results| ==> r.value[k] == ages[Suffix2(results[k])]
    ensures r.Err? ==> exists k :: 0 <= k < |results| && Suffix2(results[k]) !in ages && r.error == KeyError(Suffix2(results[k]))
    decreases |results|
  {
    if results == [] then Ok([])
    else
      var s := Suffix2(results[0]);
      if s !in ages then Err(KeyError(s))
      else
        var rest := Ordinals(results[1..], ages);
        assert forall k :: 1 <= k < |results| ==> results[k] == results[1..][k - 1];
        if rest.Err? then
          var k :| 0 <= k < |results[1..]| && Suffix2(results[1..][k]) !in ages && rest.error == KeyError(Suffix2(results[1..][k]));
          assert Suffix2(results[k + 1]) !in ages;
          Err(rest.error)
        else Ok([ages[s]] + rest.value)
  }

  /** `min(values)` of a non-empty list. */
  function Min(values: seq<nat>): (m: nat)
    requires values != []
    ensures m in values
    ensures forall k :: 0 <= k < |values| ==> m <= values[k]
    decreases |values|
  {
    if |values| == 1 then values[0]
    else
      var rest := Min(values[1..]);
      assert forall k :: 1 <= k < |values| ==> values[k] == values[1..][k - 1];
      if values[0] <= rest then values[0] else rest
  }

  /** The smallest age among the detected names; `min` of an empty list is a ValueError. */
  function Oldest(results: seq<string>, ages: map<string, nat>): Outcome<nat> {
    match Ordinals(results, ages)
    case Err(e) => Err(e)
    case Ok(values) => if values == [] then Err(ValueError("min() arg is an empty sequence")) else Ok(Min(values))
  }

  /** The cleaning of a list of detected names: the name of the oldest standard among them. */
  function Clean(results: seq<string>): Outcome<string> {
    match Oldest(results, VersionOrdinals)
    case Err(e) => Err(e)
    case Ok(m) => Ok(OrdinalName(m))
  }

  /** `CppVersionDetector._clean_detection_results` */
  method CleanDetectionResults(results: seq<string>) returns (r: Outcome<string>)
    ensures r == Clean(results)
  {
    var values: seq<nat> := [];
    var i := 0;
    while i < |results|
      invariant 0 <= i <= |results|
      invariant Ordinals(results[..i], VersionOrdinals) == Ok(values)
    {
      var suffix := Suffix2(results[i]);
      if suffix !in VersionOrdinals {
        OrdinalsPrefixOk(results, i, VersionOrdinals);
        return Err(KeyError(suffix));
      }
      OrdinalsSnoc(results, i, VersionOrdinals);
      values := values + [VersionOrdinals[suffix]];
      i := i + 1;
    }
    assert results[..i] == results;
    if values == [] {
      return Err(ValueError("min() arg is an empty sequence"));
    }
    var minVersion := Min(values);
    r := Ok(OrdinalName(minVersion));
  }

  lemma {:induction false} OrdinalsSnoc(results: seq<string>, i: nat, ages: map<string, nat>)
    requires i < |results|
    requires Ordinals(results[..i], ages).Ok?
    requires Suffix2(results[i]) in ages
    ensures Ordinals(results[..i + 1], ages) == Ok(Ordinals(results[..i], ages).value + [ages[Suffix2(results[i])]])
  {
    var a, b := results[..i + 1], results[..i];
    assert forall k :: 0 <= k < i ==> a[k] == b[k];
    assert a[i] == results[i];
    var va, vb := Ordinals(a, ages).value, Ordinals(b, ages).value;
    assert va == vb + [ages[Suffix2(results[i])]];
  }

  /** When the names before i all have ages and name i has none, the error is about name i. */
  lemma {:induction false} OrdinalsPrefixOk(results: seq<string>, i: nat, ages: map<string, nat>)
    requires i < |results|
    requires forall k :: 0 <= k < i ==> Suffix2(results[k]) in ages
    requires Suffix2(results[i]) !in ages
    ensures Ordinals(results, ages) == Err(KeyError(Suffix2(results[i])))
    decreases i
  {
    if i > 0 {
      assert forall k :: 0 <= k < i - 1 ==> results[1..][k] == results[k + 1];
      OrdinalsPrefixOk(results[1..], i - 1, ages);
    }
  }

  /** The oldest age is the age of one of the names, and no name is older. */
  lemma {:induction false} OldestIsMin(results: seq<string>, ages: map<string, nat>)
    requires Oldest(results, ages).Ok?
    ensures exists k :: 0 <= k < |results| && Oldest(results, ages).value == ages[Suffix2(results[k])]
    ensures forall k :: 0 <= k < |results| ==> Oldest(results, ages).value <= ages[Suffix2(results[k])]
  {
    var values := Ordinals(results, ages).value;
    var k :| 0 <= k < |values| && values[k] == Min(values);
  }

  /** Two lists with the same names have the same ages, or lack them alike. */
  lemma {:induction false} OrdinalsSameNames(a: seq<string>, b: seq<string>, ages: map<string, nat>)
    requires forall x :: x in a <==> x in b
    ensures Ordinals(a, ages).Ok? <==> Ordinals(b, ages).Ok?
  {
    if forall k :: 0 <= k < |a| ==> Suffix2(a[k]) in ages {
      forall k | 0 <= k < |b| ensures Suffix2(b[k]) in ages {
        assert b[k] in a;
      }
    }
    if forall k :: 0 <= k < |b| ==> Suffix2(b[k]) in ages {
      forall k | 0 <= k < |a| ensures Suffix2(a[k]) in ages {
        assert a[k] in b;
      }
    }
  }

  /** Lists of the same values have the same minimum. */
  lemma {:induction false} MinSameValues(s: seq<nat>, t: seq<nat>)
    requires s != [] && t != []
    requires forall x :: x in s <==> x in t
    ensures Min(s) == Min(t)
  {
    var ms, mt := Min(s), Min(t);
    assert ms in t;
    assert mt in s;
  }

  /** Two lists with the same names have the same oldest age. */
  lemma {:induction false} OldestSameNames(a: seq<string>, b: seq<string>, ages: map<string, nat>)
    requires forall x :: x in a <==> x in b
    requires Oldest(a, ages).Ok? && Oldest(b, ages).Ok?
    ensures Oldest(a, ages) == Oldest(b, ages)
  {
    var va, vb := Ordinals(a, ages).value, Ordinals(b, ages).value;
    forall x | x in va ensures x in vb {
      var i :| 0 <= i < |va| && va[i] == x;
      assert a[i] in b;
      var j :| 0 <= j < |b| && b[j] == a[i];
      assert vb[j] == x;
    }
    forall x | x in vb ensures x in va {
      var i :| 0 <= i < |vb| && vb[i] == x;
      assert b[i] in a;
      var j :| 0 <= j < |a| && a[j] == b[i];
      assert va[j] == x;
    }
    MinSameValues(va, vb);
  }

  /** The oldest age does not depend on the order of the names. */
  lemma {:induction false} OldestOrderIndependent(a: seq<string>, b: seq<string>, ages: map<string, nat>)
    requires multiset(a) == multiset(b)
    ensures Oldest(a, ages).Ok? <==> Oldest(b, ages).Ok?
    ensures Oldest(a, ages).Ok? ==> Oldest(a, ages) == Oldest(b, ages)
  {
    assert forall x :: x in a <==> x in b by {
      forall x ensures x in a <==> x in b {
        assert x in a <==> x in multiset(a);
        assert x in b <==> x in multiset(b);
      }
    }
    assert |b| == |multiset(b)| == |multiset(a)| == |a|;
    OrdinalsSameNames(a, b, ages);
    if Oldest(a, ages).Ok? {
      OldestSameNames(a, b, ages);
    }
  }

  /** A list whose values all occur in another has no smaller minimum. */
  lemma {:induction false} MinSubset(s: seq<nat>, t: seq<nat>)
    requires s != [] && t != []
    requires forall x :: x in s ==> x in t
    ensures Min(t) <= Min(s)
  {
    var ms := Min(s);
    assert ms in t;
  }

  /** One more name never makes the oldest age younger. */
  lemma {:induction false} OldestAddNeverYounger(results: seq<string>, x: string, ages: map<string, nat>)
    requires Oldest(results, ages).Ok? && Oldest(results + [x], ages).Ok?
    ensures Oldest(results + [x], ages).value <= Oldest(results, ages).value
  {
    var a := results + [x];
    var va, vb := Ordinals(results, ages).value, Ordinals(a, ages).value;
    forall y | y in va ensures y in vb {
      var i :| 0 <= i < |va| && va[i] == y;
      assert a[i] == results[i];
      assert vb[i] == y;
    }
    MinSubset(va, vb);
  }

  /** The age of a cleaned name. */
  function NameOrdinal(s: string): nat {
    if s == "c++98" then 0
    else if s == "c++03" then 1
    else if s == "c++11" then 2
    else if s == "c++14" then 3
    else if s == "c++17" then 4
    else 5
  }

  lemma {:induction false} AgesUpTo5()
    ensures forall s :: s in VersionOrdinals ==> VersionOrdinals[s] <= 5
  {
  }

  /** The name given to an age is a cleaned name, and names that age back. */
  lemma {:induction false} OrdinalNameAge(m: nat)
    requires m <= 5
    ensures IsCleanName(OrdinalName(m)) && NameOrdinal(OrdinalName(m)) == m
  {
  }

  /** With ages up to 5, the oldest age names a clean name that names that age back. */
  lemma {:induction false} NamedOldest(results: seq<string>, ages: map<string, nat>)
    requires forall s :: s in ages ==> ages[s] <= 5
    requires Oldest(results, ages).Ok?
    ensures IsCleanName(OrdinalName(Oldest(results, ages).value))
    ensures NameOrdinal(OrdinalName(Oldest(results, ages).value)) == Oldest(results, ages).value
    ensures exists k :: 0 <= k < |results| && Oldest(results, ages).value == ages[Suffix2(results[k])]
    ensures forall k :: 0 <= k < |results| ==> Oldest(results, ages).value <= ages[Suffix2(results[k])]
  {
    OldestIsMin(results, ages);
    var k :| 0 <= k < |results| && Oldest(results, ages).value == ages[Suffix2(results[k])];
    OrdinalNameAge(Oldest(results, ages).value);
  }

  /** A cleaned result is one of the six names, and it names the oldest detected standard. */
  lemma {:induction false} CleanIsOldest(results: seq<string>)
    requires Clean(results).Ok?
    ensures IsCleanName(Clean(results).value)
    ensures exists k :: 0 <= k < |results| && NameOrdinal(Clean(results).value) == VersionOrdinals[Suffix2(results[k])]
    ensures forall k :: 0 <= k < |results| ==> NameOrdinal(Clean(results).value) <= VersionOrdinals[Suffix2(results[k])]
  {
    AgesUpTo5();
    NamedOldest(results, VersionOrdinals);
  }

  /** `name` is a standard whose ordinal is that of some detected name and no greater than any. */
  predicate OldestAmong(name: string, results: seq<string>) {
    && (exists k :: 0 <= k < |results| && Suffix2(results[k]) in VersionOrdinals
                    && NameOrdinal(name) == VersionOrdinals[Suffix2(results[k])])
    && (forall k :: 0 <= k < |results| ==>
          Suffix2(results[k]) in VersionOrdinals && NameOrdinal(name) <= VersionOrdinals[Suffix2(results[k])])
  }

  lemma CleanOldestAmong(results: seq<string>)
    requires Clean(results).Ok?
    ensures OldestAmong(Clean(results).value, results)
  {
    CleanIsOldest(results);
    assert forall k :: 0 <= k < |results| ==> Suffix2(results[k]) in VersionOrdinals by {
      AgesUpTo5();
      NamedOldest(results, VersionOrdinals);
    }
  }

  /** The cleaning does not depend on the order of the detected names. */
  lemma {:induction false} CleanOrderIndependent(a: seq<string>, b: seq<string>)
    requires multiset(a) == multiset(b)
    ensures Clean(a).Ok? <==> Clean(b).Ok?
    ensures Clean(a).Ok? ==> Clean(a) == Clean(b)
  {
    OldestOrderIndependent(a, b, VersionOrdinals);
  }

  /** Detecting one more standard never makes the result newer. */
  lemma {:induction false} CleanAddNeverNewer(results: seq<string>, x: string)
    requires Clean(results).Ok? && Clean(results + [x]).Ok?
    ensures NameOrdinal(Clean(results + [x]).value) <= NameOrdinal(Clean(results).value)
  {
    OldestAddNeverYounger(results, x, VersionOrdinals);
    CleanIsOldest(results);
    CleanIsOldest(results + [x]);
  }

  /** For a non-empty detection, cleaning yields one of the six names. */
  lemma {:induction false} StdNameAges(k: nat)
    requires k < |StdNames|
    ensures Suffix2(StdNames[k]) in VersionOrdinals
  {
  }

  lemma {:induction false} FallbackAges(gccNewerThan61: Option<bool>, k: nat)
    requires k < |Fallback(gccNewerThan61)|
    ensures Suffix2(Fallback(gccNewerThan61)[k]) in VersionOrdinals
  {
  }

  /** Every detected name has an age. */
  lemma {:induction false} DetectionAges(lines: seq<string>, gccNewerThan61: Option<bool>)
    ensures forall k :: 0 <= k < |Detection(lines, gccNewerThan61)| ==> Suffix2(Detection(lines, gccNewerThan61)[k]) in VersionOrdinals
  {
    var named := MentionedNames(StdNames, lines);
    var d := Detection(lines, gccNewerThan61);
    forall k | 0 <= k < |d| ensures Suffix2(d[k]) in VersionOrdinals {
      if named == [] {
        FallbackAges(gccNewerThan61, k);
      } else {
        assert d[k] == named[k];
        var j :| 0 <= j < |StdNames| && StdNames[j] == named[k];
        StdNameAges(j);
      }
    }
  }

  /** For a non-empty detection, cleaning succeeds with one of the six names. */
  lemma {:induction false} CleanOfDetection(lines: seq<string>, gccNewerThan61: Option<bool>)
    requires Detection(lines, gccNewerThan61) != []
    ensures Clean(Detection(lines, gccNewerThan61)).Ok?
    ensures IsCleanName(Clean(Detection(lines, gccNewerThan61)).value)
  {
    var d := Detection(lines, gccNewerThan61);
    DetectionAges(lines, gccNewerThan61);
    assert Ordinals(d, VersionOrdinals).Ok?;
    CleanIsOldest(d);
  }

  /** What `detect_feature` returns, as a function of the compiler lines and the version fallback. */
  function Detection(lines: seq<string>, gccNewerThan61: Option<bool>): seq<string> {
    var named := MentionedNames(StdNames, lines);
    if named != [] then named else Fallback(gccNewerThan61)
  }

  /** `CppVersionDetector.run` on the compiler lines: "none" when nothing is detected, else the cleaned name. */
  function CppOutcome(lines: seq<string>, gccNewerThan61: Option<bool>): (r: Outcome<string>)
    ensures r.Ok?
    ensures r.value == "none" <==> Detection(lines, gccNewerThan61) == []
    ensures r.value != "none" ==> IsCleanName(r.value)
    ensures r.value != "none" ==> OldestAmong(r.value, Detection(lines, gccNewerThan61))
  {
    var detected := Detection(lines, gccNewerThan61);
    if detected == [] then Ok("none")
    else
      CleanOfDetection(lines, gccNewerThan61);
      CleanOldestAmong(detected);
      Clean(detected)
  }

  /** A C++ version detector as the registry would hold it. */
  datatype CppVersionDetector = CppVersionDetector(name: string, parserToUse: string)

  /**
   * `CppVersionDetector.run(parsers)`: all compiler lines of the detector's parser, then
   * detection and cleaning. A missing parser is a KeyError and a rules parser, which
   * answers None, a TypeError.
   */
  method CppRun(d: CppVersionDetector, parsers: map<string, ParserRef>, fs: FileSystem, gccNewerThan61: Option<bool>)
    returns (r: Outcome<string>)
    requires d.parserToUse in parsers ==> Consistent(parsers[d.parserToUse], fs)
    modifies if d.parserToUse in parsers then parsers[d.parserToUse].Footprint() else {}
    ensures d.parserToUse in parsers ==> Consistent(parsers[d.parserToUse], fs)
    ensures d.parserToUse !in parsers ==> r == Err(KeyError(d.parserToUse))
    ensures d.parserToUse in parsers ==>
      r == match StageLines(parsers[d.parserToUse], "all", fs)
           case Err(e) => Err(e)
           case Ok(None) => Err(TypeError)
           case Ok(Some(lines)) => CppOutcome(lines, gccNewerThan61)
  {
    if d.parserToUse !in parsers {
      return Err(KeyError(d.parserToUse));
    }
    var all := ParseStage(parsers[d.parserToUse], "all", fs);
    if all.Err? {
      return Err(all.error);
    }
    if all.value.None? {
      return Err(TypeError);
    }
    var detected := DetectStandards(all.value.value, gccNewerThan61);
    if detected != [] {
      CleanOfDetection(all.value.value, gccNewerThan61);
      r := CleanDetectionResults(detected);
    } else {
      r := Ok("none");
    }
  }

  // ---------------------------------------------------------------------------------
  // hardening-check
  // ---------------------------------------------------------------------------------

  /** `feature_mapping`: the feature names a query may use and the labels hardening-check prints. */
  const FeatureMapping: map<string, string> := map[
    "ro-relocation" := "Read-only relocations",
    "stack-protector" := "Stack protected",
    "fortify-source" := "Fortify Source functions",
    "PIE" := "Position Independent Executable",
    "immediate-binding" := "Immediate binding",
    "stack-clash" := "Stack clash protection",
    "control-flow-integrity" := "Control flow integrity"]

  /** The report lines: the output split on '\n', without its first and its last piece. */
  function ReportLines(output: string): (r: seq<string>)
    ensures |r| == if Count(output, '\n') == 0 then 0 else Count(output, '\n') - 1
    ensures forall k :: 0 <= k < |r| ==> r[k] == SplitOn(output, '\n')[k + 1]
  {
    var pieces := SplitOn(output, '\n')[1..];
    if pieces == [] then [] else pieces[..|pieces| - 1]
  }

  /** A report line unpacks into a feature and its presence: it holds exactly one ':'. */
  predicate WellFormed(line: string) {
    Count(line, ':') == 1
  }

  /**
   * The (feature, presence) pair of a report line, both sides stripped; only the pairs
   * of well-formed lines are ever used.
   */
  function Entry(line: string): (string, string) {
    var parts := SplitOn(line, ':');
    (Strip(parts[0]), if |parts| > 1 then Strip(parts[1]) else [])
  }

  /** The pairs of the report lines, in order. */
  function Entries(lines: seq<string>): seq<(string, string)> {
    MapSeq(lines, Entry)
  }

  /** The error unpacking a line into two names raises. */
  function UnpackError(line: string): Error {
    if Count(line, ':') == 0 then ValueError("not enough values to unpack (expected 2, got 1)")
    else ValueError("too many values to unpack (expected 2)")
  }

  /** The dictionary that the report lines build, or the error of the first malformed line. */
  function Report(lines: seq<string>): (r: Outcome<map<string, string>>)
    ensures r.Ok? <==> forall k :: 0 <= k < |lines| ==> WellFormed(lines[k])
  {
    if forall k :: 0 <= k < |lines| ==> WellFormed(lines[k]) then Ok(Table(map[], Entries(lines)))
    else
      var k := FirstMalformed(lines);
      Err(UnpackError(lines[k]))
  }

  function FirstMalformed(lines: seq<string>): (k: nat)
    requires exists k :: 0 <= k < |lines| && !WellFormed(lines[k])
    ensures k < |lines| && !WellFormed(lines[k])
    ensures forall j :: 0 <= j < k ==> WellFormed(lines[j])
    decreases |lines|
  {
    if !WellFormed(lines[0]) then 0
    else
      assert exists k :: 0 <= k < |lines[1..]| && !WellFormed(lines[1..][k]) by {
        var k :| 0 <= k < |lines| && !WellFormed(lines[k]);
        assert lines[1..][k - 1] == lines[k];
      }
      1 + FirstMalformed(lines[1..])
  }

  /** Every feature the report names is a key, with the presence of its last line. */
  lemma {:induction false} ReportLastWins(lines: seq<string>, k: nat)
    requires Report(lines).Ok?
    requires k < |lines|
    requires forall j :: k < j < |lines| ==> Entry(lines[j]).0 != Entry(lines[k]).0
    ensures Entry(lines[k]).0 in Report(lines).value
    ensures Report(lines).value[Entry(lines[k]).0] == Entry(lines[k]).1
  {
    TableLastWins(map[], Entries(lines), k);
  }

  /** The report has no key that no line names. */
  lemma {:induction false} ReportKeys(lines: seq<string>)
    requires Report(lines).Ok?
    ensures Report(lines).value.Keys == set k | 0 <= k < |lines| :: Entry(lines[k]).0
  {
    TableKeys(map[], Entries(lines));
    KeysOfMapSeq(lines, Entry);
  }

  /** The parsing loop of `HardeningDetector.run`. */
  method ParseReport(lines: seq<string>) returns (r: Outcome<map<string, string>>)
    ensures r == Report(lines)
  {
    var results: map<string, string> := map[];
    var i := 0;
    while i < |lines|
      invariant 0 <= i <= |lines|
      invariant forall k :: 0 <= k < i ==> WellFormed(lines[k])
      invariant results == Table(map[], Entries(lines[..i]))
    {
      var parts := SplitOn(lines[i], ':');
      if |parts| != 2 {
        ReportAtMalformed(lines, i);
        return Err(UnpackError(lines[i]));
      }
      assert forall k :: 0 <= k < i + 1 ==> WellFormed(lines[k]);
      var feature, presence := Strip(parts[0]), Strip(parts[1]);
      MapSeqSnoc(lines, i, Entry);
      TableSnoc(map[], Entries(lines[..i]), (feature, presence));
      results := results[feature := presence];
      i := i + 1;
    }
    assert lines[..i] == lines;
    return Ok(results);
  }

  /** The report fails with the error of the first malformed line. */
  lemma ReportAtMalformed(lines: seq<string>, i: nat)
    requires i < |lines| && !WellFormed(lines[i])
    requires forall k :: 0 <= k < i ==> WellFormed(lines[k])
    ensures Report(lines) == Err(UnpackError(lines[i]))
  {
    FirstMalformedAt(lines, i);
  }

  lemma {:induction false} FirstMalformedAt(lines: seq<string>, i: nat)
    requires i < |lines| && !WellFormed(lines[i])
    requires forall k :: 0 <= k < i ==> WellFormed(lines[k])
    ensures FirstMalformed(lines) == i
    decreases i
  {
    if i > 0 {
      assert forall k :: 0 <= k < i - 1 ==> lines[1..][k] == lines[k + 1];
      FirstMalformedAt(lines[1..], i - 1);
    }
  }

  /** What `HardeningDetector.run` returns: one presence, or the whole report. */
  datatype HardeningResult = Presence(presence: string) | Whole(report: map<string, string>)

  /** The lookup at the end of `HardeningDetector.run` in a computed report. */
  function HardeningLookup(report: map<string, string>, feature: Option<string>): (r: Outcome<HardeningResult>)
    ensures feature.None? ==> r == Ok(Whole(report))
    ensures feature.Some? && r.Ok? ==> (
      && feature.value in FeatureMapping && FeatureMapping[feature.value] in report
      && r.value == Presence(report[FeatureMapping[feature.value]]))
    ensures feature.Some? && r.Err? ==> (
      || (feature.value !in FeatureMapping && r.error == KeyError(feature.value))
      || (feature.value in FeatureMapping && FeatureMapping[feature.value] !in report
          && r.error == KeyError(FeatureMapping[feature.value])))
  {
    match feature
    case None => Ok(Whole(report))
    case Some(f) =>
      if f !in FeatureMapping then Err(KeyError(f))
      else if FeatureMapping[f] !in report then Err(KeyError(FeatureMapping[f]))
      else Ok(Presence(report[FeatureMapping[f]]))
  }

  /** `'hardening-check {}'.format(binary_path)` */
  function HardeningCommand(binaryPath: string): string {
    "hardening-check " + binaryPath
  }

  /** A detector of hardening features of one binary; the report is computed once and kept. */
  class HardeningDetector {
    const name: string
    const binaryPath: string
    var cachedResults: Option<map<string, string>>

    constructor (name: string, binaryPath: string)
      ensures this.name == name && this.binaryPath == binaryPath && cachedResults == None
    {
      this.name := name;
      this.binaryPath := binaryPath;
      cachedResults := None;
    }

    /** The cache is used only when it holds a non-empty report. */
    predicate HasCache()
      reads this
    {
      cachedResults.Some? && cachedResults.value != map[]
    }

    /**
     * `HardeningDetector.run(parsers, **kwargs)`: without a usable cache, run hardening-check
     * (its output counts whatever its exit status) and parse the report; then look up the
     * feature, or return the whole report.
     */
    method Run(feature: Option<string>, shell: Shell) returns (r: Outcome<HardeningResult>)
      modifies this
      ensures old(HasCache()) ==> unchanged(this) && r == HardeningLookup(cachedResults.value, feature)
      ensures !old(HasCache()) ==>
        var report := Report(ReportLines(shell(HardeningCommand(binaryPath)).output));
        && (report.Err? ==> r == Err(report.error) && unchanged(this))
        && (report.Ok? ==> cachedResults == Some(report.value) && r == HardeningLookup(report.value, feature))
    {
      if !HasCache() {
        var output := shell(HardeningCommand(binaryPath)).output;
        var results := ParseReport(ReportLines(output));
        if results.Err? {
          return Err(results.error);
        }
        cachedResults := Some(results.value);
      }
      r := HardeningLookup(cachedResults.value, feature);
    }
  }

  // ---------------------------------------------------------------------------------
  // grep-based detectors
  // ---------------------------------------------------------------------------------

  const GrepError: int := 2
  const GrepNotFound: int := 1

  datatype GrepKind = NamedCast | SmartPointer

  /** `regex_mapping` of each grep detector. */
  function RegexMapping(kind: GrepKind): map<string, string> {
    match kind
    case NamedCast => map[
      "const_cast" := "const_cast<.+>",
      "dynamic_cast" := "dynamic_cast<.+>",
      "static_cast" := "static_cast<.+>",
      "reinterpret_cast" := "reinterpret_cast<.+>"]
    case SmartPointer => map[
      "unique_ptr" := "unique_ptr<.+>",
      "shared_ptr" := "shared_ptr<.+>",
      "weak_ptr" := "weak_ptr<.+>",
      "scoped_ptr" := "scoped_ptr<.+>",
      "scoped_array" := "scoped_array<.+>",
      "shared_array" := "shared_array<.+>",
      "intrusive_ptr" := "intrusive_ptr<.+>"]
  }

  function KindName(kind: GrepKind): string {
    match kind
    case NamedCast => "cast"
    case SmartPointer => "pointer"
  }

  /** The recursive, case-insensitive, extended-regex grep over the C++ headers and sources. */
  function GrepCommand(regex: string, sourcePath: string): string {
    "grep -ir --include *.h --include *.cpp -E \"" + regex + "\" " + sourcePath
  }

  datatype GrepReport = GrepReport(detected: string, occurrences: nat)

  /**
   * `NamedCastDetector.run` and `SmartPointerDetector.run`: check the requested feature,
   * run grep, read exit status 1 as "nothing found" and 2 as a failure, and count the
   * output lines.
   */
  function GrepRun(kind: GrepKind, sourcePath: string, feature: Option<string>, shell: Shell): (r: Outcome<GrepReport>)
    ensures feature.None? ==> r == Err(ValueError("Expected feature to be explicitly specified."))
    ensures feature.Some? && feature.value !in RegexMapping(kind) ==>
      r == Err(ValueError("No matching regex for " + KindName(kind) + " type " + feature.value))
    ensures feature.Some? && feature.value in RegexMapping(kind) ==>
      var command := GrepCommand(RegexMapping(kind)[feature.value], sourcePath);
      var result := shell(command);
      && (result.exitCode == GrepError ==> r == Err(Raised("Grep command (" + command + ") failed")))
      && (result.exitCode !in {0, GrepNotFound, GrepError} ==> r == Err(AssertionError))
      && (result.exitCode in {0, GrepNotFound} ==>
            && r.Ok?
            && r.value.occurrences == Count(result.output, '\n')
            && (r.value.detected == "yes" <==> r.value.occurrences > 0)
            && (r.value.detected == "no" <==> r.value.occurrences == 0))
  {
    if feature.None? then Err(ValueError("Expected feature to be explicitly specified."))
    else if feature.value !in RegexMapping(kind) then
      Err(ValueError("No matching regex for " + KindName(kind) + " type " + feature.value))
    else
      var command := GrepCommand(RegexMapping(kind)[feature.value], sourcePath);
      var result := shell(command);
      if result.exitCode != 0 && result.exitCode == GrepError then Err(Raised("Grep command (" + command + ") failed"))
      else if result.exitCode != 0 && result.exitCode != GrepNotFound then Err(AssertionError)
      else
        var pieces := SplitOn(result.output, '\n');
        var lines := pieces[..|pieces| - 1];
        var count := |lines|;
        Ok(GrepReport(if count != 0 then "yes" else "no", count))
  }
}
