/**
 * The package finder: it reads popularity-contest rank files into
 * (repository, rank, package) entries, keeps the packages the debtags list marks as
 * C++, asks `apt show` for their version and maintainer, looks for a GitHub
 * repository of the same name, and assembles at most a given number of package
 * records, starting at an offset into the rank list.
 */
module PackageFinding {
  import opened Wrappers
  import opened Text
  import opened Env
  import opened Tables

  /** What a loop that may stop on an exception leaves behind: the items it produced before, and the exception. */
  datatype Partial<T> = Partial(done: seq<T>, failure: Option<Error>)

  function Prepend<T>(items: seq<T>, p: Partial<T>): Partial<T> {
    Partial(items + p.done, p.failure)
  }

  /** One more item moves from the remaining run to the collected prefix. */
  lemma PrependOneMore<T>(whole: Partial<T>, added: seq<T>, mid: Partial<T>, x: T, tail: Partial<T>)
    requires whole == Prepend(added, mid) && mid == Prepend([x], tail)
    ensures whole == Prepend(added + [x], tail)
  {
    assert added + ([x] + tail.done) == (added + [x]) + tail.done;
  }

  /** Python's `s[offset:]` for any integer offset: a negative offset counts from the end. */
  function SliceFrom<T>(s: seq<T>, offset: int): (r: seq<T>)
    ensures |r| <= |s| && r == s[|s| - |r|..]
    ensures offset >= 0 ==> |r| == if offset >= |s| then 0 else |s| - offset
    ensures offset < 0 ==> |r| == if -offset >= |s| then |s| else -offset
  {
    if offset >= 0 then (if offset >= |s| then [] else s[offset..])
    else if -offset >= |s| then s
    else s[|s| + offset..]
  }

  // ---------------------------------------------------------------------------------
  // Popularity-contest rank files
  // ---------------------------------------------------------------------------------

  /** At most the first two whitespace-separated tokens, as `line.split()[:2]`. */
  function FirstTwo(tokens: seq<string>): (r: seq<string>)
    ensures |r| <= 2 && |r| <= |tokens| && r == tokens[..|r|]
    ensures |tokens| >= 2 ==> |r| == 2
  {
    if |tokens| <= 2 then tokens else tokens[..2]
  }

  predicate IsEndLine(line: string) {
    line == [] || line[0] == '-'
  }

  predicate IsCommentLine(line: string) {
    line != [] && line[0] == '#'
  }

  /**
   * The entries one rank file contributes: lines are read until the first one that
   * starts with '-'; comment lines are skipped; every other line gives the repository
   * name followed by the line's first two tokens.
   */
  function PopconEntries(repo: string, lines: seq<string>): (r: seq<seq<string>>)
    ensures |r| <= |lines|
    ensures forall i :: 0 <= i < |r| ==> 1 <= |r[i]| <= 3 && r[i][0] == repo
    decreases |lines|
  {
    if lines == [] || IsEndLine(lines[0]) then []
    else if IsCommentLine(lines[0]) then PopconEntries(repo, lines[1..])
    else [[repo] + FirstTwo(Tokens(lines[0]))] + PopconEntries(repo, lines[1..])
  }

  /** Nothing after the first line that starts with '-' is read. */
  lemma {:induction false} PopconStopsAtDash(repo: string, lines: seq<string>, k: nat)
    requires k < |lines| && IsEndLine(lines[k])
    ensures PopconEntries(repo, lines) == PopconEntries(repo, lines[..k])
    decreases k
  {
    if k == 0 {
      assert lines[..k] == [];
    } else {
      assert lines[..k][1..] == lines[1..][..k - 1];
      PopconStopsAtDash(repo, lines[1..], k - 1);
    }
  }

  /** Reading more lines only adds entries after those already read, as long as no end line was met. */
  lemma {:induction false} PopconAppend(repo: string, a: seq<string>, b: seq<string>)
    requires forall i :: 0 <= i < |a| ==> !IsEndLine(a[i])
    ensures PopconEntries(repo, a + b) == PopconEntries(repo, a) + PopconEntries(repo, b)
    decreases |a|
  {
    if a == [] {
      assert a + b == b;
    } else {
      assert (a + b)[1..] == a[1..] + b;
      PopconAppend(repo, a[1..], b);
    }
  }

  /** Two whitespace-free words separated by a space are the first two tokens. */
  lemma {:induction false} TokensOfTwoWords(w1: string, w2: string, rest: string)
    requires w1 != [] && forall j :: 0 <= j < |w1| ==> !IsSpace(w1[j])
    requires w2 != [] && forall j :: 0 <= j < |w2| ==> !IsSpace(w2[j])
    requires rest == [] || IsSpace(rest[0])
    ensures Tokens(w1 + ([' '] + (w2 + rest))) == [w1, w2] + Tokens(rest)
  {
    var tail := w2 + rest;
    TokensOfSpace(' ', tail);
    TokensOfWord(w2, rest);
    TokensOfWord(w1, [' '] + tail);
  }

  /** A rank line "RANK NAME ..." gives the entry (repository, RANK, NAME). */
  lemma {:induction false} PopconLine(repo: string, rank: string, name: string, rest: string)
    requires rank != [] && rank[0] != '-' && rank[0] != '#'
    requires forall j :: 0 <= j < |rank| ==> !IsSpace(rank[j])
    requires name != [] && forall j :: 0 <= j < |name| ==> !IsSpace(name[j])
    requires rest == [] || IsSpace(rest[0])
    ensures PopconEntries(repo, [rank + ([' '] + (name + rest))]) == [[repo, rank, name]]
  {
    var line: string := rank + ([' '] + (name + rest));
    var lines: seq<string> := [line];
    TokensOfTwoWords(rank, name, rest);
    assert FirstTwo(Tokens(line)) == [rank, name];
    assert line[0] == rank[0];
    assert !IsEndLine(lines[0]) && !IsCommentLine(lines[0]);
    assert lines[1..] == [];
    assert PopconEntries(repo, lines) == [[repo] + FirstTwo(Tokens(lines[0]))] + PopconEntries(repo, lines[1..]);
    assert [repo] + [rank, name] == [repo, rank, name];
  }

  /** The loop over one rank file's lines: stop at the first end line, skip comments, keep the rest. */
  method ReadPopconLines(repo: string, lines: seq<string>) returns (entries: seq<seq<string>>)
    ensures entries == PopconEntries(repo, lines)
  {
    entries := [];
    var j := 0;
    while j < |lines|
      invariant 0 <= j <= |lines|
      invariant PopconEntries(repo, lines) == entries + PopconEntries(repo, lines[j..])
    {
      var line := lines[j];
      assert lines[j..][1..] == lines[j + 1..];
      if line == [] || line[0] == '-' {
        break;
      }
      if line[0] == '#' {
        j := j + 1;
        continue;
      }
      entries := entries + [[repo] + FirstTwo(Tokens(line))];
      j := j + 1;
    }
    if j == |lines| {
      assert lines[j..] == [];
    }
  }

  /**
   * All rank files, repository by repository: the entries read before a file that
   * cannot be opened, and the IOError it raises.
   */
  function PopconScan(repos: seq<(string, string)>, fs: FileSystem, cwd: string): (r: Partial<seq<string>>)
    ensures forall i :: 0 <= i < |r.done| ==> 1 <= |r.done[i]| <= 3
    decreases |repos|
  {
    if repos == [] then Partial([], None)
    else
      match ReadFile(fs, PathJoin(cwd, repos[0].1))
      case Err(e) => Partial([], Some(e))
      case Ok(text) => Prepend(PopconEntries(repos[0].0, ReadLines(text)), PopconScan(repos[1..], fs, cwd))
  }

  /** The scan fails iff some rank file cannot be read, and then with the IOError of the first such file. */
  lemma {:induction false} PopconScanFailure(repos: seq<(string, string)>, fs: FileSystem, cwd: string)
    ensures var r := PopconScan(repos, fs, cwd);
      && (r.failure.None? <==> forall i :: 0 <= i < |repos| ==> IsFile(fs, PathJoin(cwd, repos[i].1)))
      && (r.failure.Some? ==>
            exists i ::
              && 0 <= i < |repos| && !IsFile(fs, PathJoin(cwd, repos[i].1))
              && r.failure == Some(IOError(PathJoin(cwd, repos[i].1)))
              && forall j :: 0 <= j < i ==> IsFile(fs, PathJoin(cwd, repos[j].1)))
    decreases |repos|
  {
    if repos != [] && IsFile(fs, PathJoin(cwd, repos[0].1)) {
      var rest := repos[1..];
      PopconScanFailure(rest, fs, cwd);
      assert forall i :: 0 < i < |repos| ==> repos[i] == rest[i - 1];
      var r := PopconScan(rest, fs, cwd);
      if r.failure.Some? {
        var i :| && 0 <= i < |rest| && !IsFile(fs, PathJoin(cwd, rest[i].1))
                 && r.failure == Some(IOError(PathJoin(cwd, rest[i].1)))
                 && forall j :: 0 <= j < i ==> IsFile(fs, PathJoin(cwd, rest[j].1));
        assert !IsFile(fs, PathJoin(cwd, repos[i + 1].1));
      }
    }
  }

  /** The debtags list: the set of its lines. */
  function DebtagsSet(text: string): (r: set<string>)
    ensures forall x :: x in r <==> x in SplitLines(text)
  {
    set x | x in SplitLines(text)
  }

  const DebtagsPath: string := "debtags_cpp.txt"
  const ChangelogPath: string := "debian/changelog"
  const MakefilePaths: seq<string> := ["Makefile", "Makefile.am", "CMakeLists.txt"]
  const CppMarker: string := "CXX_FLAGS"

  // ---------------------------------------------------------------------------------
  // Facts from a source tree
  // ---------------------------------------------------------------------------------

  /** One of the build files exists and mentions `CXX_FLAGS`. */
  ghost predicate CppBuildFile(srcPath: string, fs: FileSystem, i: int) {
    && 0 <= i < |MakefilePaths|
    && IsFile(fs, PathJoin(srcPath, MakefilePaths[i]))
    && Contains(fs[PathJoin(srcPath, MakefilePaths[i])].text, CppMarker)
  }

  /** `_is_cpp_project_from_src`: look at each build file in turn, skipping those that do not exist. */
  method IsCppProjectFromSrc(srcPath: string, fs: FileSystem) returns (b: bool)
    ensures b <==> exists i :: CppBuildFile(srcPath, fs, i)
  {
    var i := 0;
    while i < |MakefilePaths|
      invariant 0 <= i <= |MakefilePaths|
      invariant forall j :: 0 <= j < i ==> !CppBuildFile(srcPath, fs, j)
    {
      var path := PathJoin(srcPath, MakefilePaths[i]);
      if IsFile(fs, path) {
        var contents := fs[path].text;
        if Contains(contents, CppMarker) {
          assert CppBuildFile(srcPath, fs, i);
          return true;
        }
      }
      i := i + 1;
    }
    return false;
  }

  /** The version in a changelog's top line: the second token, without the parentheses around it. */
  function ChangelogVersion(firstLine: string): (r: Option<string>)
    ensures r.Some? <==> (
      && |Tokens(firstLine)| >= 2
      && |Tokens(firstLine)[1]| >= 2
      && Tokens(firstLine)[1][0] == '('
      && Tokens(firstLine)[1][|Tokens(firstLine)[1]| - 1] == ')')
    ensures r.Some? ==> Tokens(firstLine)[1] == "(" + r.value + ")"
  {
    var tokens := Tokens(firstLine);
    if |tokens| < 2 then None
    else
      var v := tokens[1];
      if |v| < 2 || v[0] != '(' || v[|v| - 1] != ')' then None
      else
        assert v == "(" + v[1..|v| - 1] + ")";
        Some(v[1..|v| - 1])
  }

  /**
   * A top line in the Debian changelog format, "package (version) distributions; urgency=...",
   * yields its version.
   */
  lemma {:induction false} ChangelogVersionOfTopLine(package: string, version: string, rest: string)
    requires package != [] && forall j :: 0 <= j < |package| ==> !IsSpace(package[j])
    requires forall j :: 0 <= j < |version| ==> !IsSpace(version[j])
    requires rest == [] || IsSpace(rest[0])
    ensures ChangelogVersion(package + " (" + version + ")" + rest) == Some(version)
  {
    var v := "(" + version + ")";
    assert forall j :: 0 <= j < |v| ==> !IsSpace(v[j]) by {
      forall j | 0 <= j < |v| ensures !IsSpace(v[j]) {
        if 0 < j < |v| - 1 { assert v[j] == version[j - 1]; }
      }
    }
    var line := package + " (" + version + ")" + rest;
    assert line == package + ([' '] + (v + rest));
    TokensOfTwoWords(package, v, rest);
    assert Tokens(line)[1] == v;
    assert v[1..|v| - 1] == version;
  }

  /** `_extract_version_number_from_src`: the version in the top line of `debian/changelog`. */
  function VersionFromSrc(srcPath: string, fs: FileSystem): (r: Outcome<Option<string>>)
    ensures r.Err? <==> !IsFile(fs, PathJoin(srcPath, ChangelogPath))
    ensures r.Ok? ==> r.value == ChangelogVersion(FirstLine(fs[PathJoin(srcPath, ChangelogPath)].text))
  {
    match ReadFile(fs, PathJoin(srcPath, ChangelogPath))
    case Err(e) => Err(e)
    case Ok(text) => Ok(ChangelogVersion(FirstLine(text)))
  }

  // ---------------------------------------------------------------------------------
  // `apt show` fields
  // ---------------------------------------------------------------------------------

  const FieldSeparator: string := ": "

  /** The key/value pairs of the lines that contain ": ", split at its first occurrence. */
  function FieldPairs(lines: seq<string>): (r: seq<(string, string)>)
    ensures |r| <= |lines|
    decreases |lines|
  {
    if lines == [] then []
    else
      match SplitOnce(lines[0], FieldSeparator)
      case None => FieldPairs(lines[1..])
      case Some(kv) => [kv] + FieldPairs(lines[1..])
  }

  /** The value of a field, None when no line carries it; a repeated field keeps its last value. */
  function FieldValue(lines: seq<string>, attribute: string): Option<string> {
    var fields := Table(map[], FieldPairs(lines));
    if attribute in fields then Some(fields[attribute]) else None
  }

  /** A line adds a field exactly when it contains ": ". */
  lemma {:induction false} FieldPairsSnoc(lines: seq<string>, line: string)
    ensures FieldPairs(lines + [line]) ==
      FieldPairs(lines) + (if Contains(line, FieldSeparator) then [SplitOnce(line, FieldSeparator).value] else [])
    decreases |lines|
  {
    if lines == [] {
      assert [] + [line] == [line];
      assert |[line][1..]| == 0;
    } else {
      assert (lines + [line])[1..] == lines[1..] + [line];
      FieldPairsSnoc(lines[1..], line);
    }
  }

  /** The last line "KEY: VALUE" with the asked-for key decides the value. */
  lemma {:induction false} FieldValueLastLine(lines: seq<string>, attribute: string, value: string)
    requires !Contains(attribute, FieldSeparator)
    ensures FieldValue(lines + [attribute + FieldSeparator + value], attribute) == Some(value)
  {
    var line := attribute + FieldSeparator + value;
    SplitAtKey(attribute, value);
    FieldPairsSnoc(lines, line);
    TableSnoc(map[], FieldPairs(lines), (attribute, value));
  }

  /** "KEY: VALUE" splits at the ": " after KEY when KEY itself has no ": ". */
  lemma {:induction false} SplitAtKey(key: string, value: string)
    requires !Contains(key, FieldSeparator)
    ensures Contains(key + FieldSeparator + value, FieldSeparator)
    ensures SplitOnce(key + FieldSeparator + value, FieldSeparator) == Some((key, value))
  {
    var line := key + FieldSeparator + value;
    assert line[|key|..|key| + 2] == FieldSeparator;
    ContainsAt(line, FieldSeparator, |key|);
    var s := SplitOnce(line, FieldSeparator).value;
    var a := s.0;
    if |a| > |key| {
      SeparatorAfterKey(key, value);
      assert false;
    }
    if |a| < |key| {
      NoSeparatorBefore(key, value, |a|);
      assert false;
    }
    assert line[..|a|] == a && line[..|key|] == key;
    assert line[|a| + 2..] == s.1 && line[|key| + 2..] == value;
  }

  lemma {:induction false} SeparatorAfterKey(key: string, value: string)
    ensures StartsWith((key + FieldSeparator + value)[|key|..], FieldSeparator)
  {
    assert (key + FieldSeparator + value)[|key|..] == FieldSeparator + value;
  }

  lemma SeparatorChars(line: string, k: nat)
    requires k <= |line| && StartsWith(line[k..], FieldSeparator)
    ensures k + 1 < |line| && line[k] == ':' && line[k + 1] == ' '
  {
    assert line[k..][..2] == FieldSeparator;
    assert line[k..][0] == line[k] && line[k..][1] == line[k + 1];
  }

  /** No ": " starts inside a KEY that has none, in "KEY: VALUE". */
  lemma {:induction false} NoSeparatorBefore(key: string, value: string, k: nat)
    requires !Contains(key, FieldSeparator) && k < |key|
    ensures !StartsWith((key + FieldSeparator + value)[k..], FieldSeparator)
  {
    var line := key + FieldSeparator + value;
    if StartsWith(line[k..], FieldSeparator) {
      assert line[k..][..2] == line[k..k + 2];
      if k + 2 <= |key| {
        assert key[k..k + 2] == line[k..k + 2];
        ContainsAt(key, FieldSeparator, k);
      } else {
        SeparatorAfterKey(key, value);
        SeparatorChars(line, k);
        assert false;
      }
    }
  }

  /** Lines without ": " leave the fields as they were. */
  lemma {:induction false} FieldValueIgnoresPlainLine(lines: seq<string>, line: string, attribute: string)
    requires !Contains(line, FieldSeparator)
    ensures FieldValue(lines + [line], attribute) == FieldValue(lines, attribute)
  {
    FieldPairsSnoc(lines, line);
    assert FieldPairs(lines) + [] == FieldPairs(lines);
  }

  function AptShowCommand(packageName: string): string {
    "apt show " + packageName
  }

  /** `_get_package_attribute`: run `apt show` and look up one field of its output. */
  function PackageAttribute(packageName: string, attribute: string, apt: Shell): (r: Outcome<Option<string>>)
    ensures r.Err? <==> apt(AptShowCommand(packageName)).exitCode != 0
    ensures r.Err? ==> r.error.CalledProcessError?
    ensures r.Ok? ==> r.value == FieldValue(SplitLines(apt(AptShowCommand(packageName)).output), attribute)
  {
    match CheckOutput(apt, AptShowCommand(packageName))
    case Err(e) => Err(e)
    case Ok(output) => Ok(FieldValue(SplitLines(output), attribute))
  }

  /** Python truthiness of an optional string: present and not empty. */
  predicate Truthy(v: Option<string>) {
    v.Some? && v.value != []
  }

  /**
   * `_is_cpp_project` with debtags: a package counts when the debtags list names it and
   * `apt show` reports a non-empty version; any failure on the way gives (False, None).
   * The list not having been read (`None`) fails the membership test the same way.
   */
  function IsCppProject(packageName: string, debtags: Option<set<string>>, apt: Shell): (r: (bool, Option<string>))
    ensures r.0 <==> (
      && debtags.Some? && packageName in debtags.value && Truthy(r.1)
      && PackageAttribute(packageName, "Version", apt) == Ok(r.1))
    ensures !r.0 ==> r.1 == None
    ensures r.0 ==> Truthy(r.1)
  {
    if debtags.None? || packageName !in debtags.value then (false, None)
    else
      match PackageAttribute(packageName, "Version", apt)
      case Err(_) => (false, None)
      case Ok(version) => if !Truthy(version) then (false, None) else (true, version)
  }

  // ---------------------------------------------------------------------------------
  // Repository search
  // ---------------------------------------------------------------------------------

  /** One item of a repository search: its name and its clone URL. */
  datatype RepoItem = RepoItem(name: string, cloneUrl: string)

  /** The search service as an oracle: the items it answers a search URL with. */
  type Search = string -> seq<RepoItem>

  function SearchUrls(packageName: string): seq<string> {
    [ "https://api.github.com/search/repositories?q=" + packageName + "&sort=stars&order=desc",
      "https://api.github.com/search/repositories?q=" + packageName + "+mirror:true&sort=stars&order=desc" ]
  }

  function Matching(items: seq<RepoItem>, packageName: string): (r: seq<RepoItem>)
    ensures forall i :: 0 <= i < |r| ==> r[i].name == packageName && r[i] in items
    decreases |items|
  {
    if items == [] then []
    else (if items[0].name == packageName then [items[0]] else []) + Matching(items[1..], packageName)
  }

  /** Item i is the only one named after the package. */
  predicate OnlyNamed(items: seq<RepoItem>, packageName: string, i: int) {
    0 <= i < |items| && items[i].name == packageName &&
    forall j :: 0 <= j < |items| && j != i ==> items[j].name != packageName
  }

  lemma {:induction false} MatchingNone(items: seq<RepoItem>, packageName: string)
    ensures Matching(items, packageName) == [] <==> forall j :: 0 <= j < |items| ==> items[j].name != packageName
    decreases |items|
  {
    if items != [] {
      MatchingNone(items[1..], packageName);
      if forall j :: 0 <= j < |items[1..]| ==> items[1..][j].name != packageName {
        forall j | 1 <= j < |items| ensures items[j].name != packageName {
          assert items[1..][j - 1] == items[j];
        }
      }
    }
  }

  lemma {:induction false} MatchingOne(items: seq<RepoItem>, packageName: string)
    requires |Matching(items, packageName)| == 1
    ensures exists i :: OnlyNamed(items, packageName, i) && Matching(items, packageName) == [items[i]]
    decreases |items|
  {
    if items[0].name == packageName {
      MatchingNone(items[1..], packageName);
      assert OnlyNamed(items, packageName, 0) by {
        forall j | 1 <= j < |items| ensures items[j].name != packageName {
          assert items[1..][j - 1] == items[j];
        }
      }
    } else {
      MatchingOne(items[1..], packageName);
      var i :| OnlyNamed(items[1..], packageName, i) && Matching(items[1..], packageName) == [items[1..][i]];
      assert OnlyNamed(items, packageName, i + 1) by {
        forall j | 0 <= j < |items| && j != i + 1 ensures items[j].name != packageName {
          if j > 0 { assert items[1..][j - 1] == items[j]; }
        }
      }
    }
  }

  lemma {:induction false} OnlyNamedMatching(items: seq<RepoItem>, packageName: string, i: int)
    requires OnlyNamed(items, packageName, i)
    ensures Matching(items, packageName) == [items[i]]
    decreases |items|
  {
    if i == 0 {
      MatchingNone(items[1..], packageName);
      forall j | 0 <= j < |items[1..]| ensures items[1..][j].name != packageName {
        assert items[1..][j] == items[j + 1];
      }
    } else {
      assert OnlyNamed(items[1..], packageName, i - 1) by {
        forall j | 0 <= j < |items[1..]| && j != i - 1 ensures items[1..][j].name != packageName {
          assert items[1..][j] == items[j + 1];
        }
      }
      OnlyNamedMatching(items[1..], packageName, i - 1);
    }
  }

  /** The matching step of `_get_git_repo`: a clone URL only when exactly one item is named after the package. */
  function UniqueMatch(items: seq<RepoItem>, packageName: string): (r: Option<string>)
    ensures r.Some? ==> exists i :: OnlyNamed(items, packageName, i) && r.value == items[i].cloneUrl
    ensures forall i :: OnlyNamed(items, packageName, i) ==> r == Some(items[i].cloneUrl)
  {
    var m := Matching(items, packageName);
    if |m| == 1 then
      MatchingOne(items, packageName);
      Some(m[0].cloneUrl)
    else
      assert forall i :: OnlyNamed(items, packageName, i) ==> false by {
        forall i | OnlyNamed(items, packageName, i) ensures false {
          OnlyNamedMatching(items, packageName, i);
        }
      }
      None
  }

  /** `_get_git_repo`: the all-repositories search first, then the mirrors-only search. */
  function GitRepo(packageName: string, search: Search): (r: Option<string>)
    ensures r.Some? ==> exists k :: 0 <= k < 2 && UniqueMatch(search(SearchUrls(packageName)[k]), packageName) == r
    ensures UniqueMatch(search(SearchUrls(packageName)[0]), packageName).Some? ==>
      r == UniqueMatch(search(SearchUrls(packageName)[0]), packageName)
    ensures r.None? <==>
      && UniqueMatch(search(SearchUrls(packageName)[0]), packageName).None?
      && UniqueMatch(search(SearchUrls(packageName)[1]), packageName).None?
  {
    var urls := SearchUrls(packageName);
    match UniqueMatch(search(urls[0]), packageName)
    case Some(url) => Some(url)
    case None => UniqueMatch(search(urls[1]), packageName)
  }

  // ---------------------------------------------------------------------------------
  // Package records
  // ---------------------------------------------------------------------------------

  /** One package record; the optional keys are present (Some) only when their value is truthy. */
  datatype PackageInfo = PackageInfo(
    packageName: string,
    versionNumber: string,
    source: string,
    rank: string,
    downloadBinaryCmd: string,
    downloadSourceCmd: string,
    gitRepoUrl: Option<string>,
    buildLogUrl: Option<string>,
    maintainer: Option<string>)

  function KeepTruthy(v: Option<string>): (r: Option<string>)
    ensures r.Some? <==> Truthy(v)
    ensures r.Some? ==> r == v
  {
    if Truthy(v) then v else None
  }

  /** The record for a C++ package; no build log URL is ever found. */
  function MakeInfo(repoName: string, rank: string, packageName: string, version: string,
                    gitRepoUrl: Option<string>, maintainer: Option<string>): (r: PackageInfo)
    ensures r.downloadBinaryCmd == "apt-get download " + packageName + "=" + version
    ensures r.downloadSourceCmd == "apt-get source " + packageName + "=" + version
    ensures r.gitRepoUrl.Some? <==> Truthy(gitRepoUrl)
    ensures r.maintainer.Some? <==> Truthy(maintainer)
    ensures r.buildLogUrl.None?
    ensures r.packageName == packageName && r.versionNumber == version && r.source == repoName && r.rank == rank
    ensures r.gitRepoUrl.Some? ==> r.gitRepoUrl == gitRepoUrl
    ensures r.maintainer.Some? ==> r.maintainer == maintainer
  {
    PackageInfo(packageName, version, repoName, rank,
      "apt-get download " + packageName + "=" + version,
      "apt-get source " + packageName + "=" + version,
      KeepTruthy(gitRepoUrl), None, KeepTruthy(maintainer))
  }

  /** Python 2's message for unpacking a short tuple into three names. */
  function UnpackMessage(n: nat): string {
    if n == 1 then "need more than 1 value to unpack"
    else if n < 3 then "need more than " + [('0' as int + n) as char] + " values to unpack"
    else "too many values to unpack"
  }

  /** A record `GenerateInfos` produced for a package the debtags list marks as C++, with its version. */
  predicate ProducedFor(info: PackageInfo, debtags: Option<set<string>>) {
    && debtags.Some? && info.packageName in debtags.value
    && info.versionNumber != []
    && info.downloadBinaryCmd == "apt-get download " + info.packageName + "=" + info.versionNumber
    && info.downloadSourceCmd == "apt-get source " + info.packageName + "=" + info.versionNumber
  }

  /** A package `_generate_package_infos` keeps: its entry and the version `apt show` reported. */
  datatype Pick = Pick(repoName: string, rank: string, packageName: string, version: string)

  /** `_is_cpp_project` as the loop uses it: the version of a C++ package, None for any other. */
  function CppVersion(debtags: Option<set<string>>, apt: Shell): string -> Option<string> {
    packageName => IsCppProject(packageName, debtags, apt).1
  }

  lemma CppVersionOfCpp(packageName: string, debtags: Option<set<string>>, apt: Shell)
    ensures CppVersion(debtags, apt)(packageName).Some? <==> IsCppProject(packageName, debtags, apt).0
  {
  }

  /**
   * Which packages `_generate_package_infos` keeps, from index `from` on, `count` having been
   * kept before: each entry is unpacked, the loop stops once `count` reaches `numPackages`,
   * and the packages `version` reports no version for are skipped.
   */
  function Picks(entries: seq<seq<string>>, from: nat, count: nat, numPackages: int,
                 version: string -> Option<string>): Partial<Pick>
    decreases |entries| - from
  {
    if from >= |entries| then Partial([], None)
    else
      var e := entries[from];
      if |e| != 3 then Partial([], Some(ValueError(UnpackMessage(|e|))))
      else if count == numPackages then Partial([], None)
      else
        match version(e[2])
        case None => Picks(entries, from + 1, count, numPackages, version)
        case Some(v) => Prepend([Pick(e[0], e[1], e[2], v)], Picks(entries, from + 1, count + 1, numPackages, version))
  }

  /**
   * The record for a kept package: its clone URL from `_get_git_repo` and its maintainer
   * from `apt show` (a lookup that cannot fail for a kept package, see `PickedMaintainerFound`).
   */
  function RecordFor(p: Pick, apt: Shell, search: Search): PackageInfo {
    var maintainer := match PackageAttribute(p.packageName, "Maintainer", apt)
      case Ok(m) => m
      // unreachable for a kept package, whose `apt show` already succeeded (PickedMaintainerFound);
      // the source would let the CalledProcessError propagate
      case Err(_) => None;
    MakeInfo(p.repoName, p.rank, p.packageName, p.version, GitRepo(p.packageName, search), maintainer)
  }

  function Recorder(apt: Shell, search: Search): Pick -> PackageInfo {
    p => RecordFor(p, apt, search)
  }

  function Records(picks: seq<Pick>, record: Pick -> PackageInfo): (r: seq<PackageInfo>)
    ensures |r| == |picks|
  {
    seq(|picks|, k requires 0 <= k < |picks| => record(picks[k]))
  }

  lemma RecordsSnoc(picks: seq<Pick>, p: Pick, record: Pick -> PackageInfo)
    ensures Records(picks + [p], record) == Records(picks, record) + [record(p)]
  {
  }

  /** `_generate_package_infos` from index `from` on: the records of the packages it keeps. */
  function GenerateInfos(entries: seq<seq<string>>, from: nat, count: nat, numPackages: int,
                         debtags: Option<set<string>>, apt: Shell, search: Search): Partial<PackageInfo>
  {
    var p := Picks(entries, from, count, numPackages, CppVersion(debtags, apt));
    Partial(Records(p.done, Recorder(apt, search)), p.failure)
  }

  /** Starting below the limit, the packages kept never exceed it. */
  lemma {:induction false} PicksWithinLimit(entries: seq<seq<string>>, from: nat, count: nat, numPackages: int,
                                            version: string -> Option<string>)
    requires count <= numPackages
    ensures count + |Picks(entries, from, count, numPackages, version).done| <= numPackages
    decreases |entries| - from
  {
    if from < |entries| && |entries[from]| == 3 && count != numPackages {
      if version(entries[from][2]).Some? {
        PicksWithinLimit(entries, from + 1, count + 1, numPackages, version);
      } else {
        PicksWithinLimit(entries, from + 1, count, numPackages, version);
      }
    }
  }

  /** Each package kept carries the version reported for it, in the order of the entries. */
  lemma {:induction false} PicksCarryVersions(entries: seq<seq<string>>, from: nat, count: nat, numPackages: int,
                                              version: string -> Option<string>)
    ensures forall k :: 0 <= k < |Picks(entries, from, count, numPackages, version).done| ==>
      var p := Picks(entries, from, count, numPackages, version).done[k];
      version(p.packageName) == Some(p.version)
    decreases |entries| - from
  {
    if from < |entries| && |entries[from]| == 3 && count != numPackages {
      var e := entries[from];
      if version(e[2]).Some? {
        var pick := Pick(e[0], e[1], e[2], version(e[2]).value);
        var rest := Picks(entries, from + 1, count + 1, numPackages, version);
        PicksCarryVersions(entries, from + 1, count + 1, numPackages, version);
        var r := Picks(entries, from, count, numPackages, version);
        assert r.done == [pick] + rest.done;
        forall k | 0 <= k < |r.done|
          ensures version(r.done[k].packageName) == Some(r.done[k].version)
        {
          if k > 0 {
            assert r.done[k] == rest.done[k - 1];
          }
        }
      } else {
        PicksCarryVersions(entries, from + 1, count, numPackages, version);
      }
    }
  }

  /** A package kept is one the debtags list names, with the non-empty version `apt show` reported. */
  predicate CppPick(p: Pick, debtags: Option<set<string>>, apt: Shell) {
    && debtags.Some? && p.packageName in debtags.value && p.version != []
    && PackageAttribute(p.packageName, "Version", apt) == Ok(Some(p.version))
  }

  lemma CppVersionPick(p: Pick, debtags: Option<set<string>>, apt: Shell)
    requires CppVersion(debtags, apt)(p.packageName) == Some(p.version)
    ensures CppPick(p, debtags, apt)
  {
    CppVersionOfCpp(p.packageName, debtags, apt);
  }

  /** Every record is for a C++ package, with its version in the download commands. */
  lemma GenerateProducesCpp(entries: seq<seq<string>>, from: nat, count: nat, numPackages: int,
                            debtags: Option<set<string>>, apt: Shell, search: Search)
    ensures var r := GenerateInfos(entries, from, count, numPackages, debtags, apt, search);
      forall i :: 0 <= i < |r.done| ==> ProducedFor(r.done[i], debtags)
  {
    var version := CppVersion(debtags, apt);
    var p := Picks(entries, from, count, numPackages, version);
    PicksCarryVersions(entries, from, count, numPackages, version);
    forall i | 0 <= i < |p.done|
      ensures ProducedFor(Records(p.done, Recorder(apt, search))[i], debtags)
    {
      assert version(p.done[i].packageName) == Some(p.done[i].version);
      CppVersionPick(p.done[i], debtags, apt);
    }
  }

  /** The maintainer lookup runs the command the successful version lookup ran, so it succeeds too. */
  lemma PickedMaintainerFound(p: Pick, debtags: Option<set<string>>, apt: Shell)
    requires CppPick(p, debtags, apt)
    ensures PackageAttribute(p.packageName, "Maintainer", apt).Ok?
  {
  }

  /** A short entry fails to unpack. */
  lemma {:induction false} PicksUnpackError(entries: seq<seq<string>>, from: nat, count: nat, numPackages: int,
                                            version: string -> Option<string>)
    requires from < |entries| && |entries[from]| != 3
    ensures Picks(entries, from, count, numPackages, version) ==
      Partial([], Some(ValueError(UnpackMessage(|entries[from]|))))
  {
  }

  lemma {:induction false} PicksSkip(entries: seq<seq<string>>, from: nat, count: nat, numPackages: int,
                                     version: string -> Option<string>)
    requires from < |entries| && |entries[from]| == 3 && count != numPackages
    requires version(entries[from][2]).None?
    ensures Picks(entries, from, count, numPackages, version) ==
      Picks(entries, from + 1, count, numPackages, version)
  {
  }

  lemma {:induction false} PicksAdd(entries: seq<seq<string>>, from: nat, count: nat, numPackages: int,
                                    version: string -> Option<string>)
    requires from < |entries| && |entries[from]| == 3 && count != numPackages
    requires version(entries[from][2]).Some?
    ensures var e := entries[from];
      Picks(entries, from, count, numPackages, version) ==
      Prepend([Pick(e[0], e[1], e[2], version(e[2]).value)], Picks(entries, from + 1, count + 1, numPackages, version))
  {
  }

  /** Once the limit is reached the next well-formed entry ends the loop with nothing added. */
  lemma {:induction false} PicksStopAtLimit(entries: seq<seq<string>>, from: nat, count: nat,
                                            version: string -> Option<string>)
    requires from < |entries| && |entries[from]| == 3
    ensures Picks(entries, from, count, count, version) == Partial([], None)
  {
  }

  /** The packages the debtags list does not name leave no record and do not count towards the limit. */
  lemma {:induction false} PicksSkipNonCpp(entries: seq<seq<string>>, from: nat, count: nat, numPackages: int,
                                           debtags: Option<set<string>>, apt: Shell)
    requires from < |entries| && |entries[from]| == 3 && count != numPackages
    requires debtags.None? || entries[from][2] !in debtags.value
    ensures Picks(entries, from, count, numPackages, CppVersion(debtags, apt)) ==
      Picks(entries, from + 1, count, numPackages, CppVersion(debtags, apt))
  {
    PicksSkip(entries, from, count, numPackages, CppVersion(debtags, apt));
  }

  /**
   * The loop of `_generate_package_infos`, `count0` records having been collected before it;
   * `version` is the C++ check and `record` assembles the record of a package kept.
   */
  method CollectInfos(entries: seq<seq<string>>, count0: nat, numPackages: int,
                      version: string -> Option<string>, record: Pick -> PackageInfo)
    returns (added: seq<PackageInfo>, failure: Option<Error>)
    ensures var p := Picks(entries, 0, count0, numPackages, version);
      added == Records(p.done, record) && failure == p.failure
  {
    ghost var whole := Picks(entries, 0, count0, numPackages, version);
    ghost var picked: seq<Pick> := [];
    added := [];
    var i := 0;
    assert [] + whole.done == whole.done;
    while i < |entries|
      invariant 0 <= i <= |entries|
      invariant whole == Prepend(picked, Picks(entries, i, count0 + |picked|, numPackages, version))
      invariant added == Records(picked, record) && |added| == |picked|
    {
      var count := count0 + |added|;
      var e := entries[i];
      if |e| != 3 {
        PicksUnpackError(entries, i, count, numPackages, version);
        assert picked + [] == picked;
        return added, Some(ValueError(UnpackMessage(|e|)));
      }
      if count == numPackages {
        PicksStopAtLimit(entries, i, count, version);
        assert picked + [] == picked;
        return added, None;
      }
      var v := version(e[2]);
      if v.Some? {
        var pick := Pick(e[0], e[1], e[2], v.value);
        var info := record(pick);
        PicksAdd(entries, i, count, numPackages, version);
        PrependOneMore(whole, picked, Picks(entries, i, count, numPackages, version), pick,
                       Picks(entries, i + 1, count + 1, numPackages, version));
        RecordsSnoc(picked, pick, record);
        picked := picked + [pick];
        added := added + [info];
      } else {
        PicksSkip(entries, i, count, numPackages, version);
      }
      i := i + 1;
    }
    assert picked + [] == picked;
    return added, None;
  }

  // ---------------------------------------------------------------------------------
  // The finder
  // ---------------------------------------------------------------------------------

  class PackageFinder {
    const numPackages: int
    /** The rank files, as (repository name, rank file path) in the order the config lists them. */
    const repos: seq<(string, string)>
    const startOffset: int
    var packagesList: seq<seq<string>>
    var debtagsCppPackages: Option<set<string>>
    var packageInfos: seq<PackageInfo>

    constructor (numPackages: int, repos: seq<(string, string)>, startOffset: int)
      ensures this.numPackages == numPackages && this.repos == repos && this.startOffset == startOffset
      ensures packagesList == [] && debtagsCppPackages == None && packageInfos == []
    {
      this.numPackages := numPackages;
      this.repos := repos;
      this.startOffset := startOffset;
      packagesList := [];
      debtagsCppPackages := None;
      packageInfos := [];
    }

    /** `_extract_package_names`: read each rank file line by line, appending its entries. */
    method ExtractPackageNames(fs: FileSystem, cwd: string) returns (r: Option<Error>)
      modifies this
      ensures packagesList == old(packagesList) + PopconScan(repos, fs, cwd).done
      ensures r == PopconScan(repos, fs, cwd).failure
      ensures debtagsCppPackages == old(debtagsCppPackages) && packageInfos == old(packageInfos)
    {
      var added: seq<seq<string>> := [];
      var i := 0;
      while i < |repos|
        invariant 0 <= i <= |repos|
        invariant PopconScan(repos, fs, cwd) == Prepend(added, PopconScan(repos[i..], fs, cwd))
        invariant unchanged(this)
      {
        var (repoName, popconPath) := repos[i];
        var file := ReadFile(fs, PathJoin(cwd, popconPath));
        if file.Err? {
          packagesList := packagesList + added;
          return Some(file.error);
        }
        var fromFile := ReadPopconLines(repoName, ReadLines(file.value));
        assert repos[i..][1..] == repos[i + 1..];
        added := added + fromFile;
        i := i + 1;
      }
      assert repos[i..] == [];
      packagesList := packagesList + added;
      return None;
    }

    /** `_extract_debtags_package_names` */
    method ExtractDebtags(fs: FileSystem) returns (r: Option<Error>)
      modifies this
      ensures IsFile(fs, DebtagsPath) ==> r.None? && debtagsCppPackages == Some(DebtagsSet(fs[DebtagsPath].text))
      ensures !IsFile(fs, DebtagsPath) ==> r == Some(IOError(DebtagsPath)) && debtagsCppPackages == old(debtagsCppPackages)
      ensures packagesList == old(packagesList) && packageInfos == old(packageInfos)
    {
      var contents := ReadFile(fs, DebtagsPath);
      if contents.Err? {
        return Some(contents.error);
      }
      debtagsCppPackages := Some(DebtagsSet(contents.value));
      return None;
    }

    /**
     * `_generate_package_infos`: walk the entries from the start offset, appending a
     * record per C++ package until `numPackages` records exist.
     */
    method GeneratePackageInfos(apt: Shell, search: Search) returns (r: Option<Error>)
      modifies this
      ensures var g := GenerateInfos(SliceFrom(packagesList, startOffset), 0, |old(packageInfos)|,
                                     numPackages, debtagsCppPackages, apt, search);
        packageInfos == old(packageInfos) + g.done && r == g.failure
      ensures packagesList == old(packagesList) && debtagsCppPackages == old(debtagsCppPackages)
      ensures |old(packageInfos)| <= numPackages ==> |packageInfos| <= numPackages
      ensures forall i :: |old(packageInfos)| <= i < |packageInfos| ==> ProducedFor(packageInfos[i], debtagsCppPackages)
    {
      var entries := SliceFrom(packagesList, startOffset);
      var added;
      added, r := CollectInfos(entries, |packageInfos|, numPackages,
                               CppVersion(debtagsCppPackages, apt), Recorder(apt, search));
      GenerateProducesCpp(entries, 0, |packageInfos|, numPackages, debtagsCppPackages, apt, search);
      if |packageInfos| <= numPackages {
        PicksWithinLimit(entries, 0, |packageInfos|, numPackages, CppVersion(debtagsCppPackages, apt));
      }
      packageInfos := packageInfos + added;
    }

    /** `run`: read the rank files and the debtags list, then assemble the records. */
    method Run(fs: FileSystem, cwd: string, apt: Shell, search: Search) returns (r: Outcome<seq<PackageInfo>>)
      modifies this
      // the rank files are read first, and their entries kept even when one of them fails
      ensures packagesList == old(packagesList) + PopconScan(repos, fs, cwd).done
      ensures PopconScan(repos, fs, cwd).failure.Some? ==>
        && r == Err(PopconScan(repos, fs, cwd).failure.value)
        && debtagsCppPackages == old(debtagsCppPackages) && packageInfos == old(packageInfos)
      // then the debtags list
      ensures PopconScan(repos, fs, cwd).failure.None? && !IsFile(fs, DebtagsPath) ==>
        && r == Err(IOError(DebtagsPath))
        && debtagsCppPackages == old(debtagsCppPackages) && packageInfos == old(packageInfos)
      // then the records, from the offset into all entries read
      ensures PopconScan(repos, fs, cwd).failure.None? && IsFile(fs, DebtagsPath) ==>
        var g := GenerateInfos(SliceFrom(old(packagesList) + PopconScan(repos, fs, cwd).done, startOffset), 0,
                               |old(packageInfos)|, numPackages, Some(DebtagsSet(fs[DebtagsPath].text)), apt, search);
        && packageInfos == old(packageInfos) + g.done
        && r == (if g.failure.Some? then Err(g.failure.value) else Ok(packageInfos))
      ensures r.Ok? ==> r.value == packageInfos
      ensures r.Ok? && old(packageInfos) == [] && numPackages >= 0 ==> |r.value| <= numPackages
      ensures r.Ok? ==> forall i :: |old(packageInfos)| <= i < |r.value| ==> ProducedFor(r.value[i], debtagsCppPackages)
      ensures r.Ok? ==> IsFile(fs, DebtagsPath) && debtagsCppPackages == Some(DebtagsSet(fs[DebtagsPath].text))
    {
      var failure := ExtractPackageNames(fs, cwd);
      if failure.Some? {
        return Err(failure.value);
      }
      failure := ExtractDebtags(fs);
      if failure.Some? {
        return Err(failure.value);
      }
      failure := GeneratePackageInfos(apt, search);
      if failure.Some? {
        return Err(failure.value);
      }
      return Ok(packageInfos);
    }
  }
}
