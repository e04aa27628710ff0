/**
 * The parsers of detector/parsers.py: a build-log parser that keeps the `g++ ` command
 * lines of a build log, strips their `-D<word>=<value>` definitions and sorts them into
 * linker, object-file and other lines; and a rules-file parser that asks make for the
 * value of one variable. Both set themselves up lazily, once, on their first `parse`.
 */
module Parsers {
  import opened Wrappers
  import opened Text
  import opened Env

  // ---------------------------------------------------------------------------------
  // Removing `-D<word>=<value>` tokens: `re.sub('-D\w*=[^\s]+', '', line)`
  // ---------------------------------------------------------------------------------

  /** Length of the run of `\w` characters that starts s. */
  function WordRunLen(s: string): (n: nat)
    ensures n <= |s|
    ensures forall i :: 0 <= i < n ==> IsWordChar(s[i])
    ensures n == |s| || !IsWordChar(s[n])
    decreases |s|
  {
    if s == [] || !IsWordChar(s[0]) then 0 else 1 + WordRunLen(s[1..])
  }

  /**
   * Length of the match of `-D\w*=[^\s]+` at the start of s, 0 when there is none.
   * `\w*` can only succeed when it takes the whole run of word characters (a word
   * character is never '='), and `[^\s]+` ends the pattern, so it takes all it can.
   */
  function DefineLen(s: string): (n: nat)
    ensures n <= |s|
    ensures n > 0 ==> n >= 4 && s[0] == '-' && s[1] == 'D'
    ensures n > 0 ==> n == |s| || IsSpace(s[n])
  {
    if |s| < 2 || s[0] != '-' || s[1] != 'D' then 0
    else
      var w := 2 + WordRunLen(s[2..]);
      if w < |s| && s[w] == '=' && WordLen(s[w + 1..]) > 0 then
        var n := w + 1 + WordLen(s[w + 1..]);
        assert n < |s| ==> s[n] == s[w + 1..][WordLen(s[w + 1..])];
        n
      else 0
  }

  /** The regex substitution: scan left to right, drop each match, keep every other character. */
  function StripDefines(s: string): string
    decreases |s|
  {
    if s == [] then []
    else
      var n := DefineLen(s);
      if n > 0 then StripDefines(s[n..]) else [s[0]] + StripDefines(s[1..])
  }

  /** No `-D<word>=<value>` token starts anywhere in s. */
  ghost predicate NoDefineToken(s: string) {
    forall i :: 0 <= i < |s| ==> DefineLen(s[i..]) == 0
  }

  lemma {:induction false} WordRunLenOf(a: string, b: string)
    requires forall i :: 0 <= i < |a| ==> IsWordChar(a[i])
    requires b == [] || !IsWordChar(b[0])
    ensures WordRunLen(a + b) == |a|
    decreases |a|
  {
    if a == [] {
      assert a + b == b;
    } else {
      assert (a + b)[1..] == a[1..] + b;
      WordRunLenOf(a[1..], b);
    }
  }

  /** The first character of the stripped text: none, a space left behind a removed token, or s's own. */
  lemma {:induction false} StripFirst(s: string)
    requires s != []
    ensures var r := StripDefines(s);
      r == [] || IsSpace(r[0]) || (DefineLen(s) == 0 && r == [s[0]] + StripDefines(s[1..]))
  {
    var n := DefineLen(s);
    if n > 0 && n < |s| {
      assert !(s[n] == '-');
      assert StripDefines(s[n..]) == [s[n..][0]] + StripDefines(s[n..][1..]);
    }
  }

  /** A word character never starts a `-D` token, so it is kept. */
  lemma StripKeepsWordChar(c: char, rest: string)
    requires IsWordChar(c)
    ensures StripDefines([c] + rest) == [c] + StripDefines(rest)
  {
    var s := [c] + rest;
    assert DefineLen(s) == 0;
    assert s[1..] == rest;
  }

  lemma ConsAppend(c: char, v: string, rest: string)
    ensures ([c] + v) + rest == [c] + (v + rest)
  {
  }

  /** Word characters in front of some text are copied as they are. */
  lemma {:induction false} StripWordPrefix(u: string, rest: string)
    requires forall i :: 0 <= i < |u| ==> IsWordChar(u[i])
    ensures StripDefines(u + rest) == u + StripDefines(rest)
    decreases |u|
  {
    if u != [] {
      var c, v := u[0], u[1..];
      assert u == [c] + v;
      StripWordPrefix(v, rest);
      StripKeepsWordChar(c, v + rest);
      ConsAppend(c, v, rest);
      ConsAppend(c, v, StripDefines(rest));
      calc {
        StripDefines(u + rest);
        StripDefines([c] + (v + rest));
        [c] + StripDefines(v + rest);
        [c] + (v + StripDefines(rest));
        u + StripDefines(rest);
      }
    } else {
      assert u + rest == rest && u + StripDefines(rest) == StripDefines(rest);
    }
  }

  /** A run of word characters is copied as it is. */
  lemma StripWordRun(s: string)
    ensures StripDefines(s) == s[..WordRunLen(s)] + StripDefines(s[WordRunLen(s)..])
  {
    var w := WordRunLen(s);
    assert s == s[..w] + s[w..];
    StripWordPrefix(s[..w], s[w..]);
  }

  /** Text that begins with a space, or is empty, still does after stripping. */
  lemma {:induction false} StripAfterSpace(s: string)
    requires s == [] || IsSpace(s[0])
    ensures StripDefines(s) == [] || IsSpace(StripDefines(s)[0])
  {
  }

  /** Whether "-D" followed by u starts a token depends on u's word run and what follows it. */
  lemma {:induction false} DefineLenDashD(u: string)
    ensures var w := WordRunLen(u);
      DefineLen(['-', 'D'] + u) == 0 <==> !(w < |u| && u[w] == '=' && WordLen(u[w + 1..]) > 0)
  {
    assert (['-', 'D'] + u)[2..] == u;
    var w := WordRunLen(u);
    if w < |u| {
      assert (['-', 'D'] + u)[2 + w + 1..] == u[w + 1..];
    }
  }

  /** What follows the word run of u once u is stripped: nothing, a non-word character, or '=' as in u. */
  lemma {:induction false} AfterWordRun(u: string)
    ensures var w := WordRunLen(u);
      var x := StripDefines(u[w..]);
      && StripDefines(u) == u[..w] + x
      && (x == [] || !IsWordChar(x[0]))
      && (x != [] && x[0] == '=' ==> w < |u| && u[w] == '=' && x == ['='] + StripDefines(u[w + 1..]))
  {
    var w := WordRunLen(u);
    StripWordRun(u);
    if w < |u| {
      StripFirst(u[w..]);
      assert u[w..][0] == u[w];
      assert u[w..][1..] == u[w + 1..];
    }
  }

  /** Stripping what follows "-D" does not make "-D" the start of a token. */
  lemma {:induction false} DashDClean(u: string)
    requires DefineLen(['-', 'D'] + u) == 0
    ensures DefineLen(['-', 'D'] + StripDefines(u)) == 0
  {
    DefineLenDashD(u);
    var w := WordRunLen(u);
    AfterWordRun(u);
    var x := StripDefines(u[w..]);
    var v := StripDefines(u);
    WordRunLenOf(u[..w], x);
    assert WordRunLen(v) == w;
    DefineLenDashD(v);
    if w < |v| && v[w] == '=' {
      assert x[0] == '=';
      assert WordLen(u[w + 1..]) == 0;
      StripAfterSpace(u[w + 1..]);
      assert v[w + 1..] == StripDefines(u[w + 1..]);
    }
  }

  /** Keeping one character in front of stripped text creates no new token there. */
  lemma {:induction false} HeadClean(s: string)
    requires s != [] && DefineLen(s) == 0
    ensures DefineLen([s[0]] + StripDefines(s[1..])) == 0
  {
    if s[0] == '-' && |s| > 1 {
      var t := s[1..];
      StripFirst(t);
      if t[0] == 'D' {
        assert s == ['-', 'D'] + t[1..];
        assert StripDefines(t) == [t[0]] + StripDefines(t[1..]);
        DashDClean(t[1..]);
        assert [s[0]] + StripDefines(s[1..]) == ['-', 'D'] + StripDefines(t[1..]);
      }
    }
  }

  /** After the substitution no `-D<word>=<value>` token is left anywhere in the line. */
  lemma {:induction false} StripDefinesRemovesAll(s: string)
    ensures NoDefineToken(StripDefines(s))
    decreases |s|
  {
    if s != [] {
      var n := DefineLen(s);
      if n > 0 {
        StripDefinesRemovesAll(s[n..]);
      } else {
        StripDefinesRemovesAll(s[1..]);
        HeadClean(s);
        var r := StripDefines(s);
        assert r == [s[0]] + StripDefines(s[1..]);
        forall i | 0 <= i < |r| ensures DefineLen(r[i..]) == 0 {
          if i > 0 {
            assert r[i..] == StripDefines(s[1..])[i - 1..];
          }
        }
      }
    }
  }

  /** Text without any token is left unchanged. */
  lemma {:induction false} StripDefinesClean(s: string)
    requires NoDefineToken(s)
    ensures StripDefines(s) == s
    decreases |s|
  {
    if s != [] {
      assert DefineLen(s[0..]) == 0;
      assert s[0..] == s;
      assert NoDefineToken(s[1..]) by {
        forall i | 0 <= i < |s[1..]| ensures DefineLen(s[1..][i..]) == 0 {
          assert s[1..][i..] == s[i + 1..];
        }
      }
      StripDefinesClean(s[1..]);
    }
  }

  /** Stripping twice gives what stripping once gives. */
  lemma {:induction false} StripDefinesIdempotent(s: string)
    ensures StripDefines(StripDefines(s)) == StripDefines(s)
  {
    StripDefinesRemovesAll(s);
    StripDefinesClean(StripDefines(s));
  }

  /** A line in which "-D" never occurs is left unchanged. */
  lemma {:induction false} StripDefinesWithoutDashD(s: string)
    requires !Contains(s, "-D")
    ensures StripDefines(s) == s
  {
    forall i | 0 <= i < |s| ensures DefineLen(s[i..]) == 0 {
      if DefineLen(s[i..]) > 0 {
        assert s[i..i + 2] == s[i..][..2] == "-D";
        ContainsAt(s, "-D", i);
      }
    }
    StripDefinesClean(s);
  }

  /** A prefix without '-' is copied untouched, so a `g++ ` line stays one. */
  lemma {:induction false} StripDefinesKeepsPrefix(p: string, rest: string)
    requires '-' !in p
    ensures StripDefines(p + rest) == p + StripDefines(rest)
    decreases |p|
  {
    if p != [] {
      assert (p + rest)[0] == p[0];
      assert (p + rest)[1..] == p[1..] + rest;
      StripDefinesKeepsPrefix(p[1..], rest);
    } else {
      assert p + rest == rest;
    }
  }

  // ---------------------------------------------------------------------------------
  // Classifying compiler lines
  // ---------------------------------------------------------------------------------

  const CompilerPrefix: string := "g++ "

  /** `line.startswith('g++ ')` */
  predicate IsCompilerLine(line: string) {
    StartsWith(line, CompilerPrefix)
  }

  /** `'-o ' + binary_name.lower() in line.lower()` */
  predicate IsLinkerLine(binaryName: string, line: string) {
    Contains(Lower(line), "-o " + Lower(binaryName))
  }

  /** `.* -c` matched at the start of s, where `.` matches any character but '\n'. */
  predicate DotStarDashC(s: string)
    decreases |s|
  {
    StartsWith(s, " -c") || (s != [] && s[0] != '\n' && DotStarDashC(s[1..]))
  }

  /** `re.match('g\+\+ .* -c', line)` */
  predicate IsObjectLine(line: string) {
    IsCompilerLine(line) && DotStarDashC(line[4..])
  }

  /** " -c" starts at index j of s and no newline comes before it. */
  predicate DashCAt(s: string, j: int) {
    0 <= j && j + 3 <= |s| && s[j..j + 3] == " -c" && forall k :: 0 <= k < j ==> s[k] != '\n'
  }

  /** A match of `.* -c` ends at some " -c" with no newline before it. */
  lemma {:induction false} DotStarDashCSound(s: string) returns (j: int)
    requires DotStarDashC(s)
    ensures DashCAt(s, j)
    decreases |s|
  {
    if StartsWith(s, " -c") {
      j := 0;
    } else {
      var k := DotStarDashCSound(s[1..]);
      assert s[1..][k..k + 3] == s[k + 1..k + 4];
      j := k + 1;
    }
  }

  /** Any " -c" with no newline before it gives a match of `.* -c`. */
  lemma {:induction false} DotStarDashCComplete(s: string, j: int)
    requires DashCAt(s, j)
    ensures DotStarDashC(s)
    decreases j
  {
    if j == 0 {
      assert s[..3] == s[0..3];
    } else {
      assert s[1..][j - 1..j + 2] == s[j..j + 3];
      assert DashCAt(s[1..], j - 1);
      DotStarDashCComplete(s[1..], j - 1);
    }
  }

  /** The regex matches exactly when " -c" occurs with no newline before it. */
  lemma {:induction false} DotStarDashCIff(s: string)
    ensures DotStarDashC(s) <==> exists j :: DashCAt(s, j)
  {
    if DotStarDashC(s) {
      var j := DotStarDashCSound(s);
    }
    if j :| DashCAt(s, j) {
      DotStarDashCComplete(s, j);
    }
  }

  datatype Bucket = Linker | Objects | Others

  /** Linker lines are recognised first; of the rest, object-file lines; everything else is other. */
  function BucketOf(binaryName: string, line: string): Bucket {
    if IsLinkerLine(binaryName, line) then Linker
    else if IsObjectLine(line) then Objects
    else Others
  }

  /** The compiler lines of a log, in log order, with their definitions stripped. */
  function CompilerLines(log: seq<string>): (r: seq<string>)
    ensures |r| <= |log|
    ensures forall i :: 0 <= i < |r| ==> IsCompilerLine(r[i]) && NoDefineToken(r[i])
    decreases |log|
  {
    if log == [] then []
    else if IsCompilerLine(log[0]) then
      var line := StripDefines(log[0]);
      StripDefinesKeepsPrefix(CompilerPrefix, log[0][4..]);
      assert log[0] == CompilerPrefix + log[0][4..];
      StripDefinesRemovesAll(log[0]);
      [line] + CompilerLines(log[1..])
    else CompilerLines(log[1..])
  }

  /** Reading a log in two parts collects the lines of the first part, then those of the second. */
  lemma {:induction false} CompilerLinesAppend(a: seq<string>, b: seq<string>)
    ensures CompilerLines(a + b) == CompilerLines(a) + CompilerLines(b)
    decreases |a|
  {
    if a == [] {
      assert a + b == b;
    } else {
      assert (a + b)[0] == a[0];
      assert (a + b)[1..] == a[1..] + b;
      CompilerLinesAppend(a[1..], b);
    }
  }

  /** Exactly the stripped `g++ ` lines of the log are collected. */
  lemma {:induction false} CompilerLinesMembers(log: seq<string>, x: string)
    ensures x in CompilerLines(log) <==>
      exists i :: 0 <= i < |log| && IsCompilerLine(log[i]) && x == StripDefines(log[i])
    decreases |log|
  {
    if log != [] {
      CompilerLinesMembers(log[1..], x);
      if exists i :: 0 <= i < |log| && IsCompilerLine(log[i]) && x == StripDefines(log[i]) {
        var i :| 0 <= i < |log| && IsCompilerLine(log[i]) && x == StripDefines(log[i]);
        if i > 0 {
          assert log[1..][i - 1] == log[i];
        }
      }
      if x in CompilerLines(log[1..]) {
        var i :| 0 <= i < |log[1..]| && IsCompilerLine(log[1..][i]) && x == StripDefines(log[1..][i]);
        assert log[i + 1] == log[1..][i];
      }
    }
  }

  /** The lines of one bucket, in their original order. */
  function LinesIn(binaryName: string, lines: seq<string>, b: Bucket): seq<string>
    decreases |lines|
  {
    if lines == [] then []
    else (if BucketOf(binaryName, lines[0]) == b then [lines[0]] else []) + LinesIn(binaryName, lines[1..], b)
  }

  lemma {:induction false} LinesInAppend(binaryName: string, a: seq<string>, b: seq<string>, k: Bucket)
    ensures LinesIn(binaryName, a + b, k) == LinesIn(binaryName, a, k) + LinesIn(binaryName, b, k)
    decreases |a|
  {
    if a == [] {
      assert a + b == b;
    } else {
      assert (a + b)[0] == a[0];
      assert (a + b)[1..] == a[1..] + b;
      LinesInAppend(binaryName, a[1..], b, k);
    }
  }

  /** The three buckets partition the compiler lines: every line lands in exactly one of them. */
  lemma {:induction false} BucketsPartition(binaryName: string, lines: seq<string>)
    ensures multiset(LinesIn(binaryName, lines, Linker)) + multiset(LinesIn(binaryName, lines, Objects))
      + multiset(LinesIn(binaryName, lines, Others)) == multiset(lines)
    ensures |LinesIn(binaryName, lines, Linker)| + |LinesIn(binaryName, lines, Objects)|
      + |LinesIn(binaryName, lines, Others)| == |lines|
    decreases |lines|
  {
    if lines != [] {
      BucketsPartition(binaryName, lines[1..]);
      assert lines == [lines[0]] + lines[1..];
    }
  }

  /** A line is in a bucket exactly when it is a compiler line classified into that bucket. */
  lemma {:induction false} LinesInMembers(binaryName: string, lines: seq<string>, b: Bucket, x: string)
    ensures x in LinesIn(binaryName, lines, b) <==> x in lines && BucketOf(binaryName, x) == b
    decreases |lines|
  {
    if lines != [] {
      LinesInMembers(binaryName, lines[1..], b, x);
      assert lines == [lines[0]] + lines[1..];
    }
  }

  /** One more log line adds its stripped form when it is a compiler line, and nothing otherwise. */
  lemma {:induction false} CompilerLinesSnoc(lines: seq<string>, i: nat)
    requires i < |lines|
    ensures CompilerLines(lines[..i + 1]) ==
      CompilerLines(lines[..i]) + if IsCompilerLine(lines[i]) then [StripDefines(lines[i])] else []
  {
    CompilerLinesAppend(lines[..i], [lines[i]]);
    assert lines[..i + 1] == lines[..i] + [lines[i]];
  }

  /** One more compiler line goes to the end of its own bucket and leaves the others as they were. */
  lemma {:induction false} ClassifySnoc(binaryName: string, lines: seq<string>, line: string)
    ensures forall b :: (LinesIn(binaryName, lines + [line], b) ==
      LinesIn(binaryName, lines, b) + if BucketOf(binaryName, line) == b then [line] else [])
  {
    forall b
      ensures LinesIn(binaryName, lines + [line], b) ==
        LinesIn(binaryName, lines, b) + if BucketOf(binaryName, line) == b then [line] else []
    {
      LinesInAppend(binaryName, lines, [line], b);
      assert [line][1..] == [];
      assert LinesIn(binaryName, [line], b) == if BucketOf(binaryName, line) == b then [line] else [];
    }
  }

  /** What `_get_compiler_calls` selects for a stage name, `None` meaning all compiler lines. */
  function StageBucket(stage: string): Option<Bucket> {
    var s := Lower(stage);
    if s == "linker" then Some(Linker)
    else if s == "objects" then Some(Objects)
    else if s == "others" then Some(Others)
    else None
  }

  lemma {:induction false} LowerIdempotent(s: string)
    ensures Lower(Lower(s)) == Lower(s)
  {
  }

  /** The stage name is compared without regard to case. */
  lemma {:induction false} StageCaseInsensitive(stage: string)
    ensures StageBucket(Lower(stage)) == StageBucket(stage)
  {
    LowerIdempotent(stage);
  }

  /** The keyword arguments a parser's `parse` receives: `stage=` and `flag_name=`. */
  datatype Query = Query(stage: Option<string>, flagName: Option<string>)

  const MissingLogMessage: string := "Class should be instantiated with a filepathrepresenting the buildlog"
  const NotAFileMessage: string := "Filepath points to a non file object"
  const MissingRulesMessage: string := "Class should be instantiated with a filepathrepresenting a debian rules file."

  /**
   * The reading loop of `_setup_parser`: every `g++ ` line of the log, stripped of its
   * definitions, is appended to the compiler lines and to the one bucket it belongs to.
   */
  method CollectLines(binaryName: string, lines: seq<string>,
                      all0: seq<string>, objects0: seq<string>, linker0: seq<string>, others0: seq<string>)
    returns (all: seq<string>, objects: seq<string>, linker: seq<string>, others: seq<string>)
    requires linker0 == LinesIn(binaryName, all0, Linker)
    requires objects0 == LinesIn(binaryName, all0, Objects)
    requires others0 == LinesIn(binaryName, all0, Others)
    ensures all == all0 + CompilerLines(lines)
    ensures linker == LinesIn(binaryName, all, Linker)
    ensures objects == LinesIn(binaryName, all, Objects)
    ensures others == LinesIn(binaryName, all, Others)
  {
    all, objects, linker, others := all0, objects0, linker0, others0;
    var i := 0;
    while i < |lines|
      invariant 0 <= i <= |lines|
      invariant linker == LinesIn(binaryName, all, Linker)
      invariant objects == LinesIn(binaryName, all, Objects)
      invariant others == LinesIn(binaryName, all, Others)
      invariant all == all0 + CompilerLines(lines[..i])
    {
      var line := lines[i];
      CompilerLinesSnoc(lines, i);
      if StartsWith(line, CompilerPrefix) {
        line := StripDefines(line);
        ClassifySnoc(binaryName, all, line);
        all := all + [line];
        match BucketOf(binaryName, line)
        case Linker => linker := linker + [line];
        case Objects => objects := objects + [line];
        case Others => others := others + [line];
      }
      i := i + 1;
    }
    assert lines[..i] == lines;
  }

  /** Parser of a build log (detector/parsers.py, duplicated in detector/runner.py). */
  class BuildLogParser {
    const name: string
    const binaryName: string
    const buildLogPath: string
    var parserReady: bool
    var compilerLines: seq<string>
    var objectFileLines: seq<string>
    var linkerLines: seq<string>
    var otherLines: seq<string>

    /** The three buckets always hold the classification of the compiler lines gathered so far. */
    ghost predicate Valid()
      reads this
    {
      && linkerLines == LinesIn(binaryName, compilerLines, Linker)
      && objectFileLines == LinesIn(binaryName, compilerLines, Objects)
      && otherLines == LinesIn(binaryName, compilerLines, Others)
    }

    constructor (name: string, binaryName: string, buildLogPath: string)
      ensures Valid()
      ensures this.name == name && this.binaryName == binaryName && this.buildLogPath == buildLogPath
      ensures !parserReady && compilerLines == []
    {
      this.name := name;
      this.binaryName := binaryName;
      this.buildLogPath := buildLogPath;
      parserReady := false;
      compilerLines := [];
      objectFileLines := [];
      linkerLines := [];
      otherLines := [];
    }

    /** `_setup_parser`: read the log once, collecting and classifying its compiler lines. */
    method SetupParser(fs: FileSystem) returns (r: Outcome<()>)
      requires Valid()
      modifies this
      ensures Valid()
      ensures old(parserReady) ==> r.Ok? && unchanged(this)
      ensures !old(parserReady) && !Exists(fs, buildLogPath) ==>
        r == Err(ValueError(MissingLogMessage)) && unchanged(this)
      ensures !old(parserReady) && Exists(fs, buildLogPath) && !IsFile(fs, buildLogPath) ==>
        r == Err(ValueError(NotAFileMessage)) && unchanged(this)
      ensures !old(parserReady) && IsFile(fs, buildLogPath) ==>
        && r.Ok? && parserReady
        && compilerLines == old(compilerLines) + CompilerLines(ReadLines(fs[buildLogPath].text))
    {
      if parserReady {
        return Ok(());
      }
      if !Exists(fs, buildLogPath) {
        return Err(ValueError(MissingLogMessage));
      }
      if !IsFile(fs, buildLogPath) {
        return Err(ValueError(NotAFileMessage));
      }
      var lines := ReadLines(fs[buildLogPath].text);
      var all, objects, linker, others := CollectLines(binaryName, lines, compilerLines, objectFileLines, linkerLines, otherLines);
      compilerLines, objectFileLines, linkerLines, otherLines := all, objects, linker, others;
      parserReady := true;
      return Ok(());
    }

    /** `_get_compiler_calls`: the stored lines of the requested stage. */
    function CompilerCalls(stage: string): (r: seq<string>)
      requires Valid()
      reads this
      ensures r == SelectStage(binaryName, stage, compilerLines)
    {
      match StageBucket(stage)
      case Some(Linker) => linkerLines
      case Some(Objects) => objectFileLines
      case Some(Others) => otherLines
      case None => compilerLines
    }

    /** `parse(**kwargs)`: None without `stage`; otherwise set up once and return that stage's lines. */
    method Parse(q: Query, fs: FileSystem) returns (r: Outcome<Option<seq<string>>>)
      requires Valid()
      modifies this
      ensures Valid()
      ensures q.stage.None? ==> r == Ok(None) && unchanged(this)
      ensures old(parserReady) ==> unchanged(this)
      ensures q.stage.Some? && (old(parserReady) || IsFile(fs, buildLogPath)) ==>
        && r.Ok? && parserReady
        && r.value == Some(CompilerCalls(q.stage.value))
        && (!old(parserReady) ==> compilerLines == old(compilerLines) + CompilerLines(ReadLines(fs[buildLogPath].text)))
      ensures q.stage.Some? && !old(parserReady) && !Exists(fs, buildLogPath) ==>
        r == Err(ValueError(MissingLogMessage)) && unchanged(this)
      ensures q.stage.Some? && !old(parserReady) && Exists(fs, buildLogPath) && !IsFile(fs, buildLogPath) ==>
        r == Err(ValueError(NotAFileMessage)) && unchanged(this)
    {
      if q.stage.None? {
        return Ok(None);
      }
      if !parserReady {
        var setup := SetupParser(fs);
        if setup.Err? {
          return Err(setup.error);
        }
      }
      return Ok(Some(CompilerCalls(q.stage.value)));
    }
  }

  /** The lines of some output that start with a flag name, in order. */
  function LinesStartingWith(lines: seq<string>, flag: string): (r: seq<string>)
    ensures forall i :: 0 <= i < |r| ==> StartsWith(r[i], flag) && r[i] in lines
    decreases |lines|
  {
    if lines == [] then []
    else (if StartsWith(lines[0], flag) then [lines[0]] else []) + LinesStartingWith(lines[1..], flag)
  }

  /** Line i is the only line that starts with the flag. */
  predicate OnlyMatch(lines: seq<string>, flag: string, i: int) {
    && 0 <= i < |lines| && StartsWith(lines[i], flag)
    && forall j :: 0 <= j < |lines| && j != i ==> !StartsWith(lines[j], flag)
  }

  lemma {:induction false} NoLineStartsWith(lines: seq<string>, flag: string)
    ensures |LinesStartingWith(lines, flag)| == 0 <==> forall i :: 0 <= i < |lines| ==> !StartsWith(lines[i], flag)
    decreases |lines|
  {
    if lines != [] {
      NoLineStartsWith(lines[1..], flag);
      assert forall i :: 1 <= i < |lines| ==> lines[i] == lines[1..][i - 1];
    }
  }

  lemma {:induction false} OneLineStartsWith(lines: seq<string>, flag: string)
    requires |LinesStartingWith(lines, flag)| == 1
    ensures exists i :: OnlyMatch(lines, flag, i) && LinesStartingWith(lines, flag) == [lines[i]]
    decreases |lines|
  {
    var rest := lines[1..];
    assert forall k :: 1 <= k < |lines| ==> lines[k] == rest[k - 1];
    if StartsWith(lines[0], flag) {
      NoLineStartsWith(rest, flag);
      assert OnlyMatch(lines, flag, 0);
    } else {
      OneLineStartsWith(rest, flag);
      var k :| OnlyMatch(rest, flag, k) && LinesStartingWith(rest, flag) == [rest[k]];
      assert OnlyMatch(lines, flag, k + 1);
    }
  }

  lemma {:induction false} OnlyMatchFilter(lines: seq<string>, flag: string, i: int)
    requires OnlyMatch(lines, flag, i)
    ensures LinesStartingWith(lines, flag) == [lines[i]]
    decreases |lines|
  {
    var rest := lines[1..];
    assert forall k :: 1 <= k < |lines| ==> lines[k] == rest[k - 1];
    if i == 0 {
      NoLineStartsWith(rest, flag);
    } else {
      assert OnlyMatch(rest, flag, i - 1);
      OnlyMatchFilter(rest, flag, i - 1);
    }
  }

  /** Exactly one line passes the filter precisely when some line is the only one starting with the flag. */
  lemma {:induction false} OnlyMatchIff(lines: seq<string>, flag: string)
    ensures |LinesStartingWith(lines, flag)| == 1 <==> exists i :: OnlyMatch(lines, flag, i)
    ensures forall i :: OnlyMatch(lines, flag, i) ==> LinesStartingWith(lines, flag) == [lines[i]]
  {
    if |LinesStartingWith(lines, flag)| == 1 {
      OneLineStartsWith(lines, flag);
    }
    forall i | OnlyMatch(lines, flag, i)
      ensures LinesStartingWith(lines, flag) == [lines[i]]
    {
      OnlyMatchFilter(lines, flag, i);
    }
  }

  /**
   * The filter and assertion of `_get_flag_value`: of make's output split on '\n', the one
   * line that starts with the flag name; no such line, or several, fail the assertion.
   */
  function FlagLine(output: string, flag: string): (r: Outcome<string>)
    ensures r.Ok? ==> exists i :: OnlyMatch(SplitOn(output, '\n'), flag, i)
    ensures forall i :: OnlyMatch(SplitOn(output, '\n'), flag, i) ==> r == Ok(SplitOn(output, '\n')[i])
    ensures r.Err? ==> r.error == AssertionError
  {
    var lines := SplitOn(output, '\n');
    var matching := LinesStartingWith(lines, flag);
    OnlyMatchIff(lines, flag);
    if |matching| == 1 then Ok(matching[0]) else Err(AssertionError)
  }

  /** The command `_get_flag_value` runs: the altered rules file as a makefile, target print-FLAG. */
  function PrintCommand(alteredFile: string, flag: string): string {
    alteredFile + " print-" + flag
  }

  /** Parser of a debian/rules file that reports one make variable per query. */
  class RulesFlagParser {
    const name: string
    const filepath: string
    const alteredFile: string
    var parserReady: bool

    constructor (name: string, filepath: string)
      ensures this.name == name && this.filepath == filepath
      ensures alteredFile == filepath + "_flag_parser" && !parserReady
    {
      this.name := name;
      this.filepath := filepath;
      alteredFile := filepath + "_flag_parser";
      parserReady := false;
    }

    /** `_setup_parser`: check the rules file once; copying it and appending a print rule are not modelled. */
    method SetupParser(fs: FileSystem) returns (r: Outcome<()>)
      modifies this
      ensures old(parserReady) ==> r.Ok? && unchanged(this)
      ensures !old(parserReady) ==>
        if !Exists(fs, filepath) then r == Err(ValueError(MissingRulesMessage)) && unchanged(this)
        else if !IsFile(fs, filepath) then r == Err(ValueError(NotAFileMessage)) && unchanged(this)
        else r.Ok? && parserReady
    {
      if parserReady {
        return Ok(());
      }
      if !Exists(fs, filepath) {
        return Err(ValueError(MissingRulesMessage));
      }
      if !IsFile(fs, filepath) {
        return Err(ValueError(NotAFileMessage));
      }
      parserReady := true;
      return Ok(());
    }

    /** `_get_flag_value`: set up if needed, run make for the flag and keep its one line. */
    method GetFlagValue(flag: string, fs: FileSystem, shell: Shell) returns (r: Outcome<string>)
      modifies this
      ensures old(parserReady) ==> unchanged(this)
      ensures (old(parserReady) || IsFile(fs, filepath)) ==>
        && parserReady
        && r == (match CheckOutput(shell, PrintCommand(alteredFile, flag))
                 case Err(e) => Err(e)
                 case Ok(output) => FlagLine(output, flag))
      ensures !old(parserReady) && !IsFile(fs, filepath) ==> r.Err? && r.error.ValueError? && unchanged(this)
    {
      if !parserReady {
        var setup := SetupParser(fs);
        if setup.Err? {
          return Err(setup.error);
        }
      }
      var output := CheckOutput(shell, PrintCommand(alteredFile, flag));
      if output.Err? {
        return Err(output.error);
      }
      r := FlagLine(output.value, flag);
    }

    /** `parse(**kwargs)`: None without `flag_name`; otherwise the flag's line. */
    method Parse(q: Query, fs: FileSystem, shell: Shell) returns (r: Outcome<Option<string>>)
      modifies this
      ensures q.flagName.None? ==> r == Ok(None) && unchanged(this)
      ensures old(parserReady) ==> unchanged(this)
      ensures q.flagName.Some? && (old(parserReady) || IsFile(fs, filepath)) ==>
        && parserReady
        && r == (match CheckOutput(shell, PrintCommand(alteredFile, q.flagName.value))
                 case Err(e) => Err(e)
                 case Ok(output) =>
                   var line := FlagLine(output, q.flagName.value);
                   if line.Ok? then Ok(Some(line.value)) else Err(line.error))
      ensures q.flagName.Some? && !old(parserReady) && !IsFile(fs, filepath) ==> r.Err? && unchanged(this)
    {
      if q.flagName.None? {
        return Ok(None);
      }
      var line := GetFlagValue(q.flagName.value, fs, shell);
      if line.Err? {
        return Err(line.error);
      }
      return Ok(Some(line.value));
    }
  }

  // ---------------------------------------------------------------------------------
  // The registry's view of a parser: either class, behind one reference
  // ---------------------------------------------------------------------------------

  /** An entry of a parser registry: one object of either parser class. */
  datatype ParserRef = BuildLogRef(log: BuildLogParser) | RulesRef(rules: RulesFlagParser) {
    function Obj(): object {
      if BuildLogRef? then log else rules
    }

    /** What `parse(stage=...)` may change: only a build-log parser sets itself up. */
    function Footprint(): set<object> {
      if BuildLogRef? then {log} else {}
    }
  }

  /**
   * A registered parser agrees with the filesystem: a build-log parser that has not been
   * set up holds nothing, and one that has holds exactly what its log yields.
   */
  ghost predicate Consistent(p: ParserRef, fs: FileSystem)
    reads p.Obj()
  {
    match p
    case BuildLogRef(b) =>
      && b.Valid()
      && (if b.parserReady
          then IsFile(fs, b.buildLogPath) && b.compilerLines == CompilerLines(ReadLines(fs[b.buildLogPath].text))
          else b.compilerLines == [])
    case RulesRef(_) => true
  }

  /** The lines of one stage, selected from a list of compiler lines as `_get_compiler_calls` does. */
  function SelectStage(binaryName: string, stage: string, lines: seq<string>): seq<string> {
    match StageBucket(stage)
    case Some(b) => LinesIn(binaryName, lines, b)
    case None => lines
  }

  /**
   * What `parse(stage=...)` returns on a registered parser: a build-log parser answers
   * with its log's lines of that stage, or fails when the log is missing; a rules parser,
   * asked without a flag name, answers None.
   */
  function StageLines(p: ParserRef, stage: string, fs: FileSystem): (r: Outcome<Option<seq<string>>>)
    ensures r.Err? ==> p.BuildLogRef? && !IsFile(fs, p.log.buildLogPath) && r.error.ValueError?
    ensures p.RulesRef? ==> r == Ok(None)
    ensures r.Ok? && r.value.Some? ==> forall i :: 0 <= i < |r.value.value| ==> IsCompilerLine(r.value.value[i])
  {
    match p
    case RulesRef(_) => Ok(None)
    case BuildLogRef(b) =>
      if !Exists(fs, b.buildLogPath) then Err(ValueError(MissingLogMessage))
      else if !IsFile(fs, b.buildLogPath) then Err(ValueError(NotAFileMessage))
      else
        var all := CompilerLines(ReadLines(fs[b.buildLogPath].text));
        var r := SelectStage(b.binaryName, stage, all);
        assert forall i :: 0 <= i < |r| ==> r[i] in all by {
          if StageBucket(stage).Some? {
            forall i | 0 <= i < |r| ensures r[i] in all {
              LinesInMembers(b.binaryName, all, StageBucket(stage).value, r[i]);
            }
          }
        }
        Ok(Some(r))
  }

  /** `parser.parse(stage=stage)` on a registered parser. */
  method ParseStage(p: ParserRef, stage: string, fs: FileSystem) returns (r: Outcome<Option<seq<string>>>)
    requires Consistent(p, fs)
    modifies p.Footprint()
    ensures Consistent(p, fs)
    ensures r == StageLines(p, stage, fs)
  {
    match p
    case RulesRef(_) =>
      r := Ok(None);
    case BuildLogRef(b) =>
      r := b.Parse(Query(Some(stage), None), fs);
  }
}
