/**
 * The Python string operations the tool relies on, on `seq<char>`.
 * Character classes follow the ASCII subset of Python's definitions.
 */
module Text {
  import opened Wrappers

  /** Whitespace as `str.split()` and `str.strip()` see it (ASCII subset), also regex `\s`. */
  predicate IsSpace(c: char) {
    c == ' ' || c == '\t' || c == '\n' || c == '\r' || c == '\U{000B}' || c == '\U{000C}'
  }

  /** Regex `\w` (ASCII subset). */
  predicate IsWordChar(c: char) {
    ('a' <= c <= 'z') || ('A' <= c <= 'Z') || ('0' <= c <= '9') || c == '_'
  }

  function LowerChar(c: char): char {
    if 'A' <= c <= 'Z' then (c as int + 32) as char else c
  }

  /** `s.lower()` */
  function Lower(s: string): (r: string)
    ensures |r| == |s|
  {
    seq(|s|, i requires 0 <= i < |s| => LowerChar(s[i]))
  }

  /** `s.startswith(p)` */
  predicate StartsWith(s: string, p: string) {
    |p| <= |s| && s[..|p|] == p
  }

  /** `p in s`: p occurs somewhere in s. */
  predicate Contains(s: string, p: string)
    decreases |s|
  {
    StartsWith(s, p) || (s != [] && Contains(s[1..], p))
  }

  lemma {:induction false} ContainsAt(s: string, p: string, i: nat)
    requires i + |p| <= |s| && s[i..i + |p|] == p
    ensures Contains(s, p)
    decreases i
  {
    if i == 0 {
      assert s[..|p|] == p;
    } else {
      assert s[1..][i - 1..i - 1 + |p|] == s[i..i + |p|];
      ContainsAt(s[1..], p, i - 1);
    }
  }

  lemma {:induction false} ContainsWitness(s: string, p: string) returns (i: nat)
    requires Contains(s, p)
    ensures i + |p| <= |s| && s[i..i + |p|] == p
    decreases |s|
  {
    if StartsWith(s, p) {
      i := 0;
    } else {
      var j := ContainsWitness(s[1..], p);
      assert s[1..][j..j + |p|] == s[j + 1..j + 1 + |p|];
      i := j + 1;
    }
  }

  /** A substring is still found after text is added around the string. */
  lemma ContainsExtended(a: string, s: string, b: string, p: string)
    requires Contains(s, p)
    ensures Contains(a + s + b, p)
  {
    var i := ContainsWitness(s, p);
    assert (a + s + b)[|a| + i..|a| + i + |p|] == s[i..i + |p|];
    ContainsAt(a + s + b, p, |a| + i);
  }

  /** Number of occurrences of c in s. */
  function Count(s: string, c: char): nat
    decreases |s|
  {
    if s == [] then 0 else (if s[0] == c then 1 else 0) + Count(s[1..], c)
  }

  /** `s.split(c)` for a one-character separator: every occurrence splits, empty pieces stay. */
  function SplitOn(s: string, c: char): (r: seq<string>)
    ensures |r| == Count(s, c) + 1
    ensures forall i :: 0 <= i < |r| ==> c !in r[i]
    decreases |s|
  {
    if s == [] then [[]]
    else
      var rest := SplitOn(s[1..], c);
      if s[0] == c then [[]] + rest else [[s[0]] + rest[0]] + rest[1..]
  }

  /** `c.join(parts)` */
  function Join(parts: seq<string>, c: char): string
    decreases |parts|
  {
    if parts == [] then []
    else if |parts| == 1 then parts[0]
    else parts[0] + [c] + Join(parts[1..], c)
  }

  /** Joining the pieces of a split restores the string. */
  lemma {:induction false} JoinSplitOn(s: string, c: char)
    ensures Join(SplitOn(s, c), c) == s
    decreases |s|
  {
    if s != [] {
      var rest := SplitOn(s[1..], c);
      JoinSplitOn(s[1..], c);
      if s[0] == c {
        assert SplitOn(s, c)[1..] == rest;
      } else {
        var r := SplitOn(s, c);
        assert r[1..] == rest[1..];
        if |rest| > 1 {
          assert rest[1..][1..] == rest[2..];
          assert Join(rest, c) == rest[0] + [c] + Join(rest[1..], c);
        }
      }
    }
  }

  /** Length of the run of non-whitespace characters that starts s. */
  function WordLen(s: string): (n: nat)
    ensures n <= |s|
    ensures forall i :: 0 <= i < n ==> !IsSpace(s[i])
    ensures n == |s| || IsSpace(s[n])
    decreases |s|
  {
    if s == [] || IsSpace(s[0]) then 0 else 1 + WordLen(s[1..])
  }

  /** `s.split()`: maximal runs of non-whitespace characters, in order. */
  function Tokens(s: string): (r: seq<string>)
    ensures forall i :: 0 <= i < |r| ==> r[i] != [] && forall j :: 0 <= j < |r[i]| ==> !IsSpace(r[i][j])
    decreases |s|
  {
    if s == [] then []
    else if IsSpace(s[0]) then Tokens(s[1..])
    else
      var n := WordLen(s);
      [s[..n]] + Tokens(s[n..])
  }

  lemma {:induction false} WordLenOfWord(w: string, rest: string)
    requires forall j :: 0 <= j < |w| ==> !IsSpace(w[j])
    requires rest == [] || IsSpace(rest[0])
    ensures WordLen(w + rest) == |w|
    decreases |w|
  {
    if w != [] {
      assert (w + rest)[1..] == w[1..] + rest;
      WordLenOfWord(w[1..], rest);
    } else {
      assert w + rest == rest;
    }
  }

  /** A whitespace-free word followed by a separator splits off as the first token. */
  lemma TokensOfWord(w: string, rest: string)
    requires w != [] && forall j :: 0 <= j < |w| ==> !IsSpace(w[j])
    requires rest == [] || IsSpace(rest[0])
    ensures Tokens(w + rest) == [w] + Tokens(rest)
  {
    WordLenOfWord(w, rest);
    assert (w + rest)[..|w|] == w;
    assert (w + rest)[|w|..] == rest;
  }

  lemma TokensOfSpace(c: char, rest: string)
    requires IsSpace(c)
    ensures Tokens([c] + rest) == Tokens(rest)
  {
    assert ([c] + rest)[1..] == rest;
  }

  /** Drops leading whitespace. */
  function LStrip(s: string): (r: string)
    ensures |r| <= |s| && r == s[|s| - |r|..]
    ensures forall i :: 0 <= i < |s| - |r| ==> IsSpace(s[i])
    ensures r == [] || !IsSpace(r[0])
    decreases |s|
  {
    if s != [] && IsSpace(s[0]) then LStrip(s[1..]) else s
  }

  /** Drops trailing whitespace. */
  function RStrip(s: string): (r: string)
    ensures |r| <= |s| && r == s[..|r|]
    ensures forall i :: |r| <= i < |s| ==> IsSpace(s[i])
    ensures r == [] || !IsSpace(r[|r| - 1])
    decreases |s|
  {
    if s != [] && IsSpace(s[|s| - 1]) then RStrip(s[..|s| - 1]) else s
  }

  /** `s.strip()`: s without the whitespace at both ends; a string already without it is unchanged. */
  function Strip(s: string): (r: string)
    ensures |r| <= |s|
    ensures r == [] || (!IsSpace(r[0]) && !IsSpace(r[|r| - 1]))
    ensures (s == [] || (!IsSpace(s[0]) && !IsSpace(s[|s| - 1]))) ==> r == s
  {
    RStrip(LStrip(s))
  }

  /** `s.splitlines()` for text whose only line terminator is '\n': each line without its terminator. */
  function SplitLines(s: string): seq<string>
    decreases |s|
  {
    if s == [] then []
    else
      var n := LineLen(s);
      (if s[n - 1] == '\n' then [s[..n - 1]] else [s]) + SplitLines(s[n..])
  }

  /** No line that `splitlines` returns contains the terminator. */
  lemma {:induction false} SplitLinesNoNewline(s: string)
    ensures forall i :: 0 <= i < |SplitLines(s)| ==> '\n' !in SplitLines(s)[i]
    decreases |s|
  {
    if s != [] {
      var n := LineLen(s);
      SplitLinesNoNewline(s[n..]);
      if s[n - 1] != '\n' {
        assert forall i :: 0 <= i < n ==> s[i] != '\n';
      }
    }
  }

  /** Splitting at the first terminator: the piece before it comes first. */
  lemma {:induction false} SplitOnFirst(w: string, rest: string, c: char)
    requires c !in w
    ensures SplitOn(w + [c] + rest, c) == [w] + SplitOn(rest, c)
    decreases |w|
  {
    if w == [] {
      assert ([] + [c] + rest)[1..] == rest;
    } else {
      assert (w + [c] + rest)[1..] == w[1..] + [c] + rest;
      SplitOnFirst(w[1..], rest, c);
      assert [w[0]] + w[1..] == w;
    }
  }

  /** A string without the separator is a single piece. */
  lemma {:induction false} SplitOnNone(w: string, c: char)
    requires c !in w
    ensures SplitOn(w, c) == [w]
    decreases |w|
  {
    if w != [] {
      SplitOnNone(w[1..], c);
      assert [w[0]] + w[1..] == w;
    }
  }

  /** The pieces of a split without the empty piece a final separator leaves. */
  function DropFinalEmpty(p: seq<string>): seq<string> {
    if p != [] && p[|p| - 1] == [] then p[..|p| - 1] else p
  }

  lemma DropFinalEmptyCons(w: string, q: seq<string>)
    requires q != []
    ensures DropFinalEmpty([w] + q) == [w] + DropFinalEmpty(q)
  {
    if q[|q| - 1] == [] {
      assert ([w] + q)[..|q|] == [w] + q[..|q| - 1];
    }
  }

  /** `s.splitlines()` is `s.split('\n')` without the empty piece a final terminator leaves. */
  lemma {:induction false} SplitLinesOfSplitOn(s: string)
    ensures SplitLines(s) == DropFinalEmpty(SplitOn(s, '\n'))
    decreases |s|
  {
    if s != [] {
      var n := LineLen(s);
      if s[n - 1] == '\n' {
        SplitLinesFirstLine(s);
        SplitLinesOfSplitOn(s[n..]);
        DropFinalEmptyCons(s[..n - 1], SplitOn(s[n..], '\n'));
      } else {
        SplitLinesOneLine(s);
      }
    }
  }

  lemma SplitLinesFirstLine(s: string)
    requires s != [] && s[LineLen(s) - 1] == '\n'
    ensures SplitOn(s, '\n') == [s[..LineLen(s) - 1]] + SplitOn(s[LineLen(s)..], '\n')
  {
    var n := LineLen(s);
    var w := s[..n - 1];
    assert '\n' !in w by {
      forall i | 0 <= i < |w| ensures w[i] != '\n' { assert w[i] == s[i]; }
    }
    assert s == w + ['\n'] + s[n..];
    SplitOnFirst(w, s[n..], '\n');
  }

  lemma SplitLinesOneLine(s: string)
    requires s != [] && s[LineLen(s) - 1] != '\n'
    ensures SplitLines(s) == DropFinalEmpty(SplitOn(s, '\n'))
  {
    var n := LineLen(s);
    assert n == |s|;
    assert '\n' !in s by {
      forall i | 0 <= i < |s| ensures s[i] != '\n' { }
    }
    SplitOnNone(s, '\n');
    assert s[n..] == [];
  }

  /** Length of the first line of s as `readline` returns it: up to and including the first '\n'. */
  function LineLen(s: string): (n: nat)
    ensures n <= |s|
    ensures s != [] ==> n > 0
    ensures forall i :: 0 <= i < n - 1 ==> s[i] != '\n'
    ensures n < |s| ==> s[n - 1] == '\n'
    decreases |s|
  {
    if s == [] then 0 else if s[0] == '\n' then 1 else 1 + LineLen(s[1..])
  }

  /** What `f.readline()` returns on a freshly opened file with contents s ('' at end of file). */
  function FirstLine(s: string): string {
    s[..LineLen(s)]
  }

  function Concat(ss: seq<string>): string
    decreases |ss|
  {
    if ss == [] then [] else ss[0] + Concat(ss[1..])
  }

  /** True of a line as `readline` returns it: non-empty, with '\n' at most as its last character. */
  predicate IsReadLine(l: string) {
    l != [] && forall i :: 0 <= i < |l| - 1 ==> l[i] != '\n'
  }

  /** The successive results of `readline` on a file with contents s, up to the '' that ends the file. */
  function ReadLines(s: string): (r: seq<string>)
    ensures Concat(r) == s
    ensures forall i :: 0 <= i < |r| ==> IsReadLine(r[i])
    decreases |s|
  {
    if s == [] then []
    else
      var n := LineLen(s);
      assert s == s[..n] + s[n..];
      [s[..n]] + ReadLines(s[n..])
  }

  /** `s.split(sep, 1)` when it yields two parts: the text before the first sep and the text after it. */
  function SplitOnce(s: string, sep: string): (r: Option<(string, string)>)
    requires sep != []
    ensures r.Some? ==> s == r.value.0 + sep + r.value.1
    ensures r.Some? ==> forall i :: 0 <= i < |r.value.0| ==> !StartsWith(s[i..], sep)
    ensures r.None? <==> !Contains(s, sep)
    decreases |s|
  {
    if StartsWith(s, sep) then
      assert s == [] + sep + s[|sep|..];
      Some(([], s[|sep|..]))
    else if s == [] then None
    else
      match SplitOnce(s[1..], sep)
      case None => None
      case Some((a, b)) =>
        assert forall i :: 1 <= i <= |a| ==> s[i..] == s[1..][i - 1..];
        Some(([s[0]] + a, b))
  }
}
