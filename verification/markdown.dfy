/**
 * Line classification shared by the quiz generator and the single-line
 * generator. Both programs recognise a heading only by a literal prefix of
 * the line (`str::starts_with`), never by any Markdown grammar, and both
 * decide what to do with a body line from the nearest heading above it.
 * The module also holds the small sequence toolkit (filters and
 * subsequences) in which the two extraction rules are stated, and the
 * output file naming both programs share.
 */
module Markdown {

  /** `line.starts_with("# ")`: a level-1 heading. */
  predicate IsH1(line: string)
    ensures IsH1(line) <==> 2 <= |line| && line[0] == '#' && line[1] == ' '
  {
    "# " <= line
  }

  /** `line.starts_with("## ")`: a level-2 heading, the one that opens a section. */
  predicate IsH2(line: string)
    ensures IsH2(line) <==> 3 <= |line| && line[0] == '#' && line[1] == '#' && line[2] == ' '
  {
    "## " <= line
  }

  /** `line.starts_with("###")`: a level-3-or-deeper heading (no space is required). */
  predicate IsH3(line: string)
    ensures IsH3(line) <==> 3 <= |line| && line[0] == '#' && line[1] == '#' && line[2] == '#'
  {
    "###" <= line
  }

  /** A level-1 or level-2 heading. */
  predicate IsMajor(line: string) { IsH1(line) || IsH2(line) }

  /** Any of the three heading prefixes. */
  predicate IsHeading(line: string) { IsH1(line) || IsH2(line) || IsH3(line) }

  /**
   * `char::is_whitespace`: the characters with the Unicode White_Space
   * property. Among ASCII these are tab, line feed, vertical tab, form feed,
   * carriage return and space; no visible ASCII character (`'!'` to `'~'`)
   * is one.
   */
  predicate IsWhitespace(c: char)
    ensures c in {'\t', '\n', '\U{000B}', '\U{000C}', '\r', ' '} ==> IsWhitespace(c)
    ensures '!' <= c <= '~' ==> !IsWhitespace(c)
    ensures c == '\U{00A0}' || c == '\U{3000}' ==> IsWhitespace(c)
  {
    || ('\t' <= c <= '\r')
    || c == ' '
    || c == '\U{0085}'
    || c == '\U{00A0}'
    || c == '\U{1680}'
    || ('\U{2000}' <= c <= '\U{200A}')
    || c == '\U{2028}'
    || c == '\U{2029}'
    || c == '\U{202F}'
    || c == '\U{205F}'
    || c == '\U{3000}'
  }

  /** `str::trim_start`: `s` without its leading whitespace. */
  function TrimStart(s: string): (r: string)
    ensures |r| <= |s| && r == s[|s| - |r|..]
    ensures forall k :: 0 <= k < |s| - |r| ==> IsWhitespace(s[k])
    ensures r != [] ==> !IsWhitespace(r[0])
  {
    if s != [] && IsWhitespace(s[0]) then TrimStart(s[1..]) else s
  }

  /** `str::trim_end`: `s` without its trailing whitespace. */
  function TrimEnd(s: string): (r: string)
    ensures |r| <= |s| && r == s[..|r|]
    ensures forall k :: |r| <= k < |s| ==> IsWhitespace(s[k])
    ensures r != [] ==> !IsWhitespace(r[|r| - 1])
  {
    if s != [] && IsWhitespace(s[|s| - 1]) then TrimEnd(s[..|s| - 1]) else s
  }

  /** `str::trim`: `s` without its leading and trailing whitespace. */
  function Trim(s: string): string {
    TrimEnd(TrimStart(s))
  }

  /** The line has nothing but whitespace. */
  predicate IsBlank(line: string) {
    forall k :: 0 <= k < |line| ==> IsWhitespace(line[k])
  }

  /** `line.trim().is_empty()` holds exactly for the blank lines. */
  lemma BlankIffTrimEmpty(line: string)
    ensures Trim(line) == "" <==> IsBlank(line)
  {
    var t := TrimStart(line);
    if t != [] {
      assert t[0] == line[|line| - |t|];
    }
  }

  /** The three heading prefixes exclude one another, and no heading is blank. */
  lemma HeadingKinds(line: string)
    ensures !(IsH1(line) && IsH2(line))
    ensures !(IsH1(line) && IsH3(line))
    ensures !(IsH2(line) && IsH3(line))
    ensures IsHeading(line) ==> !IsBlank(line)
  {
    if IsH1(line) {
      assert line[1] == "# "[1] == ' ';
    }
    if IsH2(line) || IsH3(line) {
      assert line[1] == '#';
      assert IsH2(line) ==> line[2] == "## "[2] == ' ';
      assert IsH3(line) ==> line[2] == "###"[2] == '#';
    }
    if IsHeading(line) {
      assert line[0] == '#';
      assert !IsWhitespace(line[0]);
    }
  }

  /**
   * The index of the last line of `s` satisfying `p`, or -1 when there is
   * none: the "nearest earlier" line of that kind.
   */
  function LastIndexWhere(s: seq<string>, p: string -> bool): (r: int)
    ensures -1 <= r < |s|
    ensures r >= 0 ==> p(s[r])
  {
    if s == [] then -1
    else if p(s[|s| - 1]) then |s| - 1
    else LastIndexWhere(s[..|s| - 1], p)
  }

  /** No element after the one `LastIndexWhere` finds satisfies the predicate. */
  lemma {:induction false} LastIndexWhereIsLast(s: seq<string>, p: string -> bool)
    ensures forall k :: LastIndexWhere(s, p) < k < |s| ==> !p(s[k])
    decreases |s|
  {
    if s != [] && !p(s[|s| - 1]) {
      var s' := s[..|s| - 1];
      LastIndexWhereIsLast(s', p);
      assert forall k :: 0 <= k < |s'| ==> s[k] == s'[k];
    }
  }

  lemma LastIndexWhereStep(lines: seq<string>, i: nat, p: string -> bool)
    requires i < |lines|
    ensures LastIndexWhere(lines[..i + 1], p)
            == if p(lines[i]) then i else LastIndexWhere(lines[..i], p)
  {
    assert lines[..i + 1][..i] == lines[..i];
  }

  /**
   * The lines in `before` leave a level-2 section open: the nearest
   * heading-prefixed line exists and starts with "## ". This is the `copy`
   * flag of both extraction loops.
   */
  predicate InH2Section(before: seq<string>) {
    var h := LastIndexWhere(before, IsHeading);
    h >= 0 && IsH2(before[h])
  }

  lemma InH2SectionStep(lines: seq<string>, i: nat)
    requires i < |lines|
    ensures InH2Section(lines[..i + 1])
            == if IsHeading(lines[i]) then IsH2(lines[i]) else InH2Section(lines[..i])
  {
    LastIndexWhereStep(lines, i, IsHeading);
    assert lines[..i + 1][i] == lines[i];
    if !IsHeading(lines[i]) {
      var h := LastIndexWhere(lines[..i], IsHeading);
      if h >= 0 {
        assert lines[..i + 1][h] == lines[..i][h];
      }
    }
  }

  /** The indices of the lines that start with "## ". */
  function H2Lines(lines: seq<string>): set<int> {
    set j | 0 <= j < |lines| && IsH2(lines[j])
  }

  lemma H2LinesStep(lines: seq<string>, i: nat)
    requires i < |lines|
    ensures H2Lines(lines[..i + 1])
            == if IsH2(lines[i]) then H2Lines(lines[..i]) + {i} else H2Lines(lines[..i])
    ensures i !in H2Lines(lines[..i])
  {
    var p, q := lines[..i], lines[..i + 1];
    forall j | 0 <= j < i ensures q[j] == p[j] { }
  }

  lemma H2CountStep(lines: seq<string>, i: nat)
    requires i < |lines|
    ensures |H2Lines(lines[..i + 1])| == |H2Lines(lines[..i])| + if IsH2(lines[i]) then 1 else 0
  {
    H2LinesStep(lines, i);
  }

  /** The elements of `s` that satisfy `p`, in their order in `s`. */
  function Filter(s: seq<string>, p: string -> bool): seq<string>
  {
    if s == [] then []
    else Filter(s[..|s| - 1], p) + (if p(s[|s| - 1]) then [s[|s| - 1]] else [])
  }

  /** A filter keeps only elements of its input that satisfy the predicate. */
  lemma {:induction false} FilterKeeps(s: seq<string>, p: string -> bool)
    ensures |Filter(s, p)| <= |s|
    ensures forall x :: x in Filter(s, p) ==> x in s && p(x)
    decreases |s|
  {
    if s != [] {
      var s' := s[..|s| - 1];
      FilterKeeps(s', p);
      assert forall x :: x in s' ==> x in s;
    }
  }

  lemma {:induction false} FilterAppend(a: seq<string>, b: seq<string>, p: string -> bool)
    ensures Filter(a + b, p) == Filter(a, p) + Filter(b, p)
    decreases |b|
  {
    if b == [] {
      assert a + b == a;
    } else {
      var b' := b[..|b| - 1];
      assert (a + b)[..|a + b| - 1] == a + b';
      FilterAppend(a, b', p);
    }
  }

  /** A filter keeps something exactly when some element satisfies the predicate. */
  lemma {:induction false} FilterNonEmpty(s: seq<string>, p: string -> bool)
    ensures Filter(s, p) != [] <==> exists k :: 0 <= k < |s| && p(s[k])
    decreases |s|
  {
    if s != [] {
      var s' := s[..|s| - 1];
      FilterNonEmpty(s', p);
      if exists k :: 0 <= k < |s'| && p(s'[k]) {
        var k :| 0 <= k < |s'| && p(s'[k]);
        assert s[k] == s'[k];
      }
      if exists k :: 0 <= k < |s| && p(s[k]) {
        var k :| 0 <= k < |s| && p(s[k]);
        if k < |s'| {
          assert s'[k] == s[k];
        }
      }
    }
  }

  /**
   * The lines of `s` that `keep` accepts, where `keep` sees each line
   * together with all the lines before it: a single forward scan with
   * whatever state the lines so far determine.
   */
  function FilterInContext(s: seq<string>, keep: (seq<string>, string) -> bool): seq<string>
  {
    if s == [] then []
    else
      var before := s[..|s| - 1];
      FilterInContext(before, keep) + (if keep(before, s[|s| - 1]) then [s[|s| - 1]] else [])
  }

  lemma FilterInContextStep(lines: seq<string>, i: nat, keep: (seq<string>, string) -> bool)
    requires i < |lines|
    ensures FilterInContext(lines[..i + 1], keep)
            == FilterInContext(lines[..i], keep) + (if keep(lines[..i], lines[i]) then [lines[i]] else [])
  {
    assert lines[..i + 1][..i] == lines[..i];
  }

  /**
   * `idx` picks `a` out of `b`: it has one strictly increasing index into
   * `b` per element of `a`, and `b` holds that element there.
   */
  predicate Picks(idx: seq<int>, a: seq<string>, b: seq<string>) {
    && |idx| == |a|
    && (forall k :: 0 <= k < |idx| ==> 0 <= idx[k] < |b| && b[idx[k]] == a[k])
    && (forall k, l :: 0 <= k < l < |idx| ==> idx[k] < idx[l])
  }

  /** `a` is obtained from `b` by deleting elements, keeping the order of the rest. */
  ghost predicate IsSubsequence(a: seq<string>, b: seq<string>) {
    exists idx :: Picks(idx, a, b)
  }

  /** The positions of the lines that `FilterInContext` keeps. */
  function KeptIndices(s: seq<string>, keep: (seq<string>, string) -> bool): seq<int>
  {
    if s == [] then []
    else
      var before := s[..|s| - 1];
      KeptIndices(before, keep) + (if keep(before, s[|s| - 1]) then [|s| - 1] else [])
  }

  /**
   * `FilterInContext` keeps exactly the lines that `keep` accepts, and
   * their positions, in increasing order, pick its result out of `s`.
   */
  lemma {:induction false} KeptIndicesPick(s: seq<string>, keep: (seq<string>, string) -> bool)
    ensures Picks(KeptIndices(s, keep), FilterInContext(s, keep), s)
    ensures forall i :: 0 <= i < |s| ==> (i in KeptIndices(s, keep) <==> keep(s[..i], s[i]))
    decreases |s|
  {
    if s != [] {
      var n := |s| - 1;
      var before := s[..n];
      KeptIndicesPick(before, keep);
      var idx, r := KeptIndices(before, keep), FilterInContext(before, keep);
      var kept := keep(before, s[n]);
      var idx', r' := KeptIndices(s, keep), FilterInContext(s, keep);
      assert idx' == idx + (if kept then [n] else []);
      assert r' == r + (if kept then [s[n]] else []);
      forall k | 0 <= k < |idx'|
        ensures 0 <= idx'[k] < |s| && s[idx'[k]] == r'[k]
      {
        if k < |idx| {
          assert idx'[k] == idx[k] && r'[k] == r[k];
          assert s[idx[k]] == before[idx[k]];
        }
      }
      forall i | 0 <= i < |s|
        ensures i in idx' <==> keep(s[..i], s[i])
      {
        if i < n {
          assert before[..i] == s[..i] && before[i] == s[i];
          assert i in idx' <==> i in idx;
        } else {
          assert s[..i] == before;
          assert n !in idx;
        }
      }
    }
  }

  /** Whatever `FilterInContext` keeps is a subsequence of its input. */
  lemma FilterInContextIsSubsequence(s: seq<string>, keep: (seq<string>, string) -> bool)
    ensures IsSubsequence(FilterInContext(s, keep), s)
  {
    KeptIndicesPick(s, keep);
    assert Picks(KeptIndices(s, keep), FilterInContext(s, keep), s);
  }

  /** `Local::now().format("%Y%m%d%H%M%S")`: fourteen decimal digits. */
  predicate IsTimestamp(ts: string) {
    |ts| == 14 && forall k :: 0 <= k < |ts| ==> '0' <= ts[k] <= '9'
  }

  /**
   * The name of the output file, `{stem}{tag}{timestamp}.md`, written next
   * to the input file: the input's stem, then the program's tag, then the
   * time of the run.
   */
  function OutputFileName(stem: string, tag: string, timestamp: string): (r: string)
    ensures |r| == |stem| + |tag| + |timestamp| + 3
    ensures r[..|stem|] == stem
    ensures r[|stem|..|stem| + |tag|] == tag
    ensures r[|stem| + |tag|..|r| - 3] == timestamp
    ensures r[|r| - 3..] == ".md"
  {
    stem + tag + timestamp + ".md"
  }

  /**
   * With a fixed-width timestamp, the stem and the timestamp can be read
   * back from the name: two names with the same tag are equal only when
   * their stems and their timestamps are equal. (Inputs that share a stem,
   * such as `notes.md` and `notes.txt` in one directory, do get the same
   * name when processed within the same second.)
   */
  lemma OutputFileNameInjective(stem1: string, ts1: string, stem2: string, ts2: string, tag: string)
    requires IsTimestamp(ts1) && IsTimestamp(ts2)
    requires OutputFileName(stem1, tag, ts1) == OutputFileName(stem2, tag, ts2)
    ensures stem1 == stem2 && ts1 == ts2
  {
    var r := OutputFileName(stem1, tag, ts1);
    assert |stem1| == |stem2|;
    assert stem1 == r[..|stem1|] == stem2;
    assert ts1 == r[|stem1| + |tag|..|r| - 3] == ts2;
  }
}
