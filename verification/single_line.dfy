/**
 * The single-line generator (src/bin/signle-line-generator.rs): gathers the
 * non-blank body lines of each level-2 section and writes each section out
 * as one line, its body lines joined by single spaces. Headings and the
 * lines under level-1 and level-3 headings are dropped.
 */
module SingleLineGenerator {
  import opened Markdown
  import QuizGenerator

  /** The tag in the output file name. */
  const OutputTag: string := "_processed_"

  /** The name of the file the lines are written to: `{stem}_processed_{timestamp}.md`. */
  function ProcessedFileName(stem: string, timestamp: string): string {
    OutputFileName(stem, OutputTag, timestamp)
  }

  /**
   * The two programs never write to the same name: with the 14-digit
   * timestamp, the character before the tag's final `_` is `d` here and
   * `z` in the quiz generator's name, whatever the stems.
   */
  lemma FileNamesDiffer(stem1: string, ts1: string, stem2: string, ts2: string)
    requires IsTimestamp(ts1) && IsTimestamp(ts2)
    ensures ProcessedFileName(stem1, ts1) != QuizGenerator.QuizFileName(stem2, ts2)
  {
    var a, b := ProcessedFileName(stem1, ts1), QuizGenerator.QuizFileName(stem2, ts2);
    assert a[|a| - 19] == OutputTag[9] == 'd';
    assert b[|b| - 19] == QuizGenerator.OutputTag[4] == 'z';
  }

  /** The summed lengths of `parts`. */
  function TotalLength(parts: seq<string>): nat {
    if parts == [] then 0 else |parts[0]| + TotalLength(parts[1..])
  }

  /**
   * `parts.join(sep)`: the parts in order with `sep` between neighbours.
   * The result starts with the first part.
   */
  function Join(parts: seq<string>, sep: string): (r: string)
    ensures parts != [] ==> parts[0] <= r
  {
    if |parts| == 0 then ""
    else if |parts| == 1 then parts[0]
    else parts[0] + sep + Join(parts[1..], sep)
  }

  /** The number of characters joining adds: one `sep` per gap between parts. */
  lemma {:induction false} JoinLength(parts: seq<string>, sep: string)
    ensures |Join(parts, sep)| == TotalLength(parts) + if parts == [] then 0 else (|parts| - 1) * |sep|
  {
    if |parts| > 1 {
      JoinLength(parts[1..], sep);
      assert (|parts| - 1) * |sep| == |sep| + (|parts| - 2) * |sep|;
    }
  }

  /**
   * What joining adds and where: joining one more part appends `sep` and
   * then that part, so `sep` sits exactly between neighbouring parts.
   */
  lemma {:induction false} JoinSnoc(parts: seq<string>, x: string, sep: string)
    requires parts != []
    ensures Join(parts + [x], sep) == Join(parts, sep) + sep + x
  {
    if |parts| > 1 {
      assert (parts + [x])[1..] == parts[1..] + [x];
      JoinSnoc(parts[1..], x, sep);
    }
  }

  /** A joined block is never blank when its first part is not. */
  lemma JoinNotBlank(parts: seq<string>, sep: string)
    requires parts != [] && !IsBlank(parts[0])
    ensures !IsBlank(Join(parts, sep))
  {
    var r := Join(parts, sep);
    var k :| 0 <= k < |parts[0]| && !IsWhitespace(parts[0][k]);
    assert r[k] == parts[0][k];
  }

  /** A line that the loop accumulates when a section is open: not blank and not a heading. */
  predicate IsContent(line: string) { !IsBlank(line) && !IsHeading(line) }

  /**
   * Whether `line`, read after `before`, is pushed onto `temp_text`: it is
   * content and the nearest heading-prefixed line above it starts with "## ".
   */
  predicate Accumulates(before: seq<string>, line: string) {
    IsContent(line) && InH2Section(before)
  }

  /**
   * The body of the section still open after the lines of `p`: the content
   * lines after the last heading-prefixed line, when that heading is "## ".
   */
  function OpenBody(p: seq<string>): seq<string> {
    if InH2Section(p) then Filter(p[LastIndexWhere(p, IsHeading) + 1..], IsContent) else []
  }

  /**
   * The blocks flushed within `p`: every heading-prefixed line closes the
   * section open before it, which yields a block when it has content.
   */
  function ClosedBlocks(p: seq<string>): seq<seq<string>> {
    if p == [] then []
    else
      var before := p[..|p| - 1];
      ClosedBlocks(before)
      + (if IsHeading(p[|p| - 1]) && OpenBody(before) != [] then [OpenBody(before)] else [])
  }

  /** The blocks of the whole input: those closed by headings, then the final flush. */
  function Blocks(lines: seq<string>): seq<seq<string>> {
    ClosedBlocks(lines) + (if OpenBody(lines) != [] then [OpenBody(lines)] else [])
  }

  /** Each block written as one line, its parts joined with single spaces. */
  function Render(blocks: seq<seq<string>>): seq<string> {
    if blocks == [] then []
    else Render(blocks[..|blocks| - 1]) + [Join(blocks[|blocks| - 1], " ")]
  }

  /** The concatenation of `blocks`, in order. */
  function Flatten(blocks: seq<seq<string>>): seq<string> {
    if blocks == [] then []
    else Flatten(blocks[..|blocks| - 1]) + blocks[|blocks| - 1]
  }

  lemma RenderAppend(blocks: seq<seq<string>>, b: seq<string>)
    ensures Render(blocks + [b]) == Render(blocks) + [Join(b, " ")]
    ensures Flatten(blocks + [b]) == Flatten(blocks) + b
  {
    assert (blocks + [b])[..|blocks|] == blocks;
  }

  lemma OpenBodyStep(lines: seq<string>, i: nat)
    requires i < |lines|
    ensures OpenBody(lines[..i + 1])
            == if IsHeading(lines[i]) then []
               else if Accumulates(lines[..i], lines[i]) then OpenBody(lines[..i]) + [lines[i]]
               else OpenBody(lines[..i])
  {
    var p, q, x := lines[..i], lines[..i + 1], lines[i];
    InH2SectionStep(lines, i);
    LastIndexWhereStep(lines, i, IsHeading);
    if IsHeading(x) {
      assert q[i + 1..] == [];
    } else if InH2Section(p) {
      var h := LastIndexWhere(p, IsHeading);
      var tail := p[h + 1..];
      assert q[h + 1..] == tail + [x];
      assert (tail + [x])[..|tail|] == tail;
    }
  }

  /**
   * The accumulator is empty outside a level-2 section and right after any
   * heading-prefixed line.
   */
  lemma OpenBodyEmpty(lines: seq<string>, n: nat)
    requires n <= |lines|
    ensures !InH2Section(lines[..n]) || (0 < n && IsHeading(lines[n - 1])) ==> OpenBody(lines[..n]) == []
  {
    if 0 < n && IsHeading(lines[n - 1]) {
      OpenBodyStep(lines, n - 1);
    }
  }

  lemma ClosedBlocksStep(lines: seq<string>, i: nat)
    requires i < |lines|
    ensures ClosedBlocks(lines[..i + 1])
            == ClosedBlocks(lines[..i])
               + (if IsHeading(lines[i]) && OpenBody(lines[..i]) != [] then [OpenBody(lines[..i])] else [])
  {
    assert lines[..i + 1][..i] == lines[..i];
  }

  /** Reading a line that is not a heading flushes nothing. */
  lemma RenderStep(lines: seq<string>, i: nat)
    requires i < |lines|
    ensures Render(ClosedBlocks(lines[..i + 1]))
            == Render(ClosedBlocks(lines[..i]))
               + (if IsHeading(lines[i]) && OpenBody(lines[..i]) != [] then [Join(OpenBody(lines[..i]), " ")] else [])
  {
    ClosedBlocksStep(lines, i);
    var closed, open := ClosedBlocks(lines[..i]), OpenBody(lines[..i]);
    if IsHeading(lines[i]) && open != [] {
      RenderAppend(closed, open);
    } else {
      assert ClosedBlocks(lines[..i + 1]) == closed + [] == closed;
    }
  }

  /**
   * The extraction loop of `process_markdown`: `copy` is the flag,
   * `temp` is `temp_text` and `extracted` is `extracted_text`.
   */
  method ExtractSingleLines(lines: seq<string>) returns (extracted: seq<string>)
    ensures extracted == Render(Blocks(lines))
  {
    extracted := [];
    var temp: seq<string> := [];
    var copy := false;
    for i := 0 to |lines|
      invariant copy == InH2Section(lines[..i])
      invariant temp == OpenBody(lines[..i])
      invariant extracted == Render(ClosedBlocks(lines[..i]))
    {
      var line := lines[i];
      var blank := Trim(line) == "";
      assert blank == IsBlank(line) by { BlankIffTrimEmpty(line); }
      HeadingKinds(line);
      OpenBodyEmpty(lines, i);
      assert
        && InH2Section(lines[..i + 1]) == (if IsHeading(line) then IsH2(line) else copy)
        && OpenBody(lines[..i + 1])
           == (if IsHeading(line) then [] else if IsContent(line) && copy then temp + [line] else temp)
        && Render(ClosedBlocks(lines[..i + 1]))
           == if IsHeading(line) && temp != [] then extracted + [Join(temp, " ")] else extracted
      by {
        InH2SectionStep(lines, i);
        OpenBodyStep(lines, i);
        RenderStep(lines, i);
        assert extracted + [] == extracted;
      }
      if blank {
        continue;
      }
      if IsH1(line) || IsH3(line) {
        if copy && temp != [] {
          extracted := extracted + [Join(temp, " ")];
          temp := [];
        }
        copy := false;
      } else if IsH2(line) {
        if copy && temp != [] {
          extracted := extracted + [Join(temp, " ")];
          temp := [];
        }
        copy := true;
      } else if copy {
        temp := temp + [line];
      }
    }
    assert lines[..|lines|] == lines;
    if copy && temp != [] {
      RenderAppend(ClosedBlocks(lines), temp);
      extracted := extracted + [Join(temp, " ")];
    } else {
      assert Blocks(lines) == ClosedBlocks(lines) + [] == ClosedBlocks(lines);
    }
  }

  /** A block as the loop flushes it: not empty, and made of content lines only. */
  predicate HoldsContent(b: seq<string>) {
    b != [] && forall x :: x in b ==> IsContent(x)
  }

  lemma OpenBodyIsContent(p: seq<string>)
    ensures forall x :: x in OpenBody(p) ==> IsContent(x)
  {
    if InH2Section(p) {
      FilterKeeps(p[LastIndexWhere(p, IsHeading) + 1..], IsContent);
    }
  }

  lemma {:induction false} ClosedBlocksHoldContent(lines: seq<string>, n: nat)
    requires n <= |lines|
    ensures forall b :: b in ClosedBlocks(lines[..n]) ==> HoldsContent(b)
  {
    if n > 0 {
      var i := n - 1;
      ClosedBlocksHoldContent(lines, i);
      ClosedBlocksStep(lines, i);
      OpenBodyIsContent(lines[..i]);
    }
  }

  /**
   * Every block holds at least one line, and only lines that are neither
   * blank nor heading-prefixed.
   */
  lemma BlocksHoldContent(lines: seq<string>)
    ensures forall b :: b in Blocks(lines) ==> HoldsContent(b)
  {
    ClosedBlocksHoldContent(lines, |lines|);
    assert lines[..|lines|] == lines;
    OpenBodyIsContent(lines);
  }

  lemma {:induction false} RenderAt(blocks: seq<seq<string>>)
    ensures |Render(blocks)| == |blocks|
    ensures forall k :: 0 <= k < |blocks| ==> Render(blocks)[k] == Join(blocks[k], " ")
  {
    if blocks != [] {
      var init := blocks[..|blocks| - 1];
      RenderAt(init);
      assert forall k :: 0 <= k < |init| ==> blocks[k] == init[k];
    }
  }

  /**
   * The output has one line per block, each the space-joined lines of its
   * block, and no output line is blank.
   */
  lemma OutputLinesNotBlank(lines: seq<string>)
    ensures |Render(Blocks(lines))| == |Blocks(lines)|
    ensures forall k :: 0 <= k < |Blocks(lines)| ==> Render(Blocks(lines))[k] == Join(Blocks(lines)[k], " ")
    ensures forall k :: 0 <= k < |Render(Blocks(lines))| ==> !IsBlank(Render(Blocks(lines))[k])
  {
    var blocks := Blocks(lines);
    RenderAt(blocks);
    BlocksHoldContent(lines);
    forall k | 0 <= k < |blocks|
      ensures !IsBlank(Join(blocks[k], " "))
    {
      assert blocks[k] in blocks;
      assert blocks[k][0] in blocks[k];
      JoinNotBlank(blocks[k], " ");
    }
  }

  lemma {:induction false} FlattenUpTo(lines: seq<string>, n: nat)
    requires n <= |lines|
    ensures Flatten(ClosedBlocks(lines[..n])) + OpenBody(lines[..n])
            == FilterInContext(lines[..n], Accumulates)
  {
    if n > 0 {
      var i := n - 1;
      FlattenUpTo(lines, i);
      ClosedBlocksStep(lines, i);
      OpenBodyStep(lines, i);
      FilterInContextStep(lines, i, Accumulates);
      var closed, open, x := ClosedBlocks(lines[..i]), OpenBody(lines[..i]), lines[i];
      var kept := FilterInContext(lines[..i], Accumulates);
      if IsHeading(x) {
        assert !Accumulates(lines[..i], x);
        assert FilterInContext(lines[..n], Accumulates) == kept + [] == kept;
        if open != [] {
          RenderAppend(closed, open);
        } else {
          assert ClosedBlocks(lines[..n]) == closed + [] == closed;
          assert closed == closed + [];
        }
        assert Flatten(ClosedBlocks(lines[..n])) + [] == Flatten(ClosedBlocks(lines[..n]));
      } else {
        assert ClosedBlocks(lines[..n]) == closed + [] == closed;
        if Accumulates(lines[..i], x) {
          assert Flatten(closed) + (open + [x]) == (Flatten(closed) + open) + [x];
        } else {
          assert FilterInContext(lines[..n], Accumulates) == kept + [] == kept;
        }
      }
    }
  }

  /**
   * Nothing accumulated is lost and nothing else gets in: the blocks, read
   * in order, are exactly the input lines that are neither blank nor
   * heading-prefixed and whose nearest heading-prefixed line above starts
   * with "## ", in input order.
   */
  lemma BlocksFlatten(lines: seq<string>)
    ensures Flatten(Blocks(lines)) == FilterInContext(lines, Accumulates)
    ensures IsSubsequence(Flatten(Blocks(lines)), lines)
  {
    FilterInContextIsSubsequence(lines, Accumulates);
    FlattenUpTo(lines, |lines|);
    assert lines[..|lines|] == lines;
    var closed, open := ClosedBlocks(lines), OpenBody(lines);
    if open != [] {
      RenderAppend(closed, open);
    } else {
      assert Blocks(lines) == closed + [] == closed;
      assert Flatten(closed) + open == Flatten(closed);
    }
  }

  /**
   * The "## " line at `j` heads a section with content: some line after it
   * is neither blank nor heading-prefixed and no heading-prefixed line
   * comes between the two.
   */
  ghost predicate SectionHasContent(lines: seq<string>, j: int)
    requires 0 <= j < |lines|
  {
    && IsH2(lines[j])
    && exists i :: j < i < |lines| && IsContent(lines[i]) && forall k :: j < k < i ==> !IsHeading(lines[k])
  }

  /** The indices of the "## " lines whose section has content. */
  ghost function SectionsWithContent(lines: seq<string>): set<int> {
    set j | 0 <= j < |lines| && SectionHasContent(lines, j)
  }

  /** A content line after the open "## " line gives it content and fills the accumulator. */
  lemma OpenBodyFromContent(p: seq<string>)
    requires InH2Section(p) && SectionHasContent(p, LastIndexWhere(p, IsHeading))
    ensures OpenBody(p) != []
  {
    var h := LastIndexWhere(p, IsHeading);
    var tail := p[h + 1..];
    var i :| h < i < |p| && IsContent(p[i]) && forall k :: h < k < i ==> !IsHeading(p[k]);
    assert tail[i - h - 1] == p[i];
    FilterNonEmpty(tail, IsContent);
  }

  lemma ContentAfterHeading(p: seq<string>, h: nat)
    requires h < |p| && IsH2(p[h])
    requires forall k :: h < k < |p| ==> !IsHeading(p[k])
    requires Filter(p[h + 1..], IsContent) != []
    ensures SectionHasContent(p, h)
  {
    var tail := p[h + 1..];
    FilterNonEmpty(tail, IsContent);
    var k :| 0 <= k < |tail| && IsContent(tail[k]);
    assert p[h + 1 + k] == tail[k];
  }

  /** A non-empty accumulator means the open "## " line has content. */
  lemma ContentFromOpenBody(p: seq<string>)
    requires InH2Section(p) && OpenBody(p) != []
    ensures SectionHasContent(p, LastIndexWhere(p, IsHeading))
  {
    var h := LastIndexWhere(p, IsHeading);
    assert 0 <= h && IsH2(p[h]);
    assert Filter(p[h + 1..], IsContent) != [];
    LastIndexWhereIsLast(p, IsHeading);
    ContentAfterHeading(p, h);
  }

  /** The open section has content exactly when the accumulator is not empty. */
  lemma OpenBodyNonEmpty(p: seq<string>)
    requires InH2Section(p)
    ensures OpenBody(p) != [] <==> SectionHasContent(p, LastIndexWhere(p, IsHeading))
  {
    if OpenBody(p) != [] {
      ContentFromOpenBody(p);
    }
    if SectionHasContent(p, LastIndexWhere(p, IsHeading)) {
      OpenBodyFromContent(p);
    }
  }

  /** A section that has content keeps it when more lines are read. */
  lemma SectionKeepsContent(lines: seq<string>, i: nat, j: nat)
    requires j < i < |lines| && SectionHasContent(lines[..i], j)
    ensures SectionHasContent(lines[..i + 1], j)
  {
    var p, q := lines[..i], lines[..i + 1];
    var w :| j < w < |p| && IsContent(p[w]) && forall k :: j < k < w ==> !IsHeading(p[k]);
    assert q[j] == p[j] && q[w] == p[w];
    assert forall k :: j < k < w ==> q[k] == p[k];
  }

  /** An accumulated line gives the open section content. */
  lemma SectionGainsContent(lines: seq<string>, i: nat)
    requires i < |lines| && Accumulates(lines[..i], lines[i])
    ensures var h := LastIndexWhere(lines[..i], IsHeading);
      0 <= h < i && SectionHasContent(lines[..i + 1], h)
  {
    var p, q := lines[..i], lines[..i + 1];
    var h := LastIndexWhere(p, IsHeading);
    LastIndexWhereIsLast(p, IsHeading);
    assert q[h] == p[h] && q[i] == lines[i];
    assert forall k :: h < k < i ==> q[k] == p[k];
  }

  /** A section gains content only from an accumulated line, and only the open one. */
  lemma SectionContentSource(lines: seq<string>, i: nat, j: nat)
    requires j < i < |lines| && SectionHasContent(lines[..i + 1], j)
    ensures || SectionHasContent(lines[..i], j)
            || (Accumulates(lines[..i], lines[i]) && j == LastIndexWhere(lines[..i], IsHeading))
  {
    var q := lines[..i + 1];
    var w :| j < w < |q| && IsContent(q[w]) && forall k :: j < k < w ==> !IsHeading(q[k]);
    assert forall k :: j <= k <= w ==> q[k] == lines[k];
    if w < i {
      SectionWitness(lines, i, j, w);
    } else {
      NearestHeading(lines, i, j);
    }
  }

  /** A content line with no heading since the "## " line at `j` gives that section content. */
  lemma SectionWitness(lines: seq<string>, n: nat, j: nat, w: nat)
    requires j < w < n <= |lines| && IsH2(lines[j]) && IsContent(lines[w])
    requires forall k :: j < k < w ==> !IsHeading(lines[k])
    ensures SectionHasContent(lines[..n], j)
  {
    var p := lines[..n];
    assert p[j] == lines[j] && p[w] == lines[w];
    assert forall k :: j < k < w ==> p[k] == lines[k];
  }

  /** A "## " line with no heading after it is the open section's heading. */
  lemma NearestHeading(lines: seq<string>, i: nat, j: nat)
    requires j < i <= |lines| && IsH2(lines[j])
    requires forall k :: j < k < i ==> !IsHeading(lines[k])
    ensures j == LastIndexWhere(lines[..i], IsHeading) && InH2Section(lines[..i])
  {
    var p := lines[..i];
    LastIndexWhereIsLast(p, IsHeading);
    assert p[j] == lines[j];
    assert forall k :: j < k < i ==> p[k] == lines[k];
  }

  /** How reading `lines[i]` changes whether the section of the "## " line at `j < i` has content. */
  lemma SectionStepAt(lines: seq<string>, i: nat, j: nat)
    requires j < i < |lines|
    ensures var p := lines[..i];
      SectionHasContent(lines[..i + 1], j)
      <==> SectionHasContent(p, j) || (Accumulates(p, lines[i]) && j == LastIndexWhere(p, IsHeading))
  {
    if SectionHasContent(lines[..i], j) {
      SectionKeepsContent(lines, i, j);
    }
    if Accumulates(lines[..i], lines[i]) {
      SectionGainsContent(lines, i);
    }
    if SectionHasContent(lines[..i + 1], j) {
      SectionContentSource(lines, i, j);
    }
  }

  lemma SectionsStep(lines: seq<string>, i: nat)
    requires i < |lines|
    ensures var p, x := lines[..i], lines[i];
      SectionsWithContent(lines[..i + 1])
      == SectionsWithContent(p) + if Accumulates(p, x) then {LastIndexWhere(p, IsHeading)} else {}
  {
    var p, q, x := lines[..i], lines[..i + 1], lines[i];
    var added: set<int> := if Accumulates(p, x) then {LastIndexWhere(p, IsHeading)} else {};
    forall j
      ensures j in SectionsWithContent(q) <==> j in SectionsWithContent(p) + added
    {
      if 0 <= j < i {
        SectionStepAt(lines, i, j);
      } else if j == i {
        assert !SectionHasContent(q, i);
      }
    }
  }

  lemma {:induction false} CountUpTo(lines: seq<string>, n: nat)
    requires n <= |lines|
    ensures |ClosedBlocks(lines[..n])| + (if OpenBody(lines[..n]) != [] then 1 else 0)
            == |SectionsWithContent(lines[..n])|
  {
    if n > 0 {
      var i := n - 1;
      var p, x := lines[..i], lines[i];
      CountUpTo(lines, i);
      ClosedBlocksStep(lines, i);
      OpenBodyStep(lines, i);
      SectionsStep(lines, i);
      var s, s' := SectionsWithContent(p), SectionsWithContent(lines[..n]);
      if Accumulates(p, x) {
        var h := LastIndexWhere(p, IsHeading);
        HeadingKinds(x);
        OpenBodyNonEmpty(p);
        assert h in s <==> OpenBody(p) != [];
        assert s' == s + {h};
        AddOneCardinality(s, h);
      } else {
        assert s' == s + {} == s;
      }
    }
  }

  lemma AddOneCardinality(s: set<int>, h: int)
    ensures |s + {h}| == |s| + if h in s then 0 else 1
  {
    if h in s {
      assert s + {h} == s;
    }
  }

  /**
   * One block per "## " line whose section has content; hence never more
   * blocks than "## " lines.
   */
  lemma BlockCount(lines: seq<string>)
    ensures |Blocks(lines)| == |SectionsWithContent(lines)|
    ensures SectionsWithContent(lines) <= H2Lines(lines)
    ensures |Blocks(lines)| <= |H2Lines(lines)|
  {
    CountUpTo(lines, |lines|);
    assert lines[..|lines|] == lines;
    var s, h2 := SectionsWithContent(lines), H2Lines(lines);
    assert s <= h2;
    assert h2 == s + (h2 - s);
  }
}
