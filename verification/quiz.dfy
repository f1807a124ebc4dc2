/**
 * The quiz generator (src/main.rs): keeps every level-1 and level-2 heading
 * line, copies the body of each level-2 section verbatim, and closes every
 * level-2 section with a fixed "### try:" unit, the space in which the
 * reader writes an answer.
 */
module QuizGenerator {
  import opened Markdown

  /** The tag in the output file name. */
  const OutputTag: string := "_quiz_"

  /** The name of the file the quiz is written to: `{stem}_quiz_{timestamp}.md`. */
  function QuizFileName(stem: string, timestamp: string): string {
    OutputFileName(stem, OutputTag, timestamp)
  }

  /** The unit pushed after each level-2 section. */
  const Separator: string := "### try:\n\n\n"

  /** The separator is itself a "###" line, so no input line is ever mistaken for it. */
  predicate NotSeparator(unit: string) { unit != Separator }

  /**
   * `previous_was_h2` after the lines in `before`: the nearest level-1 or
   * level-2 heading exists and is level-2.
   */
  predicate AfterH2(before: seq<string>) {
    var m := LastIndexWhere(before, IsMajor);
    m >= 0 && IsH2(before[m])
  }

  /**
   * Whether `line`, read after `before`, is copied to the output: every
   * level-1 or level-2 heading, and every other line that does not start
   * with "###" while a level-2 section is open.
   */
  predicate Kept(before: seq<string>, line: string) {
    IsMajor(line) || (!IsH3(line) && InH2Section(before))
  }

  /**
   * What reading `line` after `before` contributes to the output: the
   * separator when the line is a level-1 or level-2 heading that ends a
   * level-2 section, then the line itself when it is kept.
   */
  function Unit(before: seq<string>, line: string): seq<string> {
    (if IsMajor(line) && AfterH2(before) then [Separator] else [])
    + (if Kept(before, line) then [line] else [])
  }

  /** The units contributed by the lines of `p`, in order. */
  function Emitted(p: seq<string>): seq<string> {
    if p == [] then []
    else Emitted(p[..|p| - 1]) + Unit(p[..|p| - 1], p[|p| - 1])
  }

  /**
   * The output of the quiz generator: every line's units, then a final
   * separator when the input ends inside a level-2 section.
   */
  function Quiz(lines: seq<string>): seq<string> {
    Emitted(lines) + (if AfterH2(lines) then [Separator] else [])
  }

  lemma AfterH2Step(lines: seq<string>, i: nat)
    requires i < |lines|
    ensures AfterH2(lines[..i + 1])
            == if IsMajor(lines[i]) then IsH2(lines[i]) else AfterH2(lines[..i])
  {
    LastIndexWhereStep(lines, i, IsMajor);
    assert lines[..i + 1][i] == lines[i];
    if !IsMajor(lines[i]) {
      var m := LastIndexWhere(lines[..i], IsMajor);
      if m >= 0 {
        assert lines[..i + 1][m] == lines[..i][m];
      }
    }
  }

  lemma EmittedStep(lines: seq<string>, i: nat)
    requires i < |lines|
    ensures Emitted(lines[..i + 1]) == Emitted(lines[..i]) + Unit(lines[..i], lines[i])
  {
    assert lines[..i + 1][..i] == lines[..i];
  }

  /** The unit of a line, case by case on its prefix, as the loop body computes it. */
  lemma UnitByPrefix(before: seq<string>, line: string)
    ensures IsMajor(line) ==> Unit(before, line) == (if AfterH2(before) then [Separator] else []) + [line]
    ensures IsH3(line) ==> Unit(before, line) == []
    ensures !IsHeading(line) ==> Unit(before, line) == if InH2Section(before) then [line] else []
  {
    HeadingKinds(line);
  }

  /**
   * The extraction loop of `process_markdown`, with its one-line lookahead.
   * The flags are `copy` and `previous_was_h2`; `selected` is
   * `selected_lines`.
   */
  method ExtractQuiz(lines: seq<string>) returns (selected: seq<string>)
    ensures selected == Quiz(lines)
  {
    selected := [];
    var previousWasH2 := false;
    var copy := false;
    for i := 0 to |lines|
      invariant selected == Emitted(lines[..i])
      invariant previousWasH2 == AfterH2(lines[..i])
      invariant copy == (InH2Section(lines[..i]) && !(i < |lines| && IsMajor(lines[i])))
    {
      var line := lines[i];
      HeadingKinds(line);
      assert
        && Emitted(lines[..i + 1])
           == (if IsMajor(line) then (if previousWasH2 then selected + [Separator] else selected) + [line]
               else if !IsH3(line) && copy then selected + [line]
               else selected)
        && AfterH2(lines[..i + 1]) == (if IsMajor(line) then IsH2(line) else previousWasH2)
        && InH2Section(lines[..i + 1]) == (if IsHeading(line) then IsH2(line) else copy)
      by {
        UnitByPrefix(lines[..i], line);
        EmittedStep(lines, i);
        AfterH2Step(lines, i);
        InH2SectionStep(lines, i);
        assert selected + [] == selected;
        assert selected + ([Separator] + [line]) == selected + [Separator] + [line];
        assert selected + ([] + [line]) == selected + [line];
      }
      if IsH1(line) {
        if previousWasH2 {
          selected := selected + [Separator];
        }
        selected := selected + [line];
        previousWasH2 := false;
        copy := false;
      } else if IsH2(line) {
        if previousWasH2 {
          selected := selected + [Separator];
        }
        selected := selected + [line];
        previousWasH2 := true;
        copy := true;
      } else if IsH3(line) {
        copy := false;
      } else if copy {
        selected := selected + [line];
      }
      assert selected == Emitted(lines[..i + 1]);
      assert previousWasH2 == AfterH2(lines[..i + 1]);
      assert copy == InH2Section(lines[..i + 1]);

      if copy && i + 1 < |lines| {
        var next := lines[i + 1];
        if IsH2(next) || IsH1(next) {
          copy := false;
        }
      }
    }
    assert lines[..|lines|] == lines;
    if previousWasH2 {
      selected := selected + [Separator];
    }
  }

  /**
   * The state of the extraction loop: `selected_lines`, `previous_was_h2`
   * and `copy`.
   */
  datatype ScanState = ScanState(selected: seq<string>, previousWasH2: bool, copy: bool)

  /**
   * One iteration of the extraction loop with the lookahead left out. It
   * only appends to the output, at most a separator and the line, and
   * whatever it appends ends with the line.
   */
  function Step(st: ScanState, line: string): (r: ScanState)
    ensures st.selected <= r.selected && |r.selected| <= |st.selected| + 2
    ensures r.selected != st.selected ==> r.selected[|r.selected| - 1] == line
    ensures (st.copy ==> st.previousWasH2) ==> (r.copy ==> r.previousWasH2)
  {
    var close := if st.previousWasH2 then [Separator] else [];
    if IsH1(line) then ScanState(st.selected + close + [line], false, false)
    else if IsH2(line) then ScanState(st.selected + close + [line], true, true)
    else if IsH3(line) then st.(copy := false)
    else if st.copy then st.(selected := st.selected + [line])
    else st
  }

  /**
   * The extraction loop without the lookahead, run over `p`: at most two
   * units per line, and `copy` is only ever set together with
   * `previous_was_h2`.
   */
  function Scan(p: seq<string>): (r: ScanState)
    ensures |r.selected| <= 2 * |p|
    ensures r.copy ==> r.previousWasH2
  {
    if p == [] then ScanState([], false, false)
    else Step(Scan(p[..|p| - 1]), p[|p| - 1])
  }

  /** The output of the loop without the lookahead, with the final separator. */
  function QuizWithoutLookahead(lines: seq<string>): seq<string> {
    var st := Scan(lines);
    st.selected + (if st.previousWasH2 then [Separator] else [])
  }

  lemma {:induction false} ScanTracksFlags(lines: seq<string>, n: nat)
    requires n <= |lines|
    ensures Scan(lines[..n]) == ScanState(Emitted(lines[..n]), AfterH2(lines[..n]), InH2Section(lines[..n]))
  {
    if n > 0 {
      var i := n - 1;
      ScanTracksFlags(lines, i);
      assert lines[..n][..i] == lines[..i];
      var line := lines[i];
      assert lines[..n][i] == line;
      var st := Scan(lines[..i]);
      assert Scan(lines[..n]) == Step(st, line);
      HeadingKinds(line);
      EmittedStep(lines, i);
      AfterH2Step(lines, i);
      InH2SectionStep(lines, i);
      var u := Unit(lines[..i], line);
      if IsMajor(line) {
        assert u == (if st.previousWasH2 then [Separator] else []) + [line];
      } else if IsH3(line) {
        assert u == [];
      } else {
        assert u == if st.copy then [line] else [];
      }
    }
  }

  /**
   * The lookahead never changes the output: dropping it from the loop gives
   * the same units, because the line it peeks at is a level-1 or level-2
   * heading, which sets `copy` itself.
   */
  lemma LookaheadIsRedundant(lines: seq<string>)
    ensures QuizWithoutLookahead(lines) == Quiz(lines)
  {
    ScanTracksFlags(lines, |lines|);
    assert lines[..|lines|] == lines;
  }

  lemma SeparatorIsLevel3()
    ensures IsH3(Separator) && !IsMajor(Separator)
  {
    HeadingKinds(Separator);
  }

  /** A unit is the separator or the line it was made for, and a kept line never starts with "###". */
  lemma UnitShape(before: seq<string>, line: string)
    ensures Kept(before, line) ==> !IsH3(line) && line != Separator
    ensures Unit(before, line) == [] || Unit(before, line) == [line]
            || Unit(before, line) == [Separator, line]
    ensures Unit(before, line) == [Separator, line] ==> IsMajor(line)
  {
    HeadingKinds(line);
    SeparatorIsLevel3();
  }

  lemma {:induction false} HeadingsPreservedUpTo(lines: seq<string>, n: nat)
    requires n <= |lines|
    ensures Filter(Emitted(lines[..n]), IsMajor) == Filter(lines[..n], IsMajor)
  {
    if n > 0 {
      var i := n - 1;
      var line := lines[i];
      HeadingsPreservedUpTo(lines, i);
      EmittedStep(lines, i);
      assert lines[..n][..i] == lines[..i] && lines[..n][i] == line;
      var u := Unit(lines[..i], line);
      FilterAppend(Emitted(lines[..i]), u, IsMajor);
      UnitShape(lines[..i], line);
      SeparatorIsLevel3();
      if u == [Separator, line] {
        FilterAppend([Separator], [line], IsMajor);
        assert [Separator] + [line] == u;
      }
      assert Filter(u, IsMajor) == if IsMajor(line) then [line] else [];
    }
  }

  /**
   * Every level-1 and level-2 heading line of the input appears in the
   * output exactly once, in input order, and no other unit is such a
   * heading.
   */
  lemma QuizHeadingsPreserved(lines: seq<string>)
    ensures Filter(Quiz(lines), IsMajor) == Filter(lines, IsMajor)
  {
    HeadingsPreservedUpTo(lines, |lines|);
    assert lines[..|lines|] == lines;
    SeparatorIsLevel3();
    FilterAppend(Emitted(lines), if AfterH2(lines) then [Separator] else [], IsMajor);
  }

  lemma UnitSeparatorCount(before: seq<string>, line: string)
    ensures multiset(Unit(before, line))[Separator] == if IsMajor(line) && AfterH2(before) then 1 else 0
  {
    UnitShape(before, line);
  }

  lemma {:induction false} SeparatorCountUpTo(lines: seq<string>, n: nat)
    requires n <= |lines|
    ensures multiset(Emitted(lines[..n]))[Separator] + (if AfterH2(lines[..n]) then 1 else 0)
            == |H2Lines(lines[..n])|
  {
    if n > 0 {
      var i := n - 1;
      var line := lines[i];
      SeparatorCountUpTo(lines, i);
      EmittedStep(lines, i);
      AfterH2Step(lines, i);
      H2CountStep(lines, i);
      UnitSeparatorCount(lines[..i], line);
      HeadingKinds(line);
      var e, u := Emitted(lines[..i]), Unit(lines[..i], line);
      assert multiset(e + u)[Separator] == multiset(e)[Separator] + multiset(u)[Separator];
    }
  }

  /** One separator is emitted per input line that starts with "## ". */
  lemma QuizSeparatorCount(lines: seq<string>)
    ensures multiset(Quiz(lines))[Separator] == |H2Lines(lines)|
  {
    SeparatorCountUpTo(lines, |lines|);
    assert lines[..|lines|] == lines;
  }

  lemma {:induction false} SelectedUpTo(lines: seq<string>, n: nat)
    requires n <= |lines|
    ensures Filter(Emitted(lines[..n]), NotSeparator) == FilterInContext(lines[..n], Kept)
  {
    if n > 0 {
      var i := n - 1;
      var line := lines[i];
      SelectedUpTo(lines, i);
      EmittedStep(lines, i);
      FilterInContextStep(lines, i, Kept);
      var u := Unit(lines[..i], line);
      FilterAppend(Emitted(lines[..i]), u, NotSeparator);
      UnitShape(lines[..i], line);
      if u == [Separator, line] {
        FilterAppend([Separator], [line], NotSeparator);
        assert [Separator] + [line] == u;
      }
      assert Filter(u, NotSeparator) == if Kept(lines[..i], line) then [line] else [];
    }
  }

  /**
   * With the separators taken out, the output is exactly the input lines
   * accepted by `Kept`, in input order: a subsequence of the input.
   */
  lemma QuizSelectsInputLines(lines: seq<string>)
    ensures Filter(Quiz(lines), NotSeparator) == FilterInContext(lines, Kept)
    ensures IsSubsequence(Filter(Quiz(lines), NotSeparator), lines)
  {
    SelectedUpTo(lines, |lines|);
    assert lines[..|lines|] == lines;
    FilterAppend(Emitted(lines), if AfterH2(lines) then [Separator] else [], NotSeparator);
    FilterInContextIsSubsequence(lines, Kept);
  }

  lemma {:induction false} UnitsFromInput(lines: seq<string>, n: nat)
    requires n <= |lines|
    ensures forall u :: u in Emitted(lines[..n]) ==> u == Separator || (u in lines && !IsH3(u))
  {
    if n > 0 {
      var i := n - 1;
      UnitsFromInput(lines, i);
      EmittedStep(lines, i);
      UnitShape(lines[..i], lines[i]);
    }
  }

  lemma {:induction false} SeparatorsUpTo(lines: seq<string>, n: nat)
    requires n <= |lines|
    ensures Emitted(lines[..n]) == [] || Emitted(lines[..n])[|Emitted(lines[..n])| - 1] != Separator
    ensures forall k :: 0 <= k < |Emitted(lines[..n])| - 1 && Emitted(lines[..n])[k] == Separator
                        ==> IsMajor(Emitted(lines[..n])[k + 1])
  {
    if n > 0 {
      var i := n - 1;
      var line := lines[i];
      SeparatorsUpTo(lines, i);
      EmittedStep(lines, i);
      UnitShape(lines[..i], line);
      var e, u := Emitted(lines[..i]), Unit(lines[..i], line);
      var e' := e + u;
      assert Emitted(lines[..n]) == e';
      forall k | 0 <= k < |e'| - 1 && e'[k] == Separator
        ensures IsMajor(e'[k + 1])
      {
        if k < |e| - 1 {
          assert e'[k] == e[k] && e'[k + 1] == e[k + 1];
        } else if k >= |e| {
          assert u == [Separator, line];
        }
      }
    }
  }

  /** No input line starting with "###" is ever emitted: every unit is the separator or a kept input line. */
  lemma QuizDropsLevel3(lines: seq<string>)
    ensures forall u :: u in Quiz(lines) ==> u == Separator || (u in lines && !IsH3(u))
  {
    UnitsFromInput(lines, |lines|);
    assert lines[..|lines|] == lines;
  }

  /**
   * A separator is always followed by a level-1 or level-2 heading or ends
   * the output, and the output ends with one exactly when the nearest
   * level-1 or level-2 heading of the input is level-2.
   */
  lemma QuizSeparatorPlacement(lines: seq<string>)
    ensures forall k :: 0 <= k < |Quiz(lines)| - 1 && Quiz(lines)[k] == Separator
                        ==> IsMajor(Quiz(lines)[k + 1])
    ensures (Quiz(lines) != [] && Quiz(lines)[|Quiz(lines)| - 1] == Separator) <==> AfterH2(lines)
  {
    SeparatorsUpTo(lines, |lines|);
    assert lines[..|lines|] == lines;
    var e, q := Emitted(lines), Quiz(lines);
    forall k | 0 <= k < |q| - 1 && q[k] == Separator
      ensures IsMajor(q[k + 1])
    {
      assert q[k] == e[k];
      if k < |e| - 1 {
        assert q[k + 1] == e[k + 1];
      }
    }
  }
}
