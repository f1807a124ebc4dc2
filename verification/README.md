# MarkdownQuizGenerator in Dafny

MarkdownQuizGenerator has two small command-line programs. Each reads a
Markdown file and writes selected parts of it to a new file next to the
input. Both scan the lines once. They classify each line only by a literal
prefix: `"# "` (level 1), `"## "` (level 2) or `"###"` (level 3 or deeper).
A little boolean state decides what to keep.

- The **quiz generator** (`src/main.rs`) does three things:
  - it keeps every level-1 and level-2 heading line;
  - it copies the body of each level-2 section verbatim;
  - it closes each level-2 section with the unit `"### try:\n\n\n"`, the
    space where a reader writes an answer. The unit comes before the next
    level-1 or level-2 heading, or at the end of the file.

  Output: `{stem}_quiz_{timestamp}.md`.
- The **single-line generator** (`src/bin/signle-line-generator.rs`) does
  three things:
  - it skips whitespace-only lines;
  - it collects the body lines of each level-2 section;
  - it writes each non-empty collection as one line, joined by single spaces.

  Output: `{stem}_processed_{timestamp}.md`.

The project has three modules:

- `Markdown` (`markdown.dfy`) holds what both programs share:
  - the prefix tests;
  - Rust's `char::is_whitespace` and `str::trim`, used for "blank";
  - the nearest-heading rule (`LastIndexWhere`, `InH2Section`);
  - the output file name (each program adds its tag in `QuizFileName` or
    `ProcessedFileName`);
  - a small sequence toolkit: order-preserving filters, and subsequences
    witnessed by an increasing index sequence.
- `QuizGenerator` (`quiz.dfy`):
  - The extraction loop is the method `ExtractQuiz`. It keeps the source's
    flags `copy` and `previous_was_h2`, and its one-line lookahead.
  - `ExtractQuiz` is proved equal to the declarative `Quiz`. `Quiz` decides
    each line's contribution from the lines before it.
  - The properties of the output are proved about `Quiz`.
  - A second model of the loop has the lookahead removed: `Step`/`Scan`. It
    is proved to give the same output, so the lookahead never changes what
    is written.
- `SingleLineGenerator` (`single_line.dfy`):
  - The extraction loop is the method `ExtractSingleLines`. It keeps the
    `copy` flag, the `temp_text` buffer and the post-loop flush.
  - `ExtractSingleLines` is proved equal to `Render(Blocks(lines))`:
    - `OpenBody(p)` is the body of the section still open after the lines
      `p`;
    - `ClosedBlocks(p)` is the blocks that heading lines have flushed;
    - `Blocks` adds the final flush.
  - The properties of the output are proved about `Blocks`.

Lines are `string` (`seq<char>`), and an output file is a `seq<string>` with
one element per `writeln!`.

## Model

The main results are `QuizGenerator.ExtractQuiz` and
`SingleLineGenerator.ExtractSingleLines`, which prove each loop equal to a
declarative definition. The properties proved about those definitions are
`QuizHeadingsPreserved`, `QuizSeparatorCount`, `QuizSelectsInputLines`,
`QuizDropsLevel3`, `QuizSeparatorPlacement`, `LookaheadIsRedundant`,
`BlocksFlatten`, `OutputLinesNotBlank` and `BlockCount`. The rows for
`LastIndexWhereStep`, `FilterInContextStep`, `EmittedStep`,
`ClosedBlocksStep`, `RenderAppend` and the other `…Step` lemmas are step
lemmas. Each unfolds one definition by one more line, and the loop
invariants are built from them.

| member | source | states |
|---|---|---|
| `Markdown.IsH1` | src/main.rs:47 | `line.starts_with("# ")`: the line is at least two characters long, its first is `#` and its second a space. |
| `Markdown.IsH2` | src/main.rs:54 | `line.starts_with("## ")`: the line is at least three characters long and begins `#`, `#`, space. |
| `Markdown.IsH3` | src/main.rs:61 | `line.starts_with("###")`: the line is at least three characters long and begins with three `#`. No space is needed, so `####` lines count too. |
| `Markdown.IsWhitespace` | src/bin/signle-line-generator.rs:46 | `char::is_whitespace`: tab, line feed, vertical tab, form feed, carriage return, space, no-break space and ideographic space are whitespace, and no visible ASCII character (`'!'` to `'~'`) is. |
| `Markdown.TrimStart` | src/bin/signle-line-generator.rs:46 | `trim_start` returns a suffix of the line. Everything it drops is whitespace, and what it keeps is empty or starts with a non-whitespace character. |
| `Markdown.TrimEnd` | src/bin/signle-line-generator.rs:46 | `trim_end` returns a prefix of the line. Everything it drops is whitespace, and what it keeps is empty or ends with a non-whitespace character. |
| `Markdown.BlankIffTrimEmpty` | src/bin/signle-line-generator.rs:46 | `line.trim().is_empty()` holds exactly when every character of the line is whitespace (`IsBlank`). |
| `Markdown.HeadingKinds` | src/main.rs:47-61 | The three prefixes `"# "`, `"## "` and `"###"` exclude one another, so the order of the `if`/`else if` tests does not matter. No heading-prefixed line is blank. |
| `Markdown.LastIndexWhereIsLast` | src/main.rs:46-73 | No line after the found index has the property: the found heading is the nearest one. |
| `Markdown.LastIndexWhereStep` | src/main.rs:46-73 | Reading one more line moves the nearest matching index to that line exactly when the line matches. |
| `Markdown.InH2SectionStep` | src/bin/signle-line-generator.rs:49-60 | The `copy` flag after a line: for a heading-prefixed line it is whether the line is `"## "`; for any other line it is unchanged. |
| `Markdown.H2LinesStep` | src/main.rs:54 | The set of `"## "` line indices grows by the new index exactly when the new line starts with `"## "`. |
| `Markdown.H2CountStep` | src/main.rs:54 | The number of `"## "` lines grows by one exactly on a `"## "` line. |
| `Markdown.FilterNonEmpty` | src/bin/signle-line-generator.rs:50 | A filter is non-empty exactly when some element satisfies the predicate. This is the `!temp_text.is_empty()` test. |
| `Markdown.FilterInContextStep` | src/main.rs:46-73 | A one-pass filter that judges each line by the lines before it extends by the new line exactly when that line is accepted. |
| `Markdown.KeptIndicesPick` | src/main.rs:46-73 | The indices of the accepted lines are strictly increasing and pick the filtered lines out of the input. An index is among them exactly when that line is accepted. |
| `Markdown.FilterInContextIsSubsequence` | src/main.rs:46-73 | A one-pass filter's output is a subsequence of its input, in order. |
| `Markdown.OutputFileName` | src/main.rs:79-83 | The output name is the input's stem, then the tag, then the timestamp, then `.md`. The ensures give each part's position. |
| `Markdown.OutputFileNameInjective` | src/bin/signle-line-generator.rs:69-73 | For one tag and 14-digit `%Y%m%d%H%M%S` timestamps, two output names are equal only when their stems and their timestamps are equal. Inputs that share a stem, processed in the same second, therefore get the same name. |
| `QuizGenerator.AfterH2Step` | src/main.rs:47-60 | `previous_was_h2` after a line: for `"# "`/`"## "` it is whether the line is `"## "`; for any other line it is unchanged. |
| `QuizGenerator.EmittedStep` | src/main.rs:46-73 | The output so far grows by exactly the current line's unit. |
| `QuizGenerator.UnitByPrefix` | src/main.rs:47-65 | A line's unit, branch by branch. A `"# "`/`"## "` line gives the separator if the last such heading was `"## "`, then the line itself. A `"###"` line gives nothing. Any other line is copied exactly when a level-2 section is open. |
| `QuizGenerator.ExtractQuiz` | src/main.rs:42-77 | The loop, lookahead included, returns `Quiz(lines)`. That is: every line's unit in order, then the closing separator when the input ends after a `"## "` section. |
| `QuizGenerator.Step` | src/main.rs:47-65 | One iteration without the lookahead only appends to the output: at most a separator and the line, ending with the line. It keeps "`copy` implies `previous_was_h2`". |
| `QuizGenerator.Scan` | src/main.rs:46-66 | The loop without the lookahead emits at most two units per line, and `copy` is never set while `previous_was_h2` is clear. |
| `QuizGenerator.ScanTracksFlags` | src/main.rs:46-66 | Without the lookahead, the loop state after n lines is: the output so far, `previous_was_h2` equal to "the nearest `"# "`/`"## "` is `"## "`", and `copy` equal to "the nearest heading-prefixed line is `"## "`". |
| `QuizGenerator.LookaheadIsRedundant` | src/main.rs:67-72 | The loop with lines 67-72 removed produces exactly the same output. |
| `QuizGenerator.SeparatorIsLevel3` | src/main.rs:49 | The separator unit itself starts with `"###"` and not with `"# "` or `"## "`. |
| `QuizGenerator.UnitShape` | src/main.rs:47-65 | A line's unit is empty, the line, or the separator followed by the line. The separator appears only before a `"# "`/`"## "` heading. A kept line never starts with `"###"`. |
| `QuizGenerator.HeadingsPreservedUpTo` | src/main.rs:47-58 | Up to any point, the `"# "`/`"## "` lines of the output equal those of the input read so far. |
| `QuizGenerator.QuizHeadingsPreserved` | src/main.rs:47-58 | Every `"# "`/`"## "` input line appears in the output exactly once, in input order, and no other such line appears. |
| `QuizGenerator.UnitSeparatorCount` | src/main.rs:48-59 | A line's unit holds one separator exactly when it is a `"# "`/`"## "` heading after a `"## "` section. |
| `QuizGenerator.SeparatorCountUpTo` | src/main.rs:48-59 | Up to any point, the separators emitted plus the one still pending equal the number of `"## "` lines read. |
| `QuizGenerator.QuizSeparatorCount` | src/main.rs:48-77 | The output holds exactly as many separators as the input has `"## "` lines. |
| `QuizGenerator.SelectedUpTo` | src/main.rs:51-64 | Up to any point, the non-separator output equals the input lines accepted by `Kept`. |
| `QuizGenerator.QuizSelectsInputLines` | src/main.rs:44-64 | With the separators removed, the output is exactly the input lines that are `"# "`/`"## "` headings or body lines of an open level-2 section, in input order. It is therefore a subsequence of the input. Lines before the first heading are dropped. |
| `QuizGenerator.UnitsFromInput` | src/main.rs:61-64 | Up to any point, every output element is the separator or an input line that does not start with `"###"`. |
| `QuizGenerator.SeparatorsUpTo` | src/main.rs:48-59 | Up to any point, the output does not end with a separator, and each separator in it is followed by a `"# "`/`"## "` heading. |
| `QuizGenerator.QuizDropsLevel3` | src/main.rs:61-62 | No input line starting with `"###"` is ever written. Every output element is the separator or an input line. |
| `QuizGenerator.QuizSeparatorPlacement` | src/main.rs:75-77 | Each separator is followed by a `"# "`/`"## "` heading or ends the output. The output ends with a separator exactly when the last `"# "`/`"## "` heading of the input is `"## "`. |
| `SingleLineGenerator.FileNamesDiffer` | src/bin/signle-line-generator.rs:69-73 | For 14-digit timestamps, a `{stem}_processed_{ts}.md` name never equals a `{stem}_quiz_{ts}.md` name, whatever the stems and times: the two programs never overwrite each other's output. |
| `SingleLineGenerator.Join` | src/bin/signle-line-generator.rs:51 | `temp_text.join(" ")` starts with the first collected line. |
| `SingleLineGenerator.JoinSnoc` | src/bin/signle-line-generator.rs:51 | Joining one more part appends the separator and then that part, so the separator sits exactly between neighbouring parts. |
| `SingleLineGenerator.JoinLength` | src/bin/signle-line-generator.rs:51 | A join's length is the summed length of the parts plus one separator per gap. |
| `SingleLineGenerator.JoinNotBlank` | src/bin/signle-line-generator.rs:66 | A join whose first part is not blank is not blank. |
| `SingleLineGenerator.OpenBodyStep` | src/bin/signle-line-generator.rs:45-63 | `temp_text` after a line: emptied by a heading-prefixed line, extended by a content line inside a level-2 section, and otherwise unchanged. Blank lines leave it unchanged. |
| `SingleLineGenerator.OpenBodyEmpty` | src/bin/signle-line-generator.rs:42-60 | `temp_text` is empty whenever `copy` is false, and right after any heading-prefixed line. |
| `SingleLineGenerator.ClosedBlocksStep` | src/bin/signle-line-generator.rs:49-60 | A heading-prefixed line flushes the open body when it is non-empty. No other line flushes anything. |
| `SingleLineGenerator.RenderStep` | src/bin/signle-line-generator.rs:50-58 | The written lines grow by the joined open body exactly when a heading-prefixed line meets a non-empty body. |
| `SingleLineGenerator.RenderAppend` | src/bin/signle-line-generator.rs:51 | Adding a block adds its joined line to the output, and its lines to the flattened blocks. |
| `SingleLineGenerator.ExtractSingleLines` | src/bin/signle-line-generator.rs:41-67 | The loop, final flush included, returns one joined line per block of `Blocks(lines)`, in order. |
| `SingleLineGenerator.OpenBodyIsContent` | src/bin/signle-line-generator.rs:61-62 | The open body holds only lines that are neither blank nor heading-prefixed. |
| `SingleLineGenerator.ClosedBlocksHoldContent` | src/bin/signle-line-generator.rs:50-58 | Every flushed block is non-empty and holds only content lines. |
| `SingleLineGenerator.BlocksHoldContent` | src/bin/signle-line-generator.rs:46-66 | No empty block is ever written. Whitespace-only and heading-prefixed lines never enter any block. |
| `SingleLineGenerator.RenderAt` | src/bin/signle-line-generator.rs:51 | Rendering gives one line per block, the k-th being the space-join of the k-th block. |
| `SingleLineGenerator.OutputLinesNotBlank` | src/bin/signle-line-generator.rs:65-67 | The output has one line per block. Each is the space-join of its block's lines, and none is blank. |
| `SingleLineGenerator.FlattenUpTo` | src/bin/signle-line-generator.rs:45-64 | Up to any point, the flushed blocks followed by the open body are exactly the content lines read inside level-2 sections. |
| `SingleLineGenerator.BlocksFlatten` | src/bin/signle-line-generator.rs:61-67 | The blocks, read in order, are exactly the input lines that are not blank, not heading-prefixed and whose nearest heading-prefixed line above is `"## "`. The final flush loses nothing, and the result is a subsequence of the input in source order. |
| `SingleLineGenerator.ContentAfterHeading` | src/bin/signle-line-generator.rs:61-62 | A `"## "` line followed by a content line, with no heading between, has content. |
| `SingleLineGenerator.OpenBodyFromContent` | src/bin/signle-line-generator.rs:61-62 | If the open `"## "` section has a content line, `temp_text` is not empty. |
| `SingleLineGenerator.ContentFromOpenBody` | src/bin/signle-line-generator.rs:61-62 | If `temp_text` is not empty, the open `"## "` section has a content line. |
| `SingleLineGenerator.OpenBodyNonEmpty` | src/bin/signle-line-generator.rs:50 | `!temp_text.is_empty()` holds exactly when the open `"## "` section has content. |
| `SingleLineGenerator.SectionKeepsContent` | src/bin/signle-line-generator.rs:45-64 | A section that has content keeps it as more lines are read. |
| `SingleLineGenerator.SectionGainsContent` | src/bin/signle-line-generator.rs:61-62 | An accumulated line gives the open section content. |
| `SingleLineGenerator.SectionContentSource` | src/bin/signle-line-generator.rs:61-62 | A section gains content only from an accumulated line, and only while it is the open one. |
| `SingleLineGenerator.SectionStepAt` | src/bin/signle-line-generator.rs:45-64 | An earlier `"## "` line has content after the next line exactly when it had content before, or it is the open section and the next line is accumulated. |
| `SingleLineGenerator.SectionsStep` | src/bin/signle-line-generator.rs:45-64 | The set of `"## "` lines with content grows by the open section's heading exactly on an accumulated line. |
| `SingleLineGenerator.CountUpTo` | src/bin/signle-line-generator.rs:55-64 | Up to any point, the flushed blocks plus the non-empty open body number the `"## "` lines with content. |
| `SingleLineGenerator.BlockCount` | src/bin/signle-line-generator.rs:55-67 | There is one block per `"## "` line whose section has a non-blank, non-heading line before the next heading-prefixed line, so never more blocks than `"## "` lines. |

## Left out

- The native file dialog, `print_instructions` and every console message
  (`src/main.rs:7-22`, `src/main.rs:103-120` and the same in the
  single-line generator). They are user interface only.
- Opening and reading the input file. The model starts from the lines
  already decoded. `reader.lines().filter_map(Result::ok)` silently drops
  lines that fail to read, and this is not modelled.
- Reading the clock (`chrono::Local::now()`). The timestamp is a parameter
  of `OutputFileName`, assumed to be the 14 digits `%Y%m%d%H%M%S` gives.
- `Path::file_stem` and `Path::with_file_name`. The stem is a parameter,
  and the choice of directory is not modelled.
- Creating and writing the output file. Each element of the result is one
  `writeln!` call, so the newline after it is not modelled. Write errors,
  which stop the program part way, are not modelled either.
- `Markdown.IsWhitespace` lists the Unicode White_Space characters that
  Rust's `char::is_whitespace` accepts. `Trim` removes them from both ends
  of a line, as `str::trim` does. No other Unicode behaviour is involved.
- `SingleLineGenerator.Join` states only that the result starts with the
  first part. `JoinSnoc` states what goes between parts (one `sep` between
  each pair of neighbours) and `JoinLength` how many characters that adds;
  splitting it back is not modelled, because a part may itself contain
  `" "`.
