# csv2sfz expansion engine in Dafny

This project models the core of csv2sfz. csv2sfz turns an annotated CSV sample sheet into the
text of an SFZ instrument file. The model covers these steps:

- **Directive row.** The first record of the sheet is the directive row. Each cell is either
  an opcode name or a directive: `@raw`, `@sample(key)` or `@header`. Reading this row gives
  every column its output key and records which column plays each role (`create_indices`,
  `parse_annotation`).
- **Sheets.** The data rows are cut into sheets. A new sheet starts wherever the `@header`
  column is filled (`creat_header_ranges`).
- **Expansion.** Within a sheet, each row's sample cell is a glob pattern. The pattern is
  matched against the list of sample paths, and the row unfolds into one row per matched path.
  - The unfolded rows are merged into a table keyed by sample path. A later row's non-empty
    cell overrides the stored cell (`expand_sheet`, `matching_paths`, `merge_row`,
    `insert_row`).
  - `${expr}` templates in the cells are evaluated with the variables taken from the sample's
    file name (`apply_expr`, `parse_sample_name`, `parse_opcode`).
  - A comment marker `//` or a quote pair in the first row's sample cell chooses how the matched
    path is written back (`trim_comment_prefix`, `trim_pair`).
  - The expanded sheets are concatenated in sheet order (`expand_sample_csv`).
- **SFZ text.** The rows are written out as one line each: `key=value ` for ordinary keys, and
  the bare `value ` for keys starting with `__` (`generate_sfz_file`).

## Files

- `wrappers.dfy`: `Option` and `Result`.
- `text.dfy`: the string functions the source borrows from the Rust standard library. These are
  `trim_start`, `trim`, `split` and `starts_with`, the decimal rendering of indices, and the
  fact that `split` and `join` are inverse.
- `ordered_map.dfy`: `IndexMap` as an insertion-ordered map. It holds a list of keys and a map.
- `sample_name.dfy`: `parse_opcode` and `parse_sample_name`, written as scanners over ASCII
  letters and digits.
- `annotation.dfy`: `parse_annotation` and `create_indices`.
- `segmentation.dfy`: `creat_header_ranges`.
- `template.dfy`: the `${…}` scanner of `apply_expr`.
- `paths.dfy`: `trim_pair`, `trim_comment_prefix`, the policy for writing paths back,
  `matching_paths`.
- `expansion.dfy`: `insert_row`, `merge_row` and `expand_sheet`, with the override law and the
  one-row-per-path theorem.
- `sample_csv.dfy`: the `SampleCSV` record as a class, `parse_sample_csv` over records already
  read, `expand_sample_csv`, and the text built by `generate_sfz_file`.

Three engines are parameters of the model, not code in it:

- The expression engine is `Evaluator = (string, Vars) -> Option<string>`. It gives the text of
  an evaluated expression, or `None` when parsing or evaluation fails.
- The glob engine is `Glob(compiles, isMatch)`.
- The list of sample paths and the variables of each sample path are plain inputs.

## Model

| member | source | states |
|---|---|---|
| SampleNames.ParseOpcodeIff | src/lib.rs:157-162 | a token parses into `(name, value)` exactly when it is `name + value`, with `name` a non-empty run of ASCII letters and `value` an optional `-`, at least one digit, and then an optional `.` followed by digits |
| SampleNames.MatchesNumberIff | src/lib.rs:159 | the scanner for the number part accepts exactly the texts `-?\d+\.?\d*` |
| SampleNames.ParseOpcode | src/lib.rs:157-162 | a parsed token is its name followed by its value; the name is a non-empty run of ASCII letters and the value a number text |
| SampleNames.SampleNameVariables | src/lib.rs:164-174 | a file stem defines variable `name` exactly when one of its `_`-separated tokens parses with that name. The value is a number text, and the name followed by the value is one of the tokens. It is the value of the LAST such token: no later token parses with the same name |
| SampleNames.ParseSampleName | src/lib.rs:164-174 | every variable of the map comes from a token of the stem that parses into exactly that name and value |
| SampleNames.VariablesFromTokens | src/lib.rs:165-173 | every entry collected from a token list is the parse of one of the tokens |
| SampleNames.OpcodesSound | src/lib.rs:165-172 | every collected pair comes from some token of the stem |
| SampleNames.OpcodesComplete | src/lib.rs:165-172 | every non-empty token that parses contributes its pair |
| SampleNames.OpcodesAppend | src/lib.rs:165-172 | the pairs of two token runs are the pairs of the first run followed by those of the second |
| SampleNameExamples.AcceptedKey | src/lib.rs:600 | `kEy60` gives `("kEy", "60")` |
| SampleNameExamples.AcceptedPi | src/lib.rs:603 | `pi3.14` gives `("pi", "3.14")` |
| SampleNameExamples.AcceptedTrailingDot | src/lib.rs:604 | `zdot0.` gives `("zdot", "0.")` |
| SampleNameExamples.RejectedSymbols | src/lib.rs:601-602 | `$0m@`, `(#)*` and `.str99` are rejected |
| SampleNameExamples.RejectedLeadingDot | src/lib.rs:605-606 | `dotz.0` is rejected |
| SampleNameExamples.RejectedTwoDots | src/lib.rs:607 | `ddd1.2.3` is rejected |
| SampleNameExamples.TestStemSplits | src/lib.rs:597 | the stem of the unit test splits back into its eight tokens |
| SampleNameExamples.TestTokenOpcodes | src/lib.rs:597-607 | the unit test's tokens yield exactly the pairs `kEy=60`, `pi=3.14` and `zdot=0.`, in that order |
| SampleNameExamples.ValuesOfThreePairs | src/lib.rs:173 | collecting those pairs gives the map `kEy→60, pi→3.14, zdot→0.` |
| SampleNameExamples.SampleNameExample | src/lib.rs:596-608 | `parse_sample_name` of the test stem is the map `kEy→60, pi→3.14, zdot→0.`, so `str`, `.str`, `dotz`, `dotz.` and `ddd` are absent |
| Annotations.SplitAnnotationComplete | src/lib.rs:177-197 | `@name` and `@name(args)` are recognised when the name is an identifier and the argument text holds no line feed (it may hold `)`: the argument text runs to the final `)`), and the name and argument text are recovered |
| Annotations.SplitAnnotationSound | src/lib.rs:178-184 | a recognised cell is exactly `@name` or `@name(args)`, with an identifier name and an argument text without a line feed |
| Annotations.ParseAnnotation | src/lib.rs:176-197 | a cell parses exactly when it is recognised as a directive; the first element is then the directive's name, and that name is an identifier |
| Annotations.ParseRendered | src/lib.rs:186-196 | round trip: rendering `@name(a1,…,an)` from an identifier and non-empty, trimmed arguments without `,` or line feed, and parsing it, gives back `[name, a1, …, an]` |
| Annotations.TrimmedArgs | src/lib.rs:189-192 | no argument left after trimming is empty |
| Annotations.TrimmedArgsAppend | src/lib.rs:189-192 | trimming and dropping empty arguments distributes over concatenation of argument lists |
| Annotations.TrimmedArgsOne | src/lib.rs:190-191 | one argument is kept trimmed when its trimmed text is not empty, and dropped otherwise |
| Annotations.IdentRunOfIdentPrefix | src/lib.rs:179 | the identifier scanner stops exactly at the end of an identifier prefix |
| Annotations.ColumnKeyOfDirective | src/lib.rs:247-265 | the output key of a directive column: `@raw` at column i gives `__raw_i`; `@sample` gives its first argument, or `sample` when there is none; `@header` gives `__header`; any other directive keeps the cell text. The role is recorded only for `raw`, `sample` and `header` |
| Annotations.ColumnKeyOfPlainCell | src/lib.rs:247-265 | a cell that is not a directive (the directive pattern does not recognise it) is its own key and has no role |
| Annotations.PlainTextNoDirective | src/lib.rs:179 | a cell that does not start with `@` is never recognised as a directive |
| AnnotationExamples.ExampleMalformedDirectives | src/lib.rs:247-265 | `@9x`, `@a b` and `@raw(x` start with `@` but are not directives: each is its own key and has no role |
| Annotations.RawKeysDistinct | src/lib.rs:251-254 | two `@raw` columns at different positions get different keys |
| Annotations.CreateIndices | src/lib.rs:242-271 | the key map is the column pairs collected in column order, and the role map records each role's last column |
| Annotations.ColumnIndexMeaning | src/lib.rs:247-270 | the key list is the column keys in order of first occurrence, and each key maps to the last column that produces it |
| Annotations.RoleIndicesDomain | src/lib.rs:252-261 | a role is recorded exactly when some column carries it |
| Annotations.RoleIndicesLastWins | src/lib.rs:252-261 | a recorded role points to a column that carries it, and no later column carries it |
| Annotations.LastIndexLastWins | src/lib.rs:252-261 | the last-write map points at the last tag with each value |
| Annotations.LastIndexDomain | src/lib.rs:252-261 | the last-write map holds exactly the tags that occur |
| AnnotationExamples.ExampleRawColumn | src/lib.rs:612-620 | `@raw` at column 0 gives key `__raw_0` and role `raw` |
| AnnotationExamples.ExampleSampleColumn | src/lib.rs:612-621 | `@sample(path)` at column 1 gives key `path` and role `sample` |
| AnnotationExamples.CreateIndicesExample | src/lib.rs:611-624 | the test's directive row gives keys `__raw_0→0` and `path→1`, and roles `raw→0` and `sample→1` |
| OrderedMaps.FromPairsKeys | src/lib.rs:247-270 | `collect` into an `IndexMap` lists each key once, at the position where it first occurs |
| OrderedMaps.FromPairsLastWins | src/lib.rs:247-270 | `collect` into an `IndexMap` holds exactly the keys of the pairs, each with the value of its last pair |
| OrderedMaps.LastPair | src/lib.rs:173 | for each key collected there is a pair with that key and its stored value, and no later pair has that key |
| OrderedMaps.OrderedMap.Put | src/lib.rs:526-533 | inserting keeps the keys distinct; a new key goes last, and an existing key keeps its position and takes the new value |
| Segmentation.CreatHeaderRanges | src/lib.rs:273-288 | the ranges cover the rows in order without gaps or overlap, none is empty, and a new range starts exactly at each later row whose header cell is filled |
| Segmentation.PartitionUnique | src/lib.rs:273-288 | those two properties determine the ranges |
| Segmentation.ConcatPartition | src/lib.rs:273-288 | concatenating the ranges' rows gives back the data rows |
| Segmentation.HeaderRangesExample | src/lib.rs:627-638 | the unit test's rows give `[0..2, 2..3]` |
| Templates.MatchEnd | src/lib.rs:291 | the end found for a template at the front of the cell is a real `${X}` with non-empty `X` holding no `}`; when none is found, there is none |
| Templates.RenderTokenize | src/lib.rs:290-306 | scanning the cell loses nothing: the literals and spans render back to the cell |
| Templates.TemplateFreeIff | src/lib.rs:291-293 | a cell has no `${X}` exactly when it scans to literals only |
| Templates.NoTemplateUnchanged | src/lib.rs:290-306 | a cell without a template is returned unchanged |
| Templates.ApplyExpr | src/lib.rs:290-306 | a cell that scans to literals only comes back unchanged |
| Templates.NoContextClearsSpans | src/lib.rs:296 | without a context every span becomes `""`, as if every evaluation failed |
| Templates.TextBeforeTemplateKept | src/lib.rs:292-304 | text in which no template starts (a `$` there may still occur) is kept as it is, and the rest of the cell is processed as if alone |
| Templates.TemplateAtFront | src/lib.rs:294-302 | a template at the front becomes the evaluator's text, or `""` on failure, and the scan goes on after it |
| TemplateExamples.ApplyExprExample | src/lib.rs:696-707 | `This is ${v/l*127}.` becomes `This is ` + the evaluated text + `.` |
| TemplateExamples.OneTemplate | src/lib.rs:290-306 | a cell made of text in which no template starts, one template, and a template-free tail: the text and tail are kept and only the span is replaced |
| TemplateExamples.DollarKept | src/lib.rs:291 | in `$5 ${x}` the `$` not followed by `{` is kept and only `${x}` is replaced |
| PathRules.TrimPair | src/lib.rs:443-449 | a quoted text gives its inside; any other text gives `None`; a lone `"` fails (the slice `[1..0]` panics) |
| PathRules.TrimPairOfQuoted | src/lib.rs:443-449 | quoting and `trim_pair` are inverse |
| PathRules.StripSlashes | src/lib.rs:454 | every leading `//` is removed, and the result does not start with `//` |
| PathRules.TrimCommentPrefix | src/lib.rs:451-455 | the result is defined exactly for cells starting with `//`; it is a suffix of the cell, the removed prefix is slashes and whitespace, and the result does not start with whitespace |
| PathRules.TrimCommentOfMarked | src/lib.rs:451-455 | `//` followed by text that starts with neither `/` nor whitespace gives that text |
| PathRules.PatternBase | src/lib.rs:514-515 | the text the quote test looks at: the comment-stripped cell when the cell starts with `//`, the cell otherwise; always a suffix of the cell |
| PathRules.RowPattern | src/lib.rs:513-517 | the glob pattern differs from the cell only when the cell is quoted or starts with `//` |
| PathRules.PatternOfQuoted | src/lib.rs:513-517 | with `base` the cell after the comment prefix is removed (or the cell itself), a quoted `base` gives the text between its quotes, and a `base` that is a lone `"` fails |
| PathRules.PatternOfCommentedPlain | src/lib.rs:513-517 | when `base` is not quoted the pattern is the whole cell, so an unquoted cell behind `//` keeps the `//` in its pattern |
| PathRules.QuotedPatternReadsBack | src/lib.rs:513-517 | `"x"` and `//"x"` both give the pattern `x` |
| PathRules.ChoosePolicy | src/lib.rs:494-504 | a first sample cell starting with `//` chooses clearing; otherwise a quoted one chooses quoting, a lone `"` fails, and any other cell chooses passing the path through; each choice holds exactly under its condition |
| PathRules.RenderPath | src/lib.rs:491-493 | the pass policy keeps the path, the clear policy gives `""`, and the quote policy gives a quoted text whose inside is the path |
| PathRules.RenderedPathReadsBack | src/lib.rs:494-504 | a path written back in quotes reads back as the quote policy and as its own pattern; a plain path reads back as the pass policy and as itself |
| PathRules.MatchingPaths | src/lib.rs:464-481 | the table keeps its keys distinct; each key is a sample path the pattern selects, stored with a copy of the row whose sample cell is the rendered path |
| PathRules.MatchingPathsMeaning | src/lib.rs:464-481 | the unfolded rows are keyed by exactly the sample paths the pattern selects; each is a copy of the row whose sample cell holds the rendered path |
| Expansion.InsertRow | src/lib.rs:433-441 | the stored row is the new row with every cell evaluated, but only when the path has variables |
| Expansion.MergeRow | src/lib.rs:414-431 | each cell of the stored row is overwritten by the evaluated new cell when that is not empty, and cells past the shorter row are left alone |
| Expansion.AbsorbAllEffect | src/lib.rs:523-535 | absorbing one row's unfolding into the table: the table gains exactly the new paths; a new path stores the evaluated row, an old one the merged row, and other paths are untouched |
| Expansion.AbsorbRows | src/lib.rs:523-535 | the loop over one row's unfolding updates the table as the fold does |
| Expansion.UnfoldMeaning | src/lib.rs:511-521 | a row that unfolds has a readable pattern that compiles, and unfolds onto exactly the paths its pattern selects |
| Expansion.UnfoldBadGlob | src/lib.rs:513-520 | a row that fails with a bad pattern has that pattern as its readable pattern, and it does not compile |
| Expansion.CollectFirstFailure | src/lib.rs:523 | `try_reduce` fails with the failure of a failing row; of the rows that fail, the model reports the first in row order (rayon may report any of them) |
| Expansion.CollectAllOk | src/lib.rs:523 | when every row succeeds, `try_reduce` proceeds with every row's value, in row order |
| Expansion.CollectFailure | src/lib.rs:523 | when `try_reduce` fails, its failure is that of some row, and every row before it succeeded |
| Expansion.ExpandSheet | src/lib.rs:483-540 | `expand_sheet` is the table function of the sheet: the sheet is passed through when there is no sample column, no row, or an empty first sample cell; a bad pattern or a lone `"` fails; otherwise it is the table's rows |
| Expansion.ExpandSheetOutcome | src/lib.rs:483-540 | the sheet is passed through unchanged when there is no sample column, no row, or an empty first sample cell; a first sample cell that is a lone `"` fails; a bad-pattern failure names the readable pattern of some row, and that pattern does not compile |
| Expansion.ExpandRows | src/lib.rs:509-538 | the map and reduce stages give the rows of the table, or a row's failure (in the model, the first in row order) |
| Expansion.ExpandRowsOutcome | src/lib.rs:510-534 | the map and reduce stages succeed exactly when every row unfolds; on failure, the error is that of a row that does not unfold, and in the model the first such row |
| Expansion.ExpandRowsBadGlob | src/lib.rs:513-520 | a bad-pattern failure of the sheet names the readable pattern of one of its rows, and that pattern does not compile |
| Expansion.ReduceKeys | src/lib.rs:523-535 | the table holds exactly the paths some unfolded row holds |
| Expansion.ReduceCells | src/lib.rs:523-535 | the override law: each cell of a path's stored row is the last non-empty evaluated cell among the unfolded rows for that path, or `""`; every stored row keeps the sheet's width |
| Expansion.ExpandedRows | src/lib.rs:483-540 | for a sheet of uniform width, the expanded rows are one row per distinct sample path that some row's pattern selects. Each row keeps the sheet's width, and each cell is the last non-empty evaluated cell among the rows that unfold onto that path |
| Expansion.TableRows | src/lib.rs:509-537 | the same facts, stated for the table built from the unfolded rows |
| Expansion.ExpandedSampleCell | src/lib.rs:497-503 | each expanded row's sample cell is its own path, rendered by the policy and then evaluated |
| Expansion.ExpandedSamplePath | src/lib.rs:497-503 | when the rendered path has no template, the sample cell is exactly the rendered path |
| Expansion.LastNonEmptyOfConstant | src/lib.rs:527-529 | merging copies of one text leaves that text |
| SampleCsvs.ParseSampleCsv | src/lib.rs:207-240 | no first record is `CSVOpcode`; a missing `@header` column is `CSVHeader`. Otherwise the key and role maps are those of the first record, the rows are the later records of its width, and the ranges partition the rows at the filled header cells |
| SampleCsvs.SameWidth | src/lib.rs:224-228 | the kept records are exactly the records of the directive row's width, in order |
| SampleCsvs.SameWidthAppend | src/lib.rs:224-228 | keeping the records of one width distributes over concatenation of record runs |
| SampleCsvs.SameWidthOne | src/lib.rs:224-228 | a single record is kept exactly when it has the width |
| SampleCsvs.SampleCsv.ExpandSampleCsv | src/lib.rs:542-563 | on success the rows become the expanded sheets concatenated in range order; on failure they are left as they were. The key map, role map and ranges never change |
| SampleCsvs.SheetsPassThrough | src/lib.rs:542-563 | when every sheet passes through, expansion gives back the rows |
| SampleCsvs.NoSampleColumn | src/lib.rs:489-508 | without a `@sample` column, expansion leaves the rows as they are |
| SampleCsvs.SampleCsv.GenerateSfz | src/lib.rs:565-584 | the nested loop builds the SFZ text of the rows |
| SampleCsvs.RowLine | src/lib.rs:569-582 | one row's entries in key order. An unnamed key, a missing cell or an empty cell is skipped; a `__` key writes `value `, and any other key writes `key=value ` |
| SampleCsvs.Line | src/lib.rs:567-582 | a row's line is empty exactly when every key writes nothing, and a non-empty line ends with a space |
| SampleCsvs.SfzTextAppend | src/lib.rs:566-584 | the text of two runs of rows is the concatenation of their texts |
| SampleCsvs.SfzTextJoin | src/lib.rs:566-584 | the text is the rows' lines, in row order, each ended by a line feed |
| SampleCsvs.SfzText | src/lib.rs:565-584 | the text is empty exactly when there are no rows, and otherwise ends with a line feed |
| SampleCsvs.SfzReadBack | src/lib.rs:566-584 | when no key and no cell holds a line feed, splitting the text at line feeds gives exactly one line per row, in row order, then an empty rest |
| Text.SplitJoin | src/lib.rs:165 | splitting joined parts that hold no separator gives back the parts |
| Text.JoinSplit | src/lib.rs:165 | joining the parts of a split gives back the text |

## Left out

- **FFI and command line.** `generate_sfz`, `try_get_dir_path`, the mapping of failures to the
  codes -1 to -5, and `cli/src/main.rs` are not part of this model.
  - Building the variables of each sample from its file stem is covered by `ParseSampleName`.
    The model takes the resulting map, and the list of sample paths, as inputs.
- **Directory traversal.** `traverse_directory` is file-system I/O and is not part of this model.
- **CSV reading.** `ParseSampleCsv` starts from the records the reader yields.
  - The reader rejects a record whose number of fields differs from the first record's, and the
    source drops rejected records. `SameWidth` models exactly that; other read errors are not
    modelled.
  - A first record that cannot be read is treated like a missing first record.
- **File writing.** `generate_sfz_file` writes a file; the model produces the string only.
- **Expression engine.** Parsing and evaluation by mexprp, the `math_expr` functions and the
  `f64` parsing of variable values in `map_to_ctx` are floating-point work in a foreign library.
  They sit behind the `Evaluator` parameter.
- **Glob engine.** globset compiling and matching are the `Glob` parameter.
- **Parallelism.** rayon's `par_iter` and `try_reduce` are modelled as a sequential fold.
  - Which failure is reported. When several rows of a sheet fail (src/lib.rs:510-534), or
    several sheets fail (src/lib.rs:549-560), rayon does not specify which failure `try_reduce`
    returns: its parallel splits stop early once one of them fails, so the failure of any
    failing row or sheet may come back. The model always reports the first failure in row
    order, and in range order for sheets. That is one of the outcomes the source allows;
    `CollectFirstFailure`, `CollectFailure`, `ExpandRowsOutcome` and `ExpandSampleCsv` state
    that choice, not a promise of the source. Whether the result is a success or a failure is
    the same in the model and the source.
  - In the source, the table is a `HashMap` and its `into_values` order is unspecified. The
    model lists the rows in the order their paths first entered the table. `ExpandedRows`
    states the content of the rows, and that each path appears once, but not their order.
  - rayon's reduction tree also combines tables that were already reduced
    (src/lib.rs:523-535). There, the closure runs `merge_row` or `insert_row` again on rows
    that are already stored, so `apply_expr` evaluates again cells it has already evaluated.
    The model's fold passes each unfolded row through `merge_row`/`insert_row` exactly once. It
    therefore does not capture this repeated evaluation, nor the results that depend on how
    rayon splits the rows (the model agrees with the source when every evaluated cell
    evaluates to itself, for example when no cell holds a template).
- **Regular expressions.** `parse_opcode` and `parse_annotation` are ASCII scanners. Rust's `\d`
  also accepts other Unicode decimal digits; that is not modelled.
- **Panics.** The lone-`"` slice panic in `trim_pair` is the failure `Panic`, and it fails the
  sheet. Indexing past a row (`row[header_idx]`, `row[sample_idx]`) cannot happen in the model:
  every row has the directive row's width.
- **Header ranges after expansion.** `expand_sample_csv` does not update `header_ranges` after
  replacing the rows. The model keeps that, so `ExpandSampleCsv` does not re-establish `Valid()`.
  `GenerateSfz` needs only a well-formed key map.
- **Source notes.**
  - The unit test at src/lib.rs:620 looks up `_raw_0`, but the code builds `__raw_0`
    (src/lib.rs:255). The model follows the code (`ExampleRawColumn`).
  - With no variables for a path, `insert_row` and `merge_row` leave its cells untouched. Only
    `apply_expr` itself, given no context, clears the spans (`NoContextClearsSpans`).
  - The `@header` column gets the key `__header`, so its value is written bare.
