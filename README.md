# csvpsql schema inference, modelled in Dafny

`csvpsql` reads a CSV file and prints a Postgres `create table` statement
for it. Every field is classified as a column type (`Unknown < Boolean <
Integer < Numeric < Date < Timestamp < Text`) and as nullable or not null
(`Nullable < NotNull`). Each column keeps the widest type and constraint
seen in its fields. A column that never saw a non-empty field becomes
`text`. Columns are named from the `--columns` option, from the header, or
`a`..`z`. The table is named by `--table-name` or by the file stem.

The model covers the core of `src/lib.rs`:

- `text.dfy` (`Text`): ASCII lower-casing, `str::split` with its inverse
  `Join`, and the UTF-8 byte length `String::len`.
- `schema.dfy` (`Schema`): the two ordered enumerations, `Column`, `Table`
  and the ways a run can fail.
- `classify.dfy` (`Classify`): `find_type`, `try_parse_date`,
  `find_constraint` and the exact syntax of `isize` parsing.
- `accumulate.dfy` (`Accumulate`): the inference loop of `run`. It is an
  imperative method over two arrays of slots (`InferColumns`, whose inner
  loop is `FoldRecord`). It is proved equal to a pure fold (`Infer`), and
  lemmas say what that fold computes.
- `names.dfy` (`Names`): `get_column_names`, `get_columns` and
  `get_table_name` with `Path::file_stem`.
- `render.dfy` (`Render`): the `Display` impls. `RenderTable` is the loop
  of `Table::fmt`. `ParseStatement` reads a statement back, to show that
  rendering loses nothing.
- `csvpsql.dfy` (`Csvpsql`): `run`, from the records the CSV reader yields
  to the printed statement (`Run`, specified by `Generate`).

Foreign code enters as parameters. Rust's `f64` parser and `dtparse::parse`
are the two function fields of `Classify.Oracles`: whether a text parses as
a float, and the time of day a text parses to. The CSV reader is replaced
by its output: the list of records, each a list of fields. The first record
is the header (with `--no-header` it is still read to count the columns).
The reader never yields a record without fields (`Csvpsql.WellFormed`).

The model follows the code where it may surprise a reader:

- The emptiness check in `run` (src/lib.rs:238) peeks through an iterator
  that is then dropped. That consumes the first data record, so it is never
  folded and its length is never checked (`Csvpsql.FoldedRecords`,
  `Csvpsql.FirstDataRecordUnread`).
- The `--columns` check (src/lib.rs:241-247) compares the option's length
  in UTF-8 bytes with the number of header fields, not the number of
  names. `a,b` is refused for a two-column file; `ab` is accepted and names
  one column, and the other column is dropped (`Csvpsql.ColumnsCheckExamples`).
- In letter mode a file with more than 26 columns gives a table of 26
  columns, with no error (`Csvpsql.LettersDropExtraColumns`).
- Header names change only the space character to `_`; other whitespace
  is kept.
- A date whose time is exactly 00:00:00 is a `date`, even when the time
  was written out.
- Each slot is replaced only when the new value is strictly greater, so
  `NotNull` is sticky.

## Model

| member | source | states |
|---|---|---|
| Text.Lower | src/lib.rs:162 | same length; no upper-case letter is left and every other character is kept; `LowerLetters` says what each upper-case letter becomes |
| Text.Split | src/lib.rs:197 | at least one piece; `JoinSplit`, `SplitPieces` and `SplitJoin` state what the pieces are |
| Text.Utf8Len | src/lib.rs:242 | the byte length lies between the character count and four times it; `Utf8LenBounds` adds equality for ASCII |
| Text.LowerCharIsLower | src/lib.rs:162 | a lower-cased character is never upper case; only upper-case letters change, each to the lower-case letter at the same place in the alphabet |
| Text.LowerLetters | src/lib.rs:162 | in a lower-cased text, each upper-case letter has become the lower-case letter at the same place in the alphabet |
| Text.JoinSplit | src/lib.rs:197 | joining the pieces of `split(',')` with `,` gives the text back |
| Text.SplitPieces | src/lib.rs:197 | no piece holds the separator; there is one more piece than separators |
| Text.SplitJoin | src/lib.rs:197 | splitting the join of separator-free pieces gives the pieces back |
| Text.Utf8LenBounds | src/lib.rs:242 | the byte length is at least the character count, and equal to it exactly for ASCII text |
| Schema.TypeRank | src/lib.rs:89-98 | ranks run from 0, only `Unknown`, to 6, only `Text`; `RanksAreTotalOrders` shows they follow declaration order |
| Schema.ConstraintRank | src/lib.rs:106-110 | rank 0 exactly for `Nullable`, 1 otherwise |
| Schema.RanksAreTotalOrders | src/lib.rs:89-110 | the derived orders are total and follow declaration order: `Unknown < Boolean < Integer < Numeric < Date < Timestamp < Text` and `Nullable < NotNull` |
| Classify.ParseIsize | src/lib.rs:166 | an accepted text is non-empty and its value fits in 64 bits; `ParseIsizeChars` and `ParseIsizeSigned` characterise acceptance in both directions |
| Classify.TryParseDate | src/lib.rs:152-159 | a date exactly when the date parser accepts; `Date` exactly for midnight, otherwise `Timestamp` |
| Classify.FindType | src/lib.rs:161-176 | Unknown exactly for the empty field, Boolean exactly for `true`/`false` in any case; `FindTypeInteger`, `FindTypeNumeric` and `FindTypeDateTime` give the later tests |
| Classify.FindConstraint | src/lib.rs:178-184 | Nullable exactly when the field equals the null sentinel |
| Classify.ParseDigitsAccepts | src/lib.rs:166 | a digit run is accepted exactly when it is non-empty and all ASCII digits |
| Classify.ParseIsizeChars | src/lib.rs:166 | an accepted integer is digits after an optional sign, within the 64-bit range |
| Classify.ParseIsizeSigned | src/lib.rs:166 | conversely, an optional `+` or `-` before any non-empty digit run, leading zeros included, is accepted exactly when its signed value is within the 64-bit range, and gives that value |
| Classify.ParseIsizeExamples | src/lib.rs:166 | `+007` is 7 and `-0` is 0, while a lone sign is refused |
| Classify.ParseIsizeIgnoresCase | src/lib.rs:162-166 | lower-casing never changes whether or how a field parses as an integer |
| Classify.NatTextValue | src/lib.rs:166 | the digits of a natural number parse back to it |
| Classify.DecimalTextRoundTrip | src/lib.rs:166 | every `isize` value parses back from its decimal text |
| Classify.FindTypeInteger | src/lib.rs:163-166 | a field is Integer exactly when it parses as an `isize` |
| Classify.IntegersClassifyAsInteger | src/lib.rs:166 | the decimal text of every `isize` value is Integer |
| Classify.PointIsNotInteger | src/lib.rs:166 | a field with a `.` is never Integer |
| Classify.FindTypeNumeric | src/lib.rs:167 | Numeric exactly when the float parser accepts a field that passed none of the earlier tests |
| Classify.FindTypeDateTime | src/lib.rs:152-175 | after the earlier tests fail: Date when the date parse gives midnight, Timestamp for any other time, Text when it fails |
| Classify.FindTypeExamples | src/lib.rs:295-302 | `true`, `false`, `TRUE` are Boolean, `0` Integer, `0.0` Numeric for a float parser that accepts it, and the empty field Unknown |
| Classify.TryParseDateExamples | src/lib.rs:304-312 | `2020-01-01` is a Date and `2020-01-01 18:30:04 +02:00` a Timestamp |
| Classify.FindConstraintExamples | src/lib.rs:178-184 | only the exact sentinel is Nullable, case-sensitively |
| Accumulate.JoinType | src/lib.rs:257-259 | the slot becomes one of the slot and the field's type, at least as wide as both: their maximum |
| Accumulate.JoinConstraint | src/lib.rs:260-263 | likewise for the constraint slot |
| Accumulate.FinalType | src/lib.rs:267-273 | a final type is never Unknown, and a known type is kept |
| Accumulate.Finalize | src/lib.rs:267-273 | one final type per slot, none Unknown, known types kept |
| Accumulate.Infer | src/lib.rs:250-273 | success exactly when every folded record has `n` fields; then `n` type and `n` constraint slots, no type Unknown; `InferOutcome` adds what each slot is |
| Accumulate.FirstUnequal | src/lib.rs:253-254 | the first record whose length is not the column count, if any; none exactly when all have it |
| Accumulate.InferColumns | src/lib.rs:250-273 | the in-place loop over the two slot arrays yields exactly the fold `Infer`: the reader's arity error at the first bad record, otherwise the finalised slots |
| Accumulate.FoldRecord | src/lib.rs:255-264 | each field widens its own column's type and constraint slot by one strictly-greater replacement |
| Accumulate.FoldTypeIsMax | src/lib.rs:256-259 | the folded type bounds every field's type and is one of them (or Unknown): it is their maximum |
| Accumulate.FoldTypeMonotone | src/lib.rs:257-258 | the type slot never narrows as records are folded |
| Accumulate.FoldTypeSameValues | src/lib.rs:253-265 | the folded type depends only on which values occur |
| Accumulate.FoldTypeOrderIndependent | src/lib.rs:253-265 | reordering a column's fields does not change its type |
| Accumulate.FinalTypeOfColumn | src/lib.rs:267-273 | no final type is Unknown; it is Text exactly when all fields are empty or one is Text; otherwise it is the maximum |
| Accumulate.FoldConstraintNullable | src/lib.rs:260-263 | a column stays Nullable exactly when every field equals the sentinel |
| Accumulate.FoldConstraintSameValues | src/lib.rs:260-263 | the folded constraint depends only on which values occur |
| Accumulate.FoldConstraintSticky | src/lib.rs:261-263 | once NotNull, the constraint never returns to Nullable |
| Accumulate.FoldConstraintExamples | src/lib.rs:260-263 | `1,"",3` is NotNull and `"","",""` Nullable with the default sentinel |
| Accumulate.InferOrderIndependent | src/lib.rs:253-273 | reordering the folded records changes neither success nor any slot |
| Accumulate.InferOutcome | src/lib.rs:250-273 | failure exactly when a folded record has the wrong length; otherwise one slot per column, none Unknown, each type Text exactly when the column is all empty or holds a Text field, otherwise the widest field type, attained by a field; Nullable exactly for all-sentinel columns |
| Names.ColumnNames | src/lib.rs:195-208 | one name more than commas in the override, one per header field, or `min(n, 26)` letters; `OverrideNames`, `HeaderNames` and `LetterNames` say which names |
| Names.FileStem | src/lib.rs:189 | no stem exactly when the file name is empty, `.` or `..`; a stem is non-empty and no longer than the file name; `StemAndExtension` says what was dropped |
| Names.TableName | src/lib.rs:186-193 | fails, with the `unwrap` panic, exactly when no name is given and the file has no stem; a name taken from the file or the default is non-empty |
| Names.GetColumns | src/lib.rs:210-222 | as many columns as the shortest of names, types and constraints, the i-th built from the i-th of each |
| Names.OverrideNames | src/lib.rs:197 | the override is split at every comma whatever `--no-header` says, loses no character, and no name holds a comma |
| Names.HeaderNames | src/lib.rs:198-201 | one name per header field, lower-cased with spaces turned to `_`, and no name holds a space |
| Names.LetterNames | src/lib.rs:202-206 | the first `min(n, 26)` letters, all distinct |
| Names.FileNameIsLastComponent | src/lib.rs:189 | the file name ends the path and holds no `/` |
| Names.StemAndExtension | src/lib.rs:189 | a stem is non-empty, holds no `/`, and with the dropped extension (empty, or one dot then no dot) gives the file name back |
| Names.StemOfPath | src/lib.rs:186-193 | `dir/stem.ext` is named `stem` for any non-empty slash-free stem and dot-free extension unless the file name is `..`; a leading dot stays in the stem |
| Names.TableNameExamples | src/lib.rs:320-336 | the explicit name wins; `f.csv` gives `f`; with neither, `csvpsql` |
| Names.LastExtensionExample | src/lib.rs:186-193 | `data/f.tar.gz` gives `f.tar`: only the last path component counts, and only its last extension is dropped |
| Names.DotStemExample | src/lib.rs:189 | `.a.csv` is named `.a`: a leading dot belongs to the stem |
| Render.TypeName | src/lib.rs:100-104 | a non-empty text with no space and no line end; `TypeNames` gives each text |
| Render.ConstraintName | src/lib.rs:112-119 | empty exactly for Nullable, and never a line end |
| Render.ColumnText | src/lib.rs:127-131 | the column's name, then a space; `TrailingSpace` and `ColumnTextRoundTrip` give the rest |
| Render.Statement | src/lib.rs:140-150 | starts with `create table ` and ends with `);` and a line end; `StatementLineAt` and `StatementRoundTrip` give the rest |
| Render.StatementLineAt | src/lib.rs:140-150 | a statement has one line per column plus the opening and closing lines, with a comma on all column lines but the last |
| Render.RenderTable | src/lib.rs:140-150 | the loop of `Table::fmt` writes exactly the statement's lines, each with a line end |
| Render.TypeNames | src/lib.rs:100-104 | type text is the lower-cased variant name, e.g. `numeric` |
| Render.DisplayNames | src/lib.rs:100-119 | a type's text holds no space or line end, and type and constraint texts read back |
| Render.TrailingSpace | src/lib.rs:127-131 | a column's text ends in a space exactly when it is Nullable |
| Render.ColumnTextRoundTrip | src/lib.rs:127-131 | a column's text reads back to the column when its name has no space |
| Render.ColumnLineRoundTrip | src/lib.rs:143-146 | an indented column line, with or without its comma, reads back to the column |
| Render.ColumnLinesRoundTrip | src/lib.rs:143-146 | the column lines read back to the columns |
| Render.StatementSplits | src/lib.rs:140-150 | splitting a statement at its line ends gives its lines |
| Render.StatementRoundTrip | src/lib.rs:140-150 | a statement reads back to its table when names hold no line end and column names no space |
| Csvpsql.FoldedRecords | src/lib.rs:238-253 | the records after the header and the first data record, in order: two fewer with a header, one fewer without |
| Csvpsql.Generate | src/lib.rs:224-284 | no records gives `NoRecords`; a printed statement starts with `create table ` and ends with `);`; `RunOutcome` gives the order of the errors |
| Csvpsql.BuildTable | src/lib.rs:224-282 | a built table always has a column |
| Csvpsql.Run | src/lib.rs:224-287 | `run` yields exactly `Generate`: the statement of the built table, or the first error |
| Csvpsql.RunOutcome | src/lib.rs:235-265 | the order of the checks: no records, then the `--columns` length, then arity of the folded records, then the file stem; success exactly when all pass |
| Csvpsql.TableShape | src/lib.rs:235-277 | every folded record has one field per header field, and the table has as many columns as the naming mode gives names, at most one per header field |
| Csvpsql.TableColumns | src/lib.rs:250-277 | each column is the i-th name with the i-th inferred type and constraint: the type Text exactly when the folded fields are all empty or one is Text, otherwise the widest of their types; Nullable exactly when every folded field is the sentinel |
| Csvpsql.LettersDropExtraColumns | src/lib.rs:202-206 | in letter mode a file with more than 26 columns gives 26 columns |
| Csvpsql.HeaderNameNoLineEnd | src/lib.rs:200 | a header name holds no line end when its field holds none |
| Csvpsql.HeaderRunReadsBack | src/lib.rs:276-284 | with a header, the printed statement reads back to the table, one column per header field named after it |
| Csvpsql.FirstDataRecordUnread | src/lib.rs:238-240 | the first data record is never read; without a header only its length counts |
| Csvpsql.SingleRecordExample | src/lib.rs:238-273 | a header and one record give `create table t (\n    id text \n);\n` |
| Csvpsql.SingleColumnStatement | src/lib.rs:140-150 | the text of the one-column table `t (id text)` |
| Csvpsql.ColumnsCheckExamples | src/lib.rs:241-247 | with two header fields, `--columns a,b` is refused and `ab` passes, naming one column |

## Left out

- Reading the file or standard input, CSV tokenising, quoting and the `--delimiter` option: the model starts from the records the reader yields.
- The CSV reader's I/O and UTF-8 errors: only its arity error (a record of another length than the header) is modelled.
- `src/main.rs` and the `structopt` argument parsing, including `required_unless`; `Names.TableName` keeps the `csvpsql` fallback that this rule makes unreachable.
- The `f64` parser and `dtparse`: they are foreign code and enter as the oracles of `Classify.Oracles`.
- Text.Lower: only ASCII letters are lower-cased; Unicode case mapping is not modelled.
- Csvpsql.Run: returns the text of `Table`'s `Display`; the extra line end `println!` adds and the writing to standard output are not modelled.
- The texts of the error messages: errors are the variants of `Schema.Error`.
- Names.FileStem: the path is text split at `/`; `Path`'s normalisation of a trailing `/` and of `.` components is not modelled. `to_str` cannot fail on a Dafny string, so only the missing stem is an error.
- Render.RenderTable: requires a column; the underflow of `len() - 1` on a table without columns cannot happen in a run, because the reader never yields an empty record.
