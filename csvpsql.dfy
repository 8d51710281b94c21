/** `run`: from the csv records and the options to the `create table`
    statement. The reader's records are an input; `BuildTable` and
    `Generate` specify the run, `Run` performs it with the in-place
    accumulator and the rendering loop. */
module Csvpsql {
  import opened Wrappers
  import opened Text
  import opened Schema
  import opened Classify
  import opened Accumulate
  import opened Names
  import opened Render

  /** The fields of `Opt` that the run reads (the delimiter only matters
      to the csv reader). */
  datatype Options = Options(
    noHeader: bool,
    columns: Option<string>,
    nullAs: string,
    file: Option<string>,
    tableName: Option<string>)

  /** The csv reader never yields a record without fields. */
  predicate WellFormed(records: seq<seq<string>>)
  {
    forall k :: 0 <= k < |records| ==> |records[k]| > 0
  }

  /** `rdr.headers()`: the first record, in no-header mode too. */
  function HeaderRecord(records: seq<seq<string>>): seq<string>
  {
    if records == [] then [] else records[0]
  }

  /** What `rdr.records()` yields: every record after the header, or every
      record when there is no header. */
  function DataRecords(records: seq<seq<string>>, noHeader: bool): seq<seq<string>>
  {
    if noHeader || records == [] then records else records[1..]
  }

  /** The records the accumulator folds: the data records after the first,
      which the emptiness check consumes. */
  function FoldedRecords(records: seq<seq<string>>, noHeader: bool): (r: seq<seq<string>>)
    ensures var skipped := if noHeader then 1 else 2;
      && |r| == (if |records| < skipped then 0 else |records| - skipped)
      && forall k :: 0 <= k < |r| ==> r[k] == records[k + skipped]
  {
    var data := DataRecords(records, noHeader);
    if data == [] then [] else data[1..]
  }

  /** The table `run` builds. The emptiness check pulls the first data record
      through an iterator that is then dropped, so the accumulator folds only
      the records after it, and that first record's length is never checked. */
  function BuildTable(opt: Options, records: seq<seq<string>>, o: Oracles): (r: Result<Table, Error>)
    requires WellFormed(records)
    ensures r.Success? ==> |r.value.columns| > 0
  {
    var header := HeaderRecord(records);
    var data := DataRecords(records, opt.noHeader);
    var n := |header|;
    if data == [] then Failure(NoRecords)
    else if opt.columns.Some? && Utf8Len(opt.columns.value) != n then Failure(ColumnsMismatch)
    else match Infer(FoldedRecords(records, opt.noHeader), n, opt.nullAs, o)
      case Failure(e) => Failure(e)
      case Success(inf) =>
        var names := ColumnNames(opt.columns, opt.noHeader, header);
        var cols := GetColumns(names, inf.types, inf.constraints);
        match TableName(opt.tableName, opt.file)
        case Failure(e) => Failure(e)
        case Success(name) => Success(Table(name, cols))
  }

  /** The text `run` prints. */
  function Generate(opt: Options, records: seq<seq<string>>, o: Oracles): (r: Result<string, Error>)
    requires WellFormed(records)
    ensures records == [] ==> r == Failure(NoRecords)
    ensures r.Success? ==> |r.value| > |Opening| && r.value[..|Opening|] == Opening
    ensures r.Success? ==> |r.value| >= 3 && r.value[|r.value| - 3..] == ");\n"
  {
    match BuildTable(opt, records, o)
    case Failure(e) => Failure(e)
    case Success(table) => Success(Statement(table))
  }

  /** `run`, from the records the csv reader yields to the statement. */
  method Run(opt: Options, records: seq<seq<string>>, o: Oracles) returns (res: Result<string, Error>)
    requires WellFormed(records)
    ensures res == Generate(opt, records, o)
  {
    var header := HeaderRecord(records);
    var data := DataRecords(records, opt.noHeader);
    var n := |header|;
    if data == [] {
      return Failure(NoRecords);
    }
    if opt.columns.Some? && Utf8Len(opt.columns.value) != n {
      return Failure(ColumnsMismatch);
    }
    var inferred := InferColumns(data[1..], n, opt.nullAs, o);
    if inferred.Failure? {
      return Failure(inferred.error);
    }
    var names := ColumnNames(opt.columns, opt.noHeader, header);
    var columns := GetColumns(names, inferred.value.types, inferred.value.constraints);
    var tableName := TableName(opt.tableName, opt.file);
    if tableName.Failure? {
      return Failure(tableName.error);
    }
    var table := Table(tableName.value, columns);
    var text := RenderTable(table);
    res := Success(text);
  }

  // ----- What a run produces -----

  /** A run fails with no records, then on the `--columns` length check,
      then on the first folded record of the wrong length, then on a file
      without a stem; otherwise it produces a statement. */
  lemma RunOutcome(opt: Options, records: seq<seq<string>>, o: Oracles)
    requires WellFormed(records)
    ensures var header, data := HeaderRecord(records), DataRecords(records, opt.noHeader);
      var r := Generate(opt, records, o);
      && (data == [] ==> r == Failure(NoRecords))
      && (data != [] && opt.columns.Some? && Utf8Len(opt.columns.value) != |header| ==> r == Failure(ColumnsMismatch))
      && (r.Failure? && r.error.UnequalLengths? <==>
            && data != [] && !(opt.columns.Some? && Utf8Len(opt.columns.value) != |header|)
            && exists k :: 1 <= k < |data| && |data[k]| != |header|)
      && (r.Success? <==>
            && data != [] && !(opt.columns.Some? && Utf8Len(opt.columns.value) != |header|)
            && (forall k :: 1 <= k < |data| ==> |data[k]| == |header|)
            && TableName(opt.tableName, opt.file).Success?)
  {
    var header, data := HeaderRecord(records), DataRecords(records, opt.noHeader);
    if data != [] {
      var rows := data[1..];
      InferOutcome(rows, |header|, opt.nullAs, o);
      assert (exists k :: 0 <= k < |rows| && |rows[k]| != |header|) <==> (exists k :: 1 <= k < |data| && |data[k]| != |header|) by {
        forall k | 1 <= k < |data| ensures data[k] == rows[k - 1] {}
      }
    }
  }

  /** The shape of a built table: every folded record has one field per
      header field, and there are as many columns as the naming mode gives
      names, at most one per header field. */
  lemma TableShape(opt: Options, records: seq<seq<string>>, o: Oracles)
    requires WellFormed(records)
    requires BuildTable(opt, records, o).Success?
    ensures var header, rows := HeaderRecord(records), FoldedRecords(records, opt.noHeader);
      var n := |header|;
      var cols := BuildTable(opt, records, o).value.columns;
      && (forall k :: 0 <= k < |rows| ==> |rows[k]| == n)
      && |cols| == (match opt.columns
                    case Some(s) => Min(|Split(s, ',')|, n)
                    case None => if opt.noHeader then Min(n, 26) else n)
      && |cols| <= n && |cols| <= |ColumnNames(opt.columns, opt.noHeader, header)|
  {
    var header := HeaderRecord(records);
    BuiltColumns(opt, records, o);
    InferOutcome(FoldedRecords(records, opt.noHeader), |header|, opt.nullAs, o);
    if opt.columns.Some? {
      SplitPieces(opt.columns.value, ',');
    }
  }

  /** The columns of a built table: each is the i-th name with the i-th
      column's inferred type and constraint, which are what `IsColumnType`
      and `IsColumnConstraint` say of the i-th field of every folded record. */
  lemma TableColumns(opt: Options, records: seq<seq<string>>, o: Oracles)
    requires WellFormed(records)
    requires BuildTable(opt, records, o).Success?
    ensures var header, rows := HeaderRecord(records), FoldedRecords(records, opt.noHeader);
      var cols := BuildTable(opt, records, o).value.columns;
      && (forall k :: 0 <= k < |rows| ==> |rows[k]| == |header|)
      && |cols| <= |header| && |cols| <= |ColumnNames(opt.columns, opt.noHeader, header)|
      && forall j :: 0 <= j < |cols| ==>
        && cols[j].name == ColumnNames(opt.columns, opt.noHeader, header)[j]
        && (forall k :: 0 <= k < |rows| ==> ColumnOf(rows, j)[k] == rows[k][j])
        && IsColumnType(ColumnOf(rows, j), cols[j].ctype, o)
        && IsColumnConstraint(ColumnOf(rows, j), cols[j].constraint, opt.nullAs)
  {
    var header, rows := HeaderRecord(records), FoldedRecords(records, opt.noHeader);
    var names := ColumnNames(opt.columns, opt.noHeader, header);
    TableShape(opt, records, o);
    BuiltColumns(opt, records, o);
    InferOutcome(rows, |header|, opt.nullAs, o);
    var inf := Infer(rows, |header|, opt.nullAs, o).value;
    var cols := BuildTable(opt, records, o).value.columns;
    assert cols == GetColumns(names, inf.types, inf.constraints);
  }

  /** A built table pairs the resolved names with the inferred slots. */
  lemma BuiltColumns(opt: Options, records: seq<seq<string>>, o: Oracles)
    requires WellFormed(records)
    requires BuildTable(opt, records, o).Success?
    ensures var header := HeaderRecord(records);
      var inferred := Infer(FoldedRecords(records, opt.noHeader), |header|, opt.nullAs, o);
      && DataRecords(records, opt.noHeader) != []
      && inferred.Success?
      && BuildTable(opt, records, o).value.columns
         == GetColumns(ColumnNames(opt.columns, opt.noHeader, header), inferred.value.types, inferred.value.constraints)
  {
  }

  /** Without a header or an override, a file with more than 26 columns
      gives a table of 26: the letters run out and the rest are dropped
      silently. */
  lemma LettersDropExtraColumns(opt: Options, records: seq<seq<string>>, o: Oracles)
    requires WellFormed(records)
    requires opt.noHeader && opt.columns.None?
    requires BuildTable(opt, records, o).Success?
    requires |HeaderRecord(records)| > 26
    ensures |BuildTable(opt, records, o).value.columns| == 26
  {
    TableShape(opt, records, o);
  }

  /** A header name never holds a line end when its field does not. */
  lemma HeaderNameNoLineEnd(field: string)
    requires '\n' !in field
    ensures '\n' !in HeaderName(field)
  {
    var r := HeaderName(field);
    assert forall i :: 0 <= i < |r| ==> r[i] != '\n';
  }

  /** With a header and no override, the printed statement reads back to
      the table: one column per header field, named after it. */
  lemma HeaderRunReadsBack(opt: Options, records: seq<seq<string>>, o: Oracles)
    requires WellFormed(records)
    requires !opt.noHeader && opt.columns.None?
    requires BuildTable(opt, records, o).Success?
    requires '\n' !in BuildTable(opt, records, o).value.name
    requires forall i :: 0 <= i < |HeaderRecord(records)| ==> '\n' !in HeaderRecord(records)[i]
    ensures var table := BuildTable(opt, records, o).value;
      && Generate(opt, records, o) == Success(Statement(table))
      && ParseStatement(Statement(table)) == Some(table)
      && |table.columns| == |HeaderRecord(records)|
      && forall j :: 0 <= j < |table.columns| ==> table.columns[j].name == HeaderName(HeaderRecord(records)[j])
  {
    var header := HeaderRecord(records);
    var table := BuildTable(opt, records, o).value;
    TableShape(opt, records, o);
    TableColumns(opt, records, o);
    HeaderNames(header);
    forall j | 0 <= j < |table.columns|
      ensures PlainName(table.columns[j].name)
    {
      HeaderNameNoLineEnd(header[j]);
    }
    StatementRoundTrip(table);
  }

  // ----- The first data record -----

  /** The first data record is pulled by the emptiness check and never
      folded: with a header, any record in its place gives the same output;
      without one, it only fixes the column count (as the header), so any
      record of the same length does. */
  lemma FirstDataRecordUnread(opt: Options, records: seq<seq<string>>, rec: seq<string>, o: Oracles)
    requires WellFormed(records)
    requires var first := if opt.noHeader then 0 else 1;
      first < |records| && |rec| > 0 && (opt.noHeader ==> |rec| == |records[0]|)
    ensures var first := if opt.noHeader then 0 else 1;
      WellFormed(records[first := rec]) && Generate(opt, records[first := rec], o) == Generate(opt, records, o)
  {
    var first := if opt.noHeader then 0 else 1;
    var other := records[first := rec];
    var data, data' := DataRecords(records, opt.noHeader), DataRecords(other, opt.noHeader);
    assert data'[1..] == data[1..];
    assert FoldedRecords(other, opt.noHeader) == FoldedRecords(records, opt.noHeader);
    if opt.noHeader {
      assert ColumnNames(opt.columns, true, HeaderRecord(other)) == ColumnNames(opt.columns, true, HeaderRecord(records));
    } else {
      assert HeaderRecord(other) == HeaderRecord(records);
    }
  }

  /** A header and one data record only: nothing is folded, so the column
      is Unknown, finalised to Text, and stays Nullable. */
  lemma SingleRecordExample(o: Oracles)
    ensures BuildTable(Options(false, None, "", None, Some("t")), [["id"], ["1"]], o)
      == Success(Table("t", [Column("id", Text, Nullable)]))
    ensures Generate(Options(false, None, "", None, Some("t")), [["id"], ["1"]], o)
      == Success("create table t (\n    id text \n);\n")
  {
    var opt := Options(false, None, "", None, Some("t"));
    var records := [["id"], ["1"]];
    var name := HeaderName("id");
    assert |name| == 2 && name[0] == 'i' && name[1] == 'd';
    assert name == "id";
    var names := ColumnNames(None, false, ["id"]);
    assert |names| == 1 && names[0] == name;
    assert names == ["id"];
    var types := TypeSlots([], 1, o);
    assert |types| == 1 && types[0] == FoldType(ColumnOf([], 0), o) == Unknown;
    assert Finalize(types) == [Text];
    var constraints := ConstraintSlots([], 1, "");
    assert |constraints| == 1 && constraints[0] == FoldConstraint(ColumnOf([], 0), "") == Nullable;
    assert constraints == [Nullable];
    assert Infer([], 1, "", o) == Success(Inference([Text], [Nullable]));
    assert DataRecords(records, false)[1..] == [];
    assert TableName(Some("t"), None) == Success("t");
    assert GetColumns(["id"], [Text], [Nullable]) == [Column("id", Text, Nullable)];
    SingleColumnStatement();
  }

  /** The statement for a one-column table `t (id text)`. */
  lemma SingleColumnStatement()
    ensures Statement(Table("t", [Column("id", Text, Nullable)])) == "create table t (\n    id text \n);\n"
  {
    SingleColumnLines();
    var lines := ["create table t (", "    id text ", ");"];
    assert Unlines(lines[2..]) == ");\n" + Unlines([]);
    assert Unlines(lines[1..]) == "    id text \n" + Unlines(lines[2..]);
    assert Unlines(lines) == "create table t (\n" + Unlines(lines[1..]);
  }

  /** Its lines: the opening line, the one column without a comma, the closing line. */
  lemma SingleColumnLines()
    ensures StatementLines(Table("t", [Column("id", Text, Nullable)])) == ["create table t (", "    id text ", ");"]
  {
    var col := Column("id", Text, Nullable);
    TypeNames();
    assert ColumnText(col) == "id text ";
    assert ColumnLine(col, true) == "    id text ";
    assert ColumnLines([col]) == ["    id text "];
    assert Opening + "t" + Opened == "create table t (";
  }

  // ----- The `--columns` length check -----

  /** The override is checked by its length in bytes against the header's
      field count, not by its number of names: `a,b` is refused for two
      columns, while `ab` passes and names one column, dropping the other. */
  lemma ColumnsCheckExamples(opt: Options, records: seq<seq<string>>, o: Oracles)
    requires WellFormed(records)
    requires |HeaderRecord(records)| == 2 && DataRecords(records, opt.noHeader) != []
    ensures Generate(opt.(columns := Some("a,b")), records, o) == Failure(ColumnsMismatch)
    ensures Generate(opt.(columns := Some("ab")), records, o) != Failure(ColumnsMismatch)
    ensures var t := BuildTable(opt.(columns := Some("ab")), records, o);
      t.Success? ==> |t.value.columns| == 1 && t.value.columns[0].name == "ab"
  {
    Utf8LenBounds("a,b");
    Utf8LenBounds("ab");
    SplitNoSep("ab", ',');
    RunOutcome(opt.(columns := Some("ab")), records, o);
    if BuildTable(opt.(columns := Some("ab")), records, o).Success? {
      TableShape(opt.(columns := Some("ab")), records, o);
      TableColumns(opt.(columns := Some("ab")), records, o);
    }
  }
}
