/** The statement renderer: the `Display` impls of `ColumnType`,
    `ColumnConstraint`, `Column` and `Table`. `RenderTable` is the loop of
    `Table::fmt`; `Statement` is its line-by-line specification, and
    `ParseStatement` reads a statement back, so that rendering is shown to
    lose nothing. */
module Render {
  import opened Wrappers
  import opened Text
  import opened Schema

  /** `{:?}` of a column type: the variant name. */
  function DebugName(t: ColumnType): string
  {
    match t
    case Unknown => "Unknown"
    case Boolean => "Boolean"
    case Integer => "Integer"
    case Numeric => "Numeric"
    case Date => "Date"
    case Timestamp => "Timestamp"
    case Text => "Text"
  }

  /** `ColumnType`'s `Display`: the variant name, lower-cased. */
  function TypeName(t: ColumnType): (r: string)
    ensures r != [] && ' ' !in r && '\n' !in r
  {
    Lower(DebugName(t))
  }

  /** `ColumnConstraint`'s `Display`: `not null`, or nothing. */
  function ConstraintName(c: ColumnConstraint): (r: string)
    ensures r == [] <==> c == Nullable
    ensures '\n' !in r
  {
    match c
    case NotNull => "not null"
    case Nullable => ""
  }

  /** `Column`'s `Display`: `"{} {} {}"` of name, type and constraint. */
  function ColumnText(c: Column): (r: string)
    ensures |r| > |c.name| && r[..|c.name|] == c.name && r[|c.name|] == ' '
  {
    c.name + " " + TypeName(c.ctype) + " " + ConstraintName(c.constraint)
  }

  /** The text around the table name on the opening line. */
  const Opening: string := "create table "
  const Opened: string := " ("

  /** The lines `Table::fmt` writes, without their line ends: the opening
      line, one indented line per column with a comma on all but the last,
      and the closing line. */
  function StatementLines(t: Table): seq<string>
    requires |t.columns| > 0
  {
    [Opening + t.name + Opened] + ColumnLines(t.columns) + [");"]
  }

  /** One column's line: indented, with a comma unless it is the last. */
  function ColumnLine(c: Column, last: bool): string
  {
    "    " + ColumnText(c) + (if last then "" else ",")
  }

  /** One line per column, the comma on all but the last. */
  function ColumnLines(cols: seq<Column>): seq<string>
  {
    seq(|cols|, k requires 0 <= k < |cols| => ColumnLine(cols[k], k == |cols| - 1))
  }

  /** Each line followed by a line end, as `writeln!` writes it. */
  function Unlines(lines: seq<string>): string
  {
    if lines == [] then "" else lines[0] + "\n" + Unlines(lines[1..])
  }

  /** The text `Table`'s `Display` produces. */
  function Statement(t: Table): (r: string)
    requires |t.columns| > 0
    ensures |r| > |Opening| && r[..|Opening|] == Opening
    ensures |r| >= 3 && r[|r| - 3..] == ");\n"
  {
    var lines := StatementLines(t);
    UnlinesSnoc(lines[..|lines| - 1], ");");
    assert lines[..|lines| - 1] + [");"] == lines;
    Unlines(lines)
  }

  lemma {:induction false} UnlinesSnoc(lines: seq<string>, line: string)
    ensures Unlines(lines + [line]) == Unlines(lines) + line + "\n"
    decreases |lines|
  {
    if lines != [] {
      UnlinesSnoc(lines[1..], line);
      assert (lines + [line])[1..] == lines[1..] + [line];
    }
  }

  /** Writing line `k` after the first `k` lines. */
  lemma UnlinesPrefix(lines: seq<string>, k: nat)
    requires k < |lines|
    ensures Unlines(lines[..k + 1]) == Unlines(lines[..k]) + lines[k] + "\n"
  {
    UnlinesSnoc(lines[..k], lines[k]);
    assert lines[..k + 1] == lines[..k] + [lines[k]];
  }

  /** The lines of a statement, one by one. */
  lemma StatementLineAt(t: Table, k: nat)
    requires |t.columns| > 0 && k < |t.columns|
    ensures |StatementLines(t)| == |t.columns| + 2
    ensures StatementLines(t)[0] == Opening + t.name + Opened
    ensures StatementLines(t)[k + 1] == ColumnLine(t.columns[k], k == |t.columns| - 1)
    ensures StatementLines(t)[|t.columns| + 1] == ");"
  {
    var lines := ColumnLines(t.columns);
    var all := StatementLines(t);
    assert all == [Opening + t.name + Opened] + lines + [");"];
    assert |lines| == |t.columns|;
    assert all[k + 1] == lines[k] == ColumnLine(t.columns[k], k == |t.columns| - 1);
    assert all[|t.columns| + 1] == ");";
  }

  /** `Table::fmt`: the opening line, then every column but the last with a
      comma, then the last, then the closing line. The table must have a
      column: `len() - 1` would underflow on an empty one. */
  method RenderTable(t: Table) returns (out: string)
    requires |t.columns| > 0
    ensures out == Statement(t)
  {
    ghost var lines := StatementLines(t);
    var n := |t.columns|;
    var line := Opening + t.name + Opened;
    StatementLineAt(t, 0);
    UnlinesPrefix(lines, 0);
    out := line + "\n";
    var k := 0;
    while k < n - 1
      invariant 0 <= k <= n - 1
      invariant out == Unlines(lines[..k + 1])
    {
      line := ColumnLine(t.columns[k], false);
      StatementLineAt(t, k);
      assert line == lines[k + 1];
      UnlinesPrefix(lines, k + 1);
      out := out + line + "\n";
      k := k + 1;
    }
    line := ColumnLine(t.columns[n - 1], true);
    StatementLineAt(t, n - 1);
    assert line == lines[n];
    UnlinesPrefix(lines, n);
    out := out + line + "\n";
    line := ");";
    UnlinesPrefix(lines, n + 1);
    out := out + line + "\n";
    assert lines[..n + 2] == lines;
  }

  // ----- Reading a statement back -----

  /** The inverse of `TypeName`. */
  function TypeFromName(s: string): Option<ColumnType>
  {
    if s == "unknown" then Some(Unknown)
    else if s == "boolean" then Some(Boolean)
    else if s == "integer" then Some(Integer)
    else if s == "numeric" then Some(Numeric)
    else if s == "date" then Some(Date)
    else if s == "timestamp" then Some(Timestamp)
    else if s == "text" then Some(Text)
    else None
  }

  /** The inverse of `ConstraintName`. */
  function ConstraintFromName(s: string): Option<ColumnConstraint>
  {
    if s == "not null" then Some(NotNull) else if s == "" then Some(Nullable) else None
  }

  /** The index of the first `c` in `s`, if any. */
  function IndexOf(s: string, c: char): (r: Option<nat>)
    ensures r.Some? ==> r.value < |s| && s[r.value] == c && c !in s[..r.value]
    ensures r.None? ==> c !in s
    decreases |s|
  {
    if s == [] then None
    else if s[0] == c then Some(0)
    else match IndexOf(s[1..], c)
      case None => None
      case Some(i) => assert s[..i + 1] == [s[0]] + s[1..][..i]; Some(i + 1)
  }

  /** Reads `name type constraint` back, splitting at the first two spaces. */
  function ParseColumnText(s: string): Option<Column>
  {
    match IndexOf(s, ' ')
    case None => None
    case Some(i) =>
      var rest := s[i + 1..];
      match IndexOf(rest, ' ')
      case None => None
      case Some(j) =>
        match (TypeFromName(rest[..j]), ConstraintFromName(rest[j + 1..]))
        case (Some(t), Some(c)) => Some(Column(s[..i], t, c))
        case _ => None
  }

  /** Reads one indented column line back; all lines but the last must end
      in a comma. */
  function ParseColumnLine(line: string, last: bool): Option<Column>
  {
    if |line| < 4 || line[..4] != "    " then None
    else if last then ParseColumnText(line[4..])
    else if |line| < 5 || line[|line| - 1] != ',' then None
    else ParseColumnText(line[4..|line| - 1])
  }

  /** Reads every column line back, the last one without a comma; fails if
      any line does not read. */
  function ParseColumnLines(lines: seq<string>): Option<seq<Column>>
  {
    var parsed := seq(|lines|, k requires 0 <= k < |lines| => ParseColumnLine(lines[k], k == |lines| - 1));
    if forall k :: 0 <= k < |parsed| ==> parsed[k].Some? then
      Some(seq(|parsed|, k requires 0 <= k < |parsed| && parsed[k].Some? => parsed[k].value))
    else None
  }

  /** Reads a rendered statement back into the table it describes. */
  function ParseStatement(s: string): Option<Table>
  {
    if s == [] || s[|s| - 1] != '\n' then None
    else
      var lines := Split(s[..|s| - 1], '\n');
      if |lines| < 3 || lines[|lines| - 1] != ");" then None
      else
        var head := lines[0];
        if |head| < |Opening| + |Opened| || head[..|Opening|] != Opening || head[|head| - |Opened|..] != Opened then None
        else match ParseColumnLines(lines[1..|lines| - 1])
          case None => None
          case Some(cols) => Some(Table(head[|Opening|..|head| - |Opened|], cols))
  }

  // ----- What the renderer promises -----

  /** Type text is the lower-cased variant name (`numeric`, never a float
      name). */
  lemma TypeNames()
    ensures TypeName(Unknown) == "unknown" && TypeName(Boolean) == "boolean"
    ensures TypeName(Integer) == "integer" && TypeName(Numeric) == "numeric"
    ensures TypeName(Date) == "date" && TypeName(Timestamp) == "timestamp"
    ensures TypeName(Text) == "text"
  {
    assert Lower("Unknown") == "unknown";
    assert Lower("Boolean") == "boolean";
    assert Lower("Integer") == "integer";
    assert Lower("Numeric") == "numeric";
    assert Lower("Date") == "date";
    assert Lower("Timestamp") == "timestamp";
    assert Lower("Text") == "text";
  }

  /** A type's text holds no space and no line end, and both names read
      back. */
  lemma DisplayNames(t: ColumnType, c: ColumnConstraint)
    ensures ' ' !in TypeName(t) && '\n' !in TypeName(t) && TypeFromName(TypeName(t)) == Some(t)
    ensures ConstraintFromName(ConstraintName(c)) == Some(c)
  {
    TypeNames();
  }

  lemma IndexOfPrefix(a: string, b: string, c: char)
    requires c !in a
    ensures IndexOf(a + [c] + b, c) == Some(|a|)
  {
    var s := a + [c] + b;
    assert s[|a|] == c;
    assert forall i :: 0 <= i < |a| ==> s[i] == a[i];
    assert forall m :: |a| < m <= |s| ==> s[..m][|a|] == c;
  }

  /** A Nullable column's text ends in the space before its empty
      constraint, and only a Nullable column's does. */
  lemma TrailingSpace(c: Column)
    ensures ColumnText(c)[|ColumnText(c)| - 1] == ' ' <==> c.constraint == Nullable
  {
  }

  /** A column's text reads back to the column when the name has no space. */
  lemma ColumnTextRoundTrip(c: Column)
    requires ' ' !in c.name
    ensures ParseColumnText(ColumnText(c)) == Some(c)
  {
    DisplayNames(c.ctype, c.constraint);
    var tn, cn := TypeName(c.ctype), ConstraintName(c.constraint);
    var s := ColumnText(c);
    var rest := tn + [' '] + cn;
    assert s == c.name + [' '] + rest;
    IndexOfPrefix(c.name, rest, ' ');
    assert s[|c.name| + 1..] == rest;
    IndexOfPrefix(tn, cn, ' ');
    assert rest[..|tn|] == tn;
    assert rest[|tn| + 1..] == cn;
    assert s[..|c.name|] == c.name;
  }

  lemma {:induction false} UnlinesIsJoin(lines: seq<string>)
    requires |lines| >= 1
    ensures Unlines(lines) == Join(lines, '\n') + "\n"
    decreases |lines|
  {
    if |lines| > 1 {
      UnlinesIsJoin(lines[1..]);
    }
  }

  /** No rendered name holds a line end. */
  lemma NoLineEndInNames(c: Column)
    requires '\n' !in c.name
    ensures '\n' !in ColumnText(c)
  {
    DisplayNames(c.ctype, c.constraint);
  }

  /** A well-formed column: its name has no space and no line end, as every
      name resolved from a header has no space. */
  predicate PlainName(name: string)
  {
    ' ' !in name && '\n' !in name
  }

  lemma ColumnLineRoundTrip(c: Column, last: bool)
    requires PlainName(c.name)
    ensures ParseColumnLine(ColumnLine(c, last), last) == Some(c)
  {
    ColumnTextRoundTrip(c);
    var text := ColumnText(c);
    var line := ColumnLine(c, last);
    assert line[..4] == "    ";
    if last {
      assert line[4..] == text;
    } else {
      assert line[4..|line| - 1] == text;
    }
  }

  /** Lines that each read back to a column, the comma-less one last,
      read back to those columns. */
  lemma ColumnLinesRoundTrip(lines: seq<string>, cols: seq<Column>)
    requires |lines| == |cols|
    requires forall k :: 0 <= k < |lines| ==> ParseColumnLine(lines[k], k == |lines| - 1) == Some(cols[k])
    ensures ParseColumnLines(lines) == Some(cols)
  {
    var parsed := seq(|lines|, k requires 0 <= k < |lines| => ParseColumnLine(lines[k], k == |lines| - 1));
    assert forall k :: 0 <= k < |parsed| ==> parsed[k] == Some(cols[k]);
    var values := seq(|parsed|, k requires 0 <= k < |parsed| && parsed[k].Some? => parsed[k].value);
    assert values == cols;
  }

  /** The opening line reads back to the table name. */
  lemma OpeningRoundTrip(name: string)
    ensures var head := Opening + name + Opened;
      && |head| >= |Opening| + |Opened|
      && head[..|Opening|] == Opening
      && head[|head| - |Opened|..] == Opened
      && head[|Opening|..|head| - |Opened|] == name
  {
  }

  /** No line of a statement holds a line end. */
  lemma StatementLinesPlain(t: Table)
    requires |t.columns| > 0
    requires '\n' !in t.name
    requires forall k :: 0 <= k < |t.columns| ==> PlainName(t.columns[k].name)
    ensures forall k :: 0 <= k < |StatementLines(t)| ==> '\n' !in StatementLines(t)[k]
  {
    var lines := StatementLines(t);
    var n := |t.columns|;
    forall k | 0 <= k < |lines|
      ensures '\n' !in lines[k]
    {
      if 1 <= k <= n {
        NoLineEndInNames(t.columns[k - 1]);
        assert lines[k] == ColumnLine(t.columns[k - 1], k == n);
      }
    }
  }

  /** The column lines of a statement read back to its columns. */
  lemma StatementColumnsRoundTrip(t: Table)
    requires |t.columns| > 0
    requires forall k :: 0 <= k < |t.columns| ==> PlainName(t.columns[k].name)
    ensures ParseColumnLines(StatementLines(t)[1..|StatementLines(t)| - 1]) == Some(t.columns)
  {
    var lines := StatementLines(t);
    var n := |t.columns|;
    var middle := lines[1..|lines| - 1];
    assert middle == ColumnLines(t.columns);
    forall k | 0 <= k < n
      ensures ParseColumnLine(middle[k], k == n - 1) == Some(t.columns[k])
    {
      ColumnLineRoundTrip(t.columns[k], k == n - 1);
    }
    ColumnLinesRoundTrip(middle, t.columns);
  }

  /** Rendering loses nothing: a table whose name has no line end and whose
      column names have no space or line end reads back from its statement. */
  lemma StatementRoundTrip(t: Table)
    requires |t.columns| > 0
    requires '\n' !in t.name
    requires forall k :: 0 <= k < |t.columns| ==> PlainName(t.columns[k].name)
    ensures ParseStatement(Statement(t)) == Some(t)
  {
    StatementSplits(t);
    OpeningRoundTrip(t.name);
    StatementColumnsRoundTrip(t);
  }

  /** A statement is its lines, each ended by a line end, so splitting it
      at its line ends gives the lines back. */
  lemma StatementSplits(t: Table)
    requires |t.columns| > 0
    requires '\n' !in t.name
    requires forall k :: 0 <= k < |t.columns| ==> PlainName(t.columns[k].name)
    ensures var s := Statement(t);
      s != [] && s[|s| - 1] == '\n' && Split(s[..|s| - 1], '\n') == StatementLines(t)
  {
    var lines := StatementLines(t);
    StatementLinesPlain(t);
    UnlinesIsJoin(lines);
    var s := Statement(t);
    assert s[..|s| - 1] == Join(lines, '\n');
    SplitJoin(lines, '\n');
  }
}
