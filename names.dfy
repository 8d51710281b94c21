/** Name resolution: `get_column_names`, `get_columns` and
    `get_table_name`. */
module Names {
  import opened Wrappers
  import opened Text
  import opened Schema

  function Min(a: nat, b: nat): nat
  {
    if a <= b then a else b
  }

  /** The fallback names `a`, `b`, ..., `z`: the pieces of the literal
      `"a,b,...,z"` split on `,`. */
  const Letters: seq<string> := seq(26, k requires 0 <= k < 26 => [('a' as int + k) as char])

  /** `str::replace(" ", "_")`: every space becomes an underscore. */
  function ReplaceSpaces(s: string): string
  {
    seq(|s|, i requires 0 <= i < |s| => if s[i] == ' ' then '_' else s[i])
  }

  /** A header field as a column name: lower-cased, spaces to underscores. */
  function HeaderName(field: string): string
  {
    ReplaceSpaces(Lower(field))
  }

  /** `get_column_names`: the `--columns` override (whatever `no_header`
      says), else the lower-cased header, else as many letters as the header
      has fields, at most 26. */
  function ColumnNames(columns: Option<string>, noHeader: bool, header: seq<string>): (r: seq<string>)
    ensures columns.Some? ==> |r| == Count(columns.value, ',') + 1
    ensures columns.None? && !noHeader ==> |r| == |header|
    ensures columns.None? && noHeader ==> |r| == Min(|header|, 26)
  {
    match columns
    case Some(names) => SplitPieces(names, ','); Split(names, ',')
    case None =>
      if !noHeader then seq(|header|, k requires 0 <= k < |header| => HeaderName(header[k]))
      else Letters[..Min(|header|, 26)]
  }

  /** `get_columns`: `izip!` pairs the i-th name, type and constraint and
      stops at the end of the shortest of the three. */
  function GetColumns(names: seq<string>, types: seq<ColumnType>, constraints: seq<ColumnConstraint>): (cols: seq<Column>)
    ensures |cols| == Min(Min(|names|, |types|), |constraints|)
    ensures forall k :: 0 <= k < |cols| ==> cols[k] == Column(names[k], types[k], constraints[k])
    decreases |names|
  {
    if names == [] || types == [] || constraints == [] then []
    else [Column(names[0], types[0], constraints[0])] + GetColumns(names[1..], types[1..], constraints[1..])
  }

  /** The override is split on every comma, and the names glue back to the
      option text: no character is dropped, changed or trimmed. */
  lemma OverrideNames(names: string, noHeader: bool, header: seq<string>)
    ensures var r := ColumnNames(Some(names), noHeader, header);
      && r == ColumnNames(Some(names), !noHeader, [])
      && Join(r, ',') == names
      && |r| == Count(names, ',') + 1
      && forall k :: 0 <= k < |r| ==> ',' !in r[k]
  {
    JoinSplit(names, ',');
    SplitPieces(names, ',');
  }

  /** With a header and no override there is one name per header field:
      the field, lower-cased, with each space turned into an underscore, and
      so no name contains a space. */
  lemma HeaderNames(header: seq<string>)
    ensures var r := ColumnNames(None, false, header);
      && |r| == |header|
      && forall k :: 0 <= k < |r| ==>
        && |r[k]| == |header[k]|
        && ' ' !in r[k]
        && forall i :: 0 <= i < |r[k]| ==>
             r[k][i] == if header[k][i] == ' ' then '_' else LowerChar(header[k][i])
  {
    var r := ColumnNames(None, false, header);
    forall k | 0 <= k < |r|
      ensures ' ' !in r[k]
    {
      assert r[k] == HeaderName(header[k]);
      assert forall i :: 0 <= i < |r[k]| ==> r[k][i] != ' ';
    }
  }

  /** Without header and override the names are the first `min(n, 26)`
      letters, all different: columns past the 26th get no name. */
  lemma LetterNames(header: seq<string>)
    ensures var r := ColumnNames(None, true, header);
      && |r| == Min(|header|, 26)
      && (forall k :: 0 <= k < |r| ==> r[k] == [('a' as int + k) as char])
      && forall k, l :: 0 <= k < l < |r| ==> r[k] != r[l]
  {
    var r := ColumnNames(None, true, header);
    forall k, l | 0 <= k < l < |r|
      ensures r[k] != r[l]
    {
      assert r[k][0] != r[l][0];
    }
  }

  /** The part of a path after its last `/`. */
  function FileName(path: string): string
    decreases |path|
  {
    if path == [] || path[|path| - 1] == '/' then []
    else FileName(path[..|path| - 1]) + [path[|path| - 1]]
  }

  /** The index of the last `.` in `s`, if any. */
  function LastDot(s: string): (r: Option<nat>)
    ensures r.Some? ==> r.value < |s| && s[r.value] == '.' && '.' !in s[r.value + 1..]
    ensures r.None? ==> '.' !in s
    decreases |s|
  {
    if s == [] then None
    else if s[|s| - 1] == '.' then Some(|s| - 1)
    else
      var r := LastDot(s[..|s| - 1]);
      assert s == s[..|s| - 1] + [s[|s| - 1]];
      r
  }

  /** `Path::file_stem`: the file name without its last extension; a name
      whose only dot is its first character keeps it; there is no stem when
      there is no file name or it is `..`. */
  function FileStem(path: string): (r: Option<string>)
    ensures r.None? <==> FileName(path) == [] || FileName(path) == "." || FileName(path) == ".."
    ensures r.Some? ==> r.value != [] && |r.value| <= |FileName(path)|
  {
    var name := FileName(path);
    if name == [] || name == "." || name == ".." then None
    else match LastDot(name)
      case None => Some(name)
      case Some(i) => if i == 0 then Some(name) else Some(name[..i])
  }

  /** `get_table_name`: the explicit name, else the file stem (the
      `unwrap` panics when there is none), else `csvpsql`. */
  function TableName(tableName: Option<string>, file: Option<string>): (r: Result<string, Error>)
    ensures r.Failure? <==> tableName.None? && file.Some? && FileStem(file.value).None?
    ensures r.Failure? ==> r.error == Panic
    ensures tableName.None? && r.Success? ==> r.value != []
  {
    match tableName
    case Some(name) => Success(name)
    case None =>
      match file
      case None => Success("csvpsql")
      case Some(path) =>
        match FileStem(path)
        case None => Failure(Panic)
        case Some(stem) => Success(stem)
  }

  /** The file name ends the path and holds no `/`. */
  lemma {:induction false} FileNameIsLastComponent(path: string)
    ensures '/' !in FileName(path)
    ensures exists dir: string :: path == dir + FileName(path)
    decreases |path|
  {
    if path != [] && path[|path| - 1] != '/' {
      var init := path[..|path| - 1];
      FileNameIsLastComponent(init);
      var dir: string :| init == dir + FileName(init);
      assert path == dir + FileName(path);
    } else {
      assert path == path + [];
    }
  }

  /** A stem followed by the extension it drops gives the file name back;
      the extension is empty or a dot followed by no other dot, and the stem
      is never empty. */
  lemma StemAndExtension(path: string)
    requires FileStem(path).Some?
    ensures var stem := FileStem(path).value;
      && stem != []
      && '/' !in stem
      && exists ext: string ::
           && FileName(path) == stem + ext
           && (ext == [] || (ext[0] == '.' && '.' !in ext[1..]))
  {
    var name := FileName(path);
    var stem := FileStem(path).value;
    FileNameIsLastComponent(path);
    match LastDot(name)
    case None =>
      assert name == stem + [];
    case Some(i) =>
      if i == 0 {
        assert name == stem + [];
      } else {
        var ext := name[i..];
        assert name == stem + ext;
        assert ext[1..] == name[i + 1..];
        assert forall c :: c in stem ==> c in name;
      }
  }

  /** A path that ends in a slash-free name after a directory part ending
      in `/` (or no directory part) has that name as its file name. */
  lemma {:induction false} FileNameAfterDir(dir: string, name: string)
    requires dir == [] || dir[|dir| - 1] == '/'
    requires '/' !in name
    ensures FileName(dir + name) == name
    decreases |name|
  {
    if name == [] {
      assert dir + name == dir;
    } else {
      var init := name[..|name| - 1];
      FileNameAfterDir(dir, init);
      assert (dir + name)[..|dir + name| - 1] == dir + init;
      assert name == init + [name[|name| - 1]];
    }
  }

  /** The last dot of `stem.ext`, when `ext` has no dot, is the one after
      `stem`. */
  lemma {:induction false} LastDotBeforeExtension(stem: string, ext: string)
    requires '.' !in ext
    ensures LastDot(stem + ['.'] + ext) == Some(|stem|)
    decreases |ext|
  {
    if ext != [] {
      var init := ext[..|ext| - 1];
      LastDotBeforeExtension(stem, init);
      assert (stem + ['.'] + ext)[..|stem + ['.'] + ext| - 1] == stem + ['.'] + init;
    }
  }

  /** The stem of `dir/stem.ext`, for a non-empty slash-free stem and a
      dot-free extension, unless the file name is `..`; a leading dot stays
      in the stem (`.a.csv` gives `.a`). */
  lemma StemOfPath(dir: string, stem: string, ext: string)
    requires dir == [] || dir[|dir| - 1] == '/'
    requires stem != [] && '/' !in stem && stem + ['.'] + ext != ".."
    requires '.' !in ext && '/' !in ext
    ensures TableName(None, Some(dir + stem + ['.'] + ext)) == Success(stem)
  {
    var name := stem + ['.'] + ext;
    FileNameAfterDir(dir, name);
    assert dir + stem + ['.'] + ext == dir + name;
    LastDotBeforeExtension(stem, ext);
    assert name[..|stem|] == stem;
    assert name != "." by {
      assert |name| >= 2;
    }
    assert FileStem(dir + name) == Some(stem);
  }

  /** The cases of `test_get_table_name`: the explicit name wins over the file, and
      without it `f.csv` gives `f`; with neither, `csvpsql`. */
  lemma TableNameExamples(name: string, file: Option<string>)
    ensures TableName(Some(name), file) == Success(name)
    ensures TableName(None, Some("f.csv")) == Success("f")
    ensures TableName(None, None) == Success("csvpsql")
  {
    assert [] + "f" + ['.'] + "csv" == "f.csv";
    assert '/' !in "f" && '.' !in "csv" && '/' !in "csv" && |"f" + ['.'] + "csv"| > 2;
    StemOfPath([], "f", "csv");
  }

  /** Only the last path component counts, and only its last extension is
      dropped: `data/f.tar.gz` gives `f.tar`. */
  lemma LastExtensionExample()
    ensures TableName(None, Some("data/f.tar.gz")) == Success("f.tar")
  {
    assert "data/" + "f.tar" + ['.'] + "gz" == "data/f.tar.gz";
    assert '/' !in "f.tar" && '.' !in "gz" && '/' !in "gz" && |"f.tar" + ['.'] + "gz"| > 2;
    StemOfPath("data/", "f.tar", "gz");
  }

  /** A leading dot belongs to the stem: `.a.csv` gives `.a`. */
  lemma DotStemExample()
    ensures TableName(None, Some(".a.csv")) == Success(".a")
  {
    assert [] + ".a" + ['.'] + "csv" == ".a.csv";
    assert '/' !in ".a" && '.' !in "csv" && '/' !in "csv" && |".a" + ['.'] + "csv"| > 2;
    StemOfPath([], ".a", "csv");
  }
}
