/** The exporters: a table written as CSV or HTML text (one file per table, nested tables
    in files of their own, linked from the cell that holds them), or turned into the
    nested map that the JSON and XML serialisers write out.  Writing a file is modelled
    as the list of (path, content) pairs the exporter writes, in the order it writes
    them; the text of a number is the parameter `fmt`. */
module Export {
  import opened Wrappers
  import opened Tables
  import opened Utils

  /** One `writeToFile(content, path)` call. */
  datatype Written = Written(path: string, content: string)

  /** What a walk over rows or over the columns of one row has produced so far: the files
      written by nested exports and the text pieces (lines or cells) in order. */
  datatype Output = Output(files: seq<Written>, pieces: seq<string>)

  // ---------------------------------------------------------------------------
  // Row count

  /** The size of the longest column, 0 for a table without columns. */
  function MaxRows(cols: seq<Column>): (r: nat)
    ensures forall k :: 0 <= k < |cols| ==> |cols[k].rows| <= r
    ensures |cols| == 0 ==> r == 0
    ensures |cols| > 0 ==> exists k :: 0 <= k < |cols| && |cols[k].rows| == r
  {
    if |cols| == 0 then 0
    else
      var m := MaxRows(cols[..|cols| - 1]);
      var last := |cols[|cols| - 1].rows|;
      assert forall k :: 0 <= k < |cols| - 1 ==> cols[..|cols| - 1][k] == cols[k];
      if last > m then last else m
  }

  /** `getMaxRows`: a running maximum over the columns. */
  method GetMaxRows(t: Table) returns (m: nat)
    ensures m == MaxRows(t.columns)
  {
    m := 0;
    for i := 0 to |t.columns|
      invariant m == MaxRows(t.columns[..i])
    {
      assert t.columns[..i + 1][..i] == t.columns[..i];
      var size := |t.columns[i].rows|;
      m := if m < size then size else m;
    }
    assert t.columns[..|t.columns|] == t.columns;
  }

  /** The base exporter's own `export()`: it refuses. */
  method ExportUnimplemented() returns (o: Outcome)
    ensures o.Fail? && Message(o.error) == "Export Error: Export method not implemented!"
  {
    o := Fail(ExportError("Export method not implemented!"));
  }

  // ---------------------------------------------------------------------------
  // The text of a cell, as `StringBuilder.append(Object)` writes it

  /** `toString` of a value read from a document: lists as `[a, b]`, maps as `{k=v}`. */
  function ValueText(v: Value, fmt: real -> string): string
  {
    match v
    case VNum(n) => fmt(n)
    case VStr(s) => s
    case VBool(b) => if b then "true" else "false"
    case VNull => "null"
    case VList(items) =>
      "[" + Join(seq(|items|, i requires 0 <= i < |items| => ValueText(items[i], fmt)), ", ") + "]"
    case VMap(entries) =>
      "{" + Join(seq(|entries|, i requires 0 <= i < |entries| =>
        entries[i].0 + "=" + ValueText(entries[i].1, fmt)), ", ") + "}"
  }

  /** The text of a cell that is not a nested table. */
  function CellText(c: Cell, fmt: real -> string): string
    requires !c.Tab?
  {
    match c
    case Num(n) => fmt(n)
    case Str(s) => s
    case Bool(b) => if b then "true" else "false"
    case Null => "null"
    case ListV(items) => ValueText(VList(items), fmt)
  }

  // ---------------------------------------------------------------------------
  // CSV

  function ColumnNames(cols: seq<Column>): (r: seq<string>)
    ensures |r| == |cols| && forall k :: 0 <= k < |cols| ==> r[k] == cols[k].name
  {
    seq(|cols|, k requires 0 <= k < |cols| => cols[k].name)
  }

  /** The header line: the column names separated by commas. */
  function CsvHeader(cols: seq<Column>): string
  {
    Join(ColumnNames(cols), ",") + "\n"
  }

  /** What the CSV exporter derives from a file path for the nested tables of its
      table: the path without its extension, where their files go, and the file name
      without its extension, which their links show. */
  datatype CsvPlace = CsvPlace(stem: string, link: string)

  function CsvPlaceOf(filePath: string): CsvPlace
  {
    CsvPlace(OrNull(RemoveExtension(Some(filePath))), OrNull(ExtractFileName(Some(filePath))))
  }

  /** Where a nested table of column `name` is written, and the link text its cell gets. */
  function CsvNestedPath(p: CsvPlace, name: string): string
  {
    p.stem + "-" + name + ".csv"
  }

  function CsvNestedLink(p: CsvPlace, name: string): string
  {
    p.link + "-" + name + ".csv"
  }

  /** The field column `c` contributes to line `row`: nothing past its end, the link for a
      nested table, the cell's text otherwise (no quoting). */
  function CsvField(c: Column, row: nat, p: CsvPlace, fmt: real -> string): string
  {
    if row >= |c.rows| then ""
    else if c.rows[row].Tab? then CsvNestedLink(p, c.name)
    else CellText(c.rows[row], fmt)
  }

  /** `CSVExporter.export`: the files written for `t` at `filePath`, nested tables' files
      first, in the order their cells are met, and `t`'s own file last.  A table without
      columns makes the header's `setLength(-1)` throw. */
  function CsvFiles(t: Table, filePath: string, fmt: real -> string): (r: Result<seq<Written>>)
    ensures |t.columns| == 0 ==> r == Err(RuntimeFailure)
    ensures r.Ok? ==> |r.value| >= 1 && r.value[|r.value| - 1].path == filePath
    decreases t, 2, 0
  {
    if |t.columns| == 0 then Err(RuntimeFailure)
    else
      var body :- CsvRows(t, CsvPlaceOf(filePath), fmt, MaxRows(t.columns));
      Ok(body.files + [Written(filePath, CsvHeader(t.columns) + Concat(body.pieces))])
  }

  /** The first `n` data lines of `t`'s file, with the files their nested tables write. */
  function CsvRows(t: Table, p: CsvPlace, fmt: real -> string, n: nat): (r: Result<Output>)
    ensures r.Ok? ==> |r.value.pieces| == n
    decreases t, 1, n
  {
    if n == 0 then Ok(Output([], []))
    else
      var prev :- CsvRows(t, p, fmt, n - 1);
      var line :- CsvFields(t, p, fmt, n - 1, |t.columns|);
      Ok(Output(prev.files + line.files, prev.pieces + [Join(line.pieces, ",") + "\n"]))
  }

  /** The fields of the first `j` columns on line `row`, exporting each nested table met. */
  function CsvFields(t: Table, p: CsvPlace, fmt: real -> string, row: nat, j: nat): (r: Result<Output>)
    requires j <= |t.columns|
    ensures r.Ok? ==> |r.value.pieces| == j
    decreases t, 0, j
  {
    if j == 0 then Ok(Output([], []))
    else
      var prev :- CsvFields(t, p, fmt, row, j - 1);
      var c := t.columns[j - 1];
      var field := CsvField(c, row, p, fmt);
      if row < |c.rows| && c.rows[row].Tab? then
        assert c in t.columns && c.rows[row] in c.rows;
        var nested :- CsvNested(c.rows[row].t, p, c.name, fmt);
        Ok(Output(prev.files + nested, prev.pieces + [field]))
      else Ok(Output(prev.files, prev.pieces + [field]))
  }

  /** The files a nested table of column `name` writes. */
  function CsvNested(t: Table, p: CsvPlace, name: string, fmt: real -> string): (r: Result<seq<Written>>)
    decreases t, 3
  {
    CsvFiles(t, CsvNestedPath(p, name), fmt)
  }

  /** The fields of line `row`, one per column. */
  function CsvLineFields(t: Table, p: CsvPlace, fmt: real -> string, row: nat): (r: seq<string>)
    ensures |r| == |t.columns|
  {
    seq(|t.columns|, k requires 0 <= k < |t.columns| => CsvField(t.columns[k], row, p, fmt))
  }

  /** A successful field walk holds each column's field in column order. */
  lemma {:induction false} CsvFieldsPieces(t: Table, p: CsvPlace, fmt: real -> string, row: nat, j: nat)
    requires j <= |t.columns| && CsvFields(t, p, fmt, row, j).Ok?
    ensures CsvFields(t, p, fmt, row, j).value.pieces == CsvLineFields(t, p, fmt, row)[..j]
  {
    if j > 0 {
      CsvFieldsPieces(t, p, fmt, row, j - 1);
    }
  }

  /** Line `row` of a successful walk is the join of that row's fields. */
  lemma {:induction false} CsvRowsLine(t: Table, p: CsvPlace, fmt: real -> string, n: nat, row: nat)
    requires CsvRows(t, p, fmt, n).Ok? && row < n
    ensures CsvFields(t, p, fmt, row, |t.columns|).Ok?
    ensures CsvRows(t, p, fmt, n).value.pieces[row] ==
      Join(CsvFields(t, p, fmt, row, |t.columns|).value.pieces, ",") + "\n"
  {
    if row < n - 1 {
      CsvRowsLine(t, p, fmt, n - 1, row);
    }
  }

  /** A CSV line reads back as its fields, one per column in column order, exactly when
      no field holds a comma: the exporter does no quoting. */
  lemma CsvLineRoundTrip(t: Table, p: CsvPlace, fmt: real -> string, n: nat, row: nat)
    requires CsvRows(t, p, fmt, n).Ok? && row < n && |t.columns| > 0
    requires forall k :: 0 <= k < |t.columns| ==> ',' !in CsvField(t.columns[k], row, p, fmt)
    ensures var line := CsvRows(t, p, fmt, n).value.pieces[row];
      |line| >= 1 && line[|line| - 1] == '\n' &&
      Split(line[..|line| - 1], ',') == CsvLineFields(t, p, fmt, row)
  {
    CsvRowsLine(t, p, fmt, n, row);
    var fields := CsvFields(t, p, fmt, row, |t.columns|).value.pieces;
    CsvFieldsPieces(t, p, fmt, row, |t.columns|);
    assert fields == CsvLineFields(t, p, fmt, row);
    var line := CsvRows(t, p, fmt, n).value.pieces[row];
    assert line[..|line| - 1] == Join(fields, ",");
    JoinSplit(fields, ',');
  }

  /** The header line reads back as the column names when no name holds a comma. */
  lemma CsvHeaderRoundTrip(cols: seq<Column>)
    requires |cols| > 0
    requires forall k :: 0 <= k < |cols| ==> ',' !in cols[k].name
    ensures var h := CsvHeader(cols);
      h[|h| - 1] == '\n' && Split(h[..|h| - 1], ',') == ColumnNames(cols)
  {
    var h := CsvHeader(cols);
    assert h[..|h| - 1] == Join(ColumnNames(cols), ",");
    JoinSplit(ColumnNames(cols), ',');
  }

  /** No cell of `t` itself holds a nested table. */
  predicate Flat(t: Table)
  {
    forall k, i :: 0 <= k < |t.columns| && 0 <= i < |t.columns[k].rows| ==> !t.columns[k].rows[i].Tab?
  }

  lemma {:induction false} CsvFieldsFlat(t: Table, p: CsvPlace, fmt: real -> string, row: nat, j: nat)
    requires Flat(t) && j <= |t.columns|
    ensures CsvFields(t, p, fmt, row, j).Ok? && CsvFields(t, p, fmt, row, j).value.files == []
  {
    if j > 0 {
      CsvFieldsFlat(t, p, fmt, row, j - 1);
    }
  }

  lemma {:induction false} CsvRowsFlat(t: Table, p: CsvPlace, fmt: real -> string, n: nat)
    requires Flat(t)
    ensures CsvRows(t, p, fmt, n).Ok? && CsvRows(t, p, fmt, n).value.files == []
  {
    if n > 0 {
      CsvRowsFlat(t, p, fmt, n - 1);
      CsvFieldsFlat(t, p, fmt, n - 1, |t.columns|);
    }
  }

  /** A table with columns and no nested table is written as exactly one file, at the
      given path, whose text is the header followed by one line per row of the longest
      column. */
  lemma CsvFlatTable(t: Table, filePath: string, fmt: real -> string)
    requires Flat(t) && |t.columns| > 0
    ensures var r := CsvFiles(t, filePath, fmt);
      r.Ok? && |r.value| == 1 && r.value[0].path == filePath &&
      r.value[0].content ==
        CsvHeader(t.columns) + Concat(CsvRows(t, CsvPlaceOf(filePath), fmt, MaxRows(t.columns)).value.pieces)
  {
    CsvRowsFlat(t, CsvPlaceOf(filePath), fmt, MaxRows(t.columns));
  }

  /** A failed walk stays failed one line further. */
  lemma CsvRowsErrStep(t: Table, p: CsvPlace, fmt: real -> string, n: nat)
    requires CsvRows(t, p, fmt, n).Err?
    ensures CsvRows(t, p, fmt, n + 1) == CsvRows(t, p, fmt, n)
  {
  }

  /** Once a line fails, the lines after it do not matter: the walk fails the same way. */
  lemma CsvRowsPrefixErr(t: Table, p: CsvPlace, fmt: real -> string, i: nat, n: nat)
    requires i <= n && CsvRows(t, p, fmt, i).Err?
    ensures CsvRows(t, p, fmt, n) == CsvRows(t, p, fmt, i)
  {
    var k := i;
    while k < n
      invariant i <= k <= n && CsvRows(t, p, fmt, k) == CsvRows(t, p, fmt, i)
    {
      CsvRowsErrStep(t, p, fmt, k);
      k := k + 1;
    }
  }

  lemma {:induction false} CsvFieldsPrefixErr(t: Table, p: CsvPlace, fmt: real -> string, row: nat, i: nat, j: nat)
    requires i <= j <= |t.columns| && CsvFields(t, p, fmt, row, i).Err?
    ensures CsvFields(t, p, fmt, row, j) == CsvFields(t, p, fmt, row, i)
    decreases j - i
  {
    if i < j {
      CsvFieldsPrefixErr(t, p, fmt, row, i, j - 1);
    }
  }

  /** A line that fails fails the walk. */
  lemma CsvRowsLineErr(t: Table, p: CsvPlace, fmt: real -> string, n: nat)
    requires CsvRows(t, p, fmt, n).Ok? && CsvFields(t, p, fmt, n, |t.columns|).Err?
    ensures CsvRows(t, p, fmt, n + 1) == Err(CsvFields(t, p, fmt, n, |t.columns|).error)
  {
  }

  /** With columns, the file list is the walk's files and then `t`'s own file. */
  lemma CsvFilesOfRows(t: Table, filePath: string, fmt: real -> string)
    requires |t.columns| > 0
    ensures var body := CsvRows(t, CsvPlaceOf(filePath), fmt, MaxRows(t.columns));
      CsvFiles(t, filePath, fmt) ==
        if body.Err? then Err(body.error)
        else Ok(body.value.files + [Written(filePath, CsvHeader(t.columns) + Concat(body.value.pieces))])
  {
  }

  /** The walk one line further, given what line `n` gives. */
  lemma CsvRowsNext(t: Table, p: CsvPlace, fmt: real -> string, n: nat, lineFiles: Result<seq<Written>>, line: string)
    requires CsvRows(t, p, fmt, n).Ok?
    requires var spec := CsvFields(t, p, fmt, n, |t.columns|);
      (lineFiles.Ok? <==> spec.Ok?) && (lineFiles.Err? ==> lineFiles.error == spec.error) &&
      (lineFiles.Ok? ==> lineFiles.value == spec.value.files && line == Join(spec.value.pieces, ",") + "\n")
    ensures lineFiles.Err? ==> CsvRows(t, p, fmt, n + 1) == Err(lineFiles.error)
    ensures lineFiles.Ok? ==> (CsvRows(t, p, fmt, n + 1) ==
      Ok(Output(CsvRows(t, p, fmt, n).value.files + lineFiles.value, CsvRows(t, p, fmt, n).value.pieces + [line])))
  {
  }

  /** The files one cell of a line writes: those of its nested table, if it holds one. */
  function CsvCellFiles(c: Column, row: nat, p: CsvPlace, fmt: real -> string): Result<seq<Written>>
  {
    if row < |c.rows| && c.rows[row].Tab? then CsvNested(c.rows[row].t, p, c.name, fmt)
    else Ok([])
  }

  /** The field walk one column further, given what that column's cell gives. */
  lemma CsvFieldsNext(t: Table, p: CsvPlace, fmt: real -> string, row: nat, j: nat,
                      cellFiles: Result<seq<Written>>, field: string)
    requires j < |t.columns| && CsvFields(t, p, fmt, row, j).Ok?
    requires field == CsvField(t.columns[j], row, p, fmt)
    requires cellFiles == CsvCellFiles(t.columns[j], row, p, fmt)
    ensures cellFiles.Err? ==> CsvFields(t, p, fmt, row, j + 1) == Err(cellFiles.error)
    ensures cellFiles.Ok? ==> (CsvFields(t, p, fmt, row, j + 1) ==
      Ok(Output(CsvFields(t, p, fmt, row, j).value.files + cellFiles.value,
                CsvFields(t, p, fmt, row, j).value.pieces + [field])))
  {
    var prev := CsvFields(t, p, fmt, row, j).value;
    assert prev.files + [] == prev.files;
  }

  /** The header loop of `CSVExporter.export`: each name and a comma, then the last
      character cut, which throws when nothing was written. */
  method CsvHeaderLine(cols: seq<Column>) returns (r: Result<string>)
    ensures |cols| == 0 ==> r == Err(RuntimeFailure)
    ensures |cols| > 0 ==> r == Ok(CsvHeader(cols))
  {
    var names := ColumnNames(cols);
    var sb := "";
    for j := 0 to |cols|
      invariant sb == Terminated(names[..j], ",")
    {
      assert names[..j + 1][..j] == names[..j];
      sb := sb + cols[j].name + ",";
    }
    assert names[..|cols|] == names;
    TerminatedJoin(names, ",");
    if |sb| == 0 {
      return Err(RuntimeFailure);
    }
    r := Ok(sb[..|sb| - 1] + "\n");
  }

  /** `CSVExporter.export` as the Java code runs it: a header loop that appends each name
      and a comma and then cuts the last character, a running maximum of the column sizes,
      and a line per row, exporting every nested table as it is met. */
  method CsvExport(t: Table, filePath: string, fmt: real -> string) returns (r: Result<seq<Written>>)
    ensures r == CsvFiles(t, filePath, fmt)
    decreases t, 3
  {
    var header := CsvHeaderLine(t.columns);
    if header.Err? {
      return Err(header.error);
    }
    var maxRows := GetMaxRows(t);
    var body, sb := CsvLines(t, CsvPlaceOf(filePath), fmt, maxRows, header.value);
    CsvFilesOfRows(t, filePath, fmt);
    if body.Err? {
      return Err(body.error);
    }
    r := Ok(body.value + [Written(filePath, sb)]);
  }

  /** The row loop of `CSVExporter.export`: the first `n` lines appended to `sb`, with the
      files their nested tables write. */
  method CsvLines(t: Table, p: CsvPlace, fmt: real -> string, n: nat, sb0: string)
      returns (r: Result<seq<Written>>, sb: string)
    requires |t.columns| > 0
    ensures var spec := CsvRows(t, p, fmt, n);
      (r.Ok? <==> spec.Ok?) && (r.Err? ==> r.error == spec.error) &&
      (r.Ok? ==> r.value == spec.value.files && sb == sb0 + Concat(spec.value.pieces))
    decreases t, 2
  {
    sb := sb0;
    var files: seq<Written> := [];
    ghost var lines: seq<string> := [];
    for row := 0 to n
      invariant CsvRows(t, p, fmt, row) == Ok(Output(files, lines))
      invariant sb == sb0 + Concat(lines)
    {
      var lineFiles, line := CsvLine(t, p, fmt, row);
      CsvRowsNext(t, p, fmt, row, lineFiles, line);
      if lineFiles.Err? {
        CsvRowsPrefixErr(t, p, fmt, row + 1, n);
        return Err(lineFiles.error), sb;
      }
      ConcatSnoc(lines, line);
      sb := sb + line;
      files := files + lineFiles.value;
      lines := lines + [line];
    }
    r := Ok(files);
  }

  /** The inner loop of `CSVExporter.export`: line `row`, each field followed by a comma
      and the last comma cut, with the files of the nested tables exported on the way. */
  method CsvLine(t: Table, p: CsvPlace, fmt: real -> string, row: nat)
      returns (r: Result<seq<Written>>, line: string)
    requires |t.columns| > 0
    ensures var spec := CsvFields(t, p, fmt, row, |t.columns|);
      (r.Ok? <==> spec.Ok?) &&
      (r.Err? ==> r.error == spec.error) &&
      (r.Ok? ==> r.value == spec.value.files && line == Join(spec.value.pieces, ",") + "\n")
    decreases t, 1
  {
    line := "";
    var lineFiles: seq<Written> := [];
    ghost var fields: seq<string> := [];
    for j := 0 to |t.columns|
      invariant CsvFields(t, p, fmt, row, j) == Ok(Output(lineFiles, fields))
      invariant line == Terminated(fields, ",")
    {
      var cellFiles, field := CsvCell(t, j, p, fmt, row);
      CsvFieldsNext(t, p, fmt, row, j, cellFiles, field);
      if cellFiles.Err? {
        CsvFieldsPrefixErr(t, p, fmt, row, j + 1, |t.columns|);
        return Err(cellFiles.error), line;
      }
      lineFiles := lineFiles + cellFiles.value;
      line := line + field + ",";
      fields := fields + [field];
      assert fields[..j] == fields[..|fields| - 1];
    }
    TerminatedJoin(fields, ",");
    line := line[..|line| - 1] + "\n";
    r := Ok(lineFiles);
  }

  /** One cell of the inner loop: a nested table is exported and linked, any other cell
      written as its text. */
  method CsvCell(t: Table, j: nat, p: CsvPlace, fmt: real -> string, row: nat)
      returns (files: Result<seq<Written>>, field: string)
    requires j < |t.columns|
    ensures field == CsvField(t.columns[j], row, p, fmt)
    ensures files == CsvCellFiles(t.columns[j], row, p, fmt)
    decreases t, 0
  {
    var c := t.columns[j];
    files := Ok([]);
    field := "";
    if row < |c.rows| {
      if c.rows[row].Tab? {
        assert c in t.columns && c.rows[row] in c.rows;
        files := CsvExport(c.rows[row].t, CsvNestedPath(p, c.name), fmt);
        field := CsvNestedLink(p, c.name);
      } else {
        field := CellText(c.rows[row], fmt);
      }
    }
  }

  // ---------------------------------------------------------------------------
  // HTML

  /** The style sheet every page embeds. */
  function Css(): string
  {
    "        table {\n" +
    "            width: 100%;\n" +
    "            border-collapse: collapse;\n" +
    "        }\n" +
    "        th, td {\n" +
    "            border: 1px solid #dddddd;\n" +
    "            text-align: left;\n" +
    "            padding: 8px;\n" +
    "        }\n" +
    "        th {\n" +
    "            background-color: #f2f2f2;\n" +
    "        }\n"
  }

  /** Everything before the first table row: the document head and the page title. */
  function HtmlHeader(tableName: string): string
  {
    "<!DOCTYPE html>\n" +
    "<html lang=\"en\">\n" +
    "<head>\n" +
    "    <meta charset=\"UTF-8\">\n" +
    "    <meta name=\"viewport\" content=\"width=device-width, initial-scale=1.0\">\n" +
    "    <title>Table: " + tableName + "</title>\n" +
    "    <style>\n" + Css() + "    </style>\n" +
    "</head>\n" +
    "<body>\n" +
    "    <h1>Table: " + tableName + "</h1>\n" +
    "    <table>\n"
  }

  const HtmlFooter: string := "    </table>\n</body>\n</html>"

  /** The line that opens a table row, and the one that closes it. */
  const RowOpen: string := "        <tr>\n"
  const RowClose: string := "        </tr>\n"

  function HeaderCell(name: string): string
  {
    "            <th>" + name + "</th>\n"
  }

  function DataCell(text: string): string
  {
    "            <td>" + text + "</td>\n"
  }

  /** The heading row: one `th` per column, in column order. */
  function HeadingRow(cols: seq<Column>): string
  {
    RowOpen + Concat(seq(|cols|, k requires 0 <= k < |cols| => HeaderCell(cols[k].name))) + RowClose
  }

  /** `String.replace(c, rep)` for a one-character target. */
  function ReplaceChar(s: string, c: char, rep: string): (r: string)
  {
    if |s| == 0 then ""
    else (if s[0] == c then rep else [s[0]]) + ReplaceChar(s[1..], c, rep)
  }

  /** The escaping applied to each item of a list cell: `<` first, then `>`. */
  function Escape(s: string): string
  {
    ReplaceChar(ReplaceChar(s, '<', "&lt;"), '>', "&gt;")
  }

  lemma {:induction false} ReplaceCharRemoves(s: string, c: char, rep: string, d: char)
    requires c !in rep && (d == c || (d !in s && d !in rep))
    ensures d !in ReplaceChar(s, c, rep)
  {
    if |s| > 0 {
      assert s[1..] == s[1..];
      if d != c {
        assert forall k :: 0 <= k < |s[1..]| ==> s[1..][k] == s[k + 1];
      }
      ReplaceCharRemoves(s[1..], c, rep, d);
    }
  }

  lemma {:induction false} ReplaceCharAbsent(s: string, c: char, rep: string)
    requires c !in s
    ensures ReplaceChar(s, c, rep) == s
  {
    if |s| > 0 {
      assert forall k :: 0 <= k < |s[1..]| ==> s[1..][k] == s[k + 1];
      ReplaceCharAbsent(s[1..], c, rep);
      assert [s[0]] + s[1..] == s;
    }
  }

  /** An escaped item can no longer open or close a tag, and an item without angle
      brackets is left as it is. */
  lemma EscapeClean(s: string)
    ensures '<' !in Escape(s) && '>' !in Escape(s)
    ensures '<' !in s && '>' !in s ==> Escape(s) == s
  {
    var once := ReplaceChar(s, '<', "&lt;");
    ReplaceCharRemoves(s, '<', "&lt;", '<');
    ReplaceCharRemoves(once, '>', "&gt;", '>');
    ReplaceCharRemoves(once, '>', "&gt;", '<');
    if '<' !in s && '>' !in s {
      ReplaceCharAbsent(s, '<', "&lt;");
      ReplaceCharAbsent(s, '>', "&gt;");
    }
  }

  /** A list cell: each item's `toString`, escaped, joined by ", ". */
  function ListText(items: seq<Value>, fmt: real -> string): string
  {
    Join(seq(|items|, i requires 0 <= i < |items| => Escape(ValueText(items[i], fmt))), ", ")
  }

  /** The row suffix of a nested table's name: only a column of several rows numbers
      them. */
  function RowId(c: Column, row: nat): string
  {
    if |c.rows| > 1 then "-" + NatToString(row) else ""
  }

  /** The title of the page of the nested table in row `row` of column `c`, the path it is
      written to, and the link to it from the cell. */
  function HtmlNestedName(tableName: Option<string>, c: Column, row: nat): string
  {
    OrNull(tableName) + "-" + c.name + RowId(c, row)
  }

  function HtmlNestedPath(filePath: string, c: Column, row: nat): string
  {
    OrNull(RemoveExtension(Some(filePath))) + "-" + c.name + RowId(c, row) + ".html"
  }

  function HtmlNestedLink(filePath: string, c: Column, row: nat): string
  {
    OrNull(ExtractFileName(Some(filePath))) + "-" + c.name + RowId(c, row) + ".html"
  }

  /** The text between `<td>` and `</td>` for column `c` on row `row`.  A list holding a
      `null` item fails: `Object::toString` is called on it. */
  function HtmlCellText(c: Column, row: nat, tableName: Option<string>, filePath: string, fmt: real -> string): (r: Result<string>)
    ensures r.Err? <==> (row < |c.rows| && c.rows[row].ListV? && VNull in c.rows[row].items)
    ensures r.Err? ==> r.error == RuntimeFailure
    ensures r.Ok? && row < |c.rows| && c.rows[row].ListV? ==> '<' !in r.value && '>' !in r.value
  {
    if row >= |c.rows| then Ok("")
    else match c.rows[row]
      case Tab(_) =>
        Ok("<a href='" + HtmlNestedLink(filePath, c, row) + "'>" + HtmlNestedName(tableName, c, row) + "</a>")
      case ListV(items) =>
        if VNull in items then Err(RuntimeFailure)
        else
          var r := ListText(items, fmt);
          ListTextClean(items, fmt);
          Ok(r)
      case _ => Ok(CellText(c.rows[row], fmt))
  }

  /** Escaped items joined by ", " hold no angle bracket. */
  lemma ListTextClean(items: seq<Value>, fmt: real -> string)
    ensures '<' !in ListText(items, fmt) && '>' !in ListText(items, fmt)
  {
    var parts := seq(|items|, i requires 0 <= i < |items| => Escape(ValueText(items[i], fmt)));
    forall i | 0 <= i < |items| {
      EscapeClean(ValueText(items[i], fmt));
    }
    JoinClean(parts, ", ", '<');
    JoinClean(parts, ", ", '>');
  }

  lemma {:induction false} JoinClean(parts: seq<string>, sep: string, c: char)
    requires c !in sep && forall k :: 0 <= k < |parts| ==> c !in parts[k]
    ensures c !in Join(parts, sep)
  {
    if |parts| > 1 {
      JoinClean(parts[1..], sep, c);
    }
  }

  /** How a page is laid out: the line that starts every data row, and the text before
      the heading row, given the page title.  The source writes `RowClose` as that line;
      `RowOpen` is what the page structure calls for.  Its head is always `HtmlHeader`:
      keeping it a value lets the walk below be reasoned about without that text. */
  datatype Layout = Layout(open: string, head: string -> string)

  /** `HTMLExporter.export` under layout `l`: the files written for `t`, nested tables'
      pages first, in the order their cells are met, and `t`'s own page last. */
  function HtmlFilesWith(l: Layout, t: Table, tableName: Option<string>, filePath: string, fmt: real -> string): (r: Result<seq<Written>>)
    ensures r.Ok? ==> |r.value| >= 1 && r.value[|r.value| - 1].path == filePath
    decreases t, 2, 0
  {
    var body :- HtmlRows(l, t, tableName, filePath, fmt, MaxRows(t.columns));
    Ok(body.files + [Written(filePath, HtmlPage(l, t, tableName, body.pieces))])
  }

  /** A page around its data rows. */
  function HtmlPage(l: Layout, t: Table, tableName: Option<string>, rows: seq<string>): string
  {
    l.head(OrNull(tableName)) + HeadingRow(t.columns) + Concat(rows) + HtmlFooter
  }

  /** The first `n` data rows of `t`'s page, with the pages of their nested tables. */
  function HtmlRows(l: Layout, t: Table, tableName: Option<string>, filePath: string, fmt: real -> string, n: nat): (r: Result<Output>)
    ensures r.Ok? ==> |r.value.pieces| == n
    decreases t, 1, n
  {
    if n == 0 then Ok(Output([], []))
    else
      var prev :- HtmlRows(l, t, tableName, filePath, fmt, n - 1);
      var cells :- HtmlRowCells(l, t, tableName, filePath, fmt, n - 1);
      Ok(Output(prev.files + cells.files, prev.pieces + [l.open + Concat(cells.pieces) + RowClose]))
  }

  /** The `td` lines of row `row`. */
  function HtmlRowCells(l: Layout, t: Table, tableName: Option<string>, filePath: string, fmt: real -> string, row: nat): Result<Output>
    decreases t, 0, |t.columns| + 1
  {
    HtmlCells(l, t, tableName, filePath, fmt, row, |t.columns|)
  }

  /** The `td` lines of the first `j` columns on row `row`, exporting each nested table
      met. */
  function HtmlCells(l: Layout, t: Table, tableName: Option<string>, filePath: string, fmt: real -> string, row: nat, j: nat): (r: Result<Output>)
    requires j <= |t.columns|
    ensures r.Ok? ==> |r.value.pieces| == j
    decreases t, 0, j
  {
    if j == 0 then Ok(Output([], []))
    else
      var prev :- HtmlCells(l, t, tableName, filePath, fmt, row, j - 1);
      var cell :- HtmlCellOut(l, t, tableName, filePath, fmt, row, j - 1);
      Ok(Output(prev.files + cell.0, prev.pieces + [DataCell(cell.1)]))
  }

  /** What column `j` gives on row `row`: a nested table's pages are exported first and
      its cell links to them; any other cell gives its text and no page. */
  function HtmlCellOut(l: Layout, t: Table, tableName: Option<string>, filePath: string, fmt: real -> string, row: nat, j: nat): Result<(seq<Written>, string)>
    requires j < |t.columns|
    decreases t, 0, j
  {
    var c := t.columns[j];
    if row < |c.rows| && c.rows[row].Tab? then
      assert c in t.columns && c.rows[row] in c.rows;
      var nested :- HtmlNested(l, c.rows[row].t, tableName, filePath, c, row, fmt);
      Ok((nested, HtmlCellText(c, row, tableName, filePath, fmt).value))
    else
      var text :- HtmlCellText(c, row, tableName, filePath, fmt);
      Ok(([], text))
  }

  /** The pages of the nested table in row `row` of column `c`. */
  function HtmlNested(l: Layout, t: Table, tableName: Option<string>, filePath: string, c: Column, row: nat, fmt: real -> string): Result<seq<Written>>
    decreases t, 3
  {
    HtmlFilesWith(l, t, Some(HtmlNestedName(tableName, c, row)), HtmlNestedPath(filePath, c, row), fmt)
  }

  /** The cell walk one column further, given what that column's cell gives. */
  lemma HtmlCellsNext(l: Layout, t: Table, tableName: Option<string>, filePath: string, fmt: real -> string, row: nat, j: nat,
                      cell: Result<(seq<Written>, string)>)
    requires j < |t.columns| && HtmlCells(l, t, tableName, filePath, fmt, row, j).Ok?
    requires cell == HtmlCellOut(l, t, tableName, filePath, fmt, row, j)
    ensures cell.Err? ==> HtmlCells(l, t, tableName, filePath, fmt, row, j + 1) == Err(cell.error)
    ensures cell.Ok? ==> (HtmlCells(l, t, tableName, filePath, fmt, row, j + 1) ==
      Ok(Output(HtmlCells(l, t, tableName, filePath, fmt, row, j).value.files + cell.value.0,
                HtmlCells(l, t, tableName, filePath, fmt, row, j).value.pieces + [DataCell(cell.value.1)])))
  {
  }

  /** Cell `k` of a successful row is the `td` line of column `k`'s text. */
  lemma {:induction false} HtmlCellsContent(l: Layout, t: Table, tableName: Option<string>, filePath: string, fmt: real -> string, row: nat, j: nat, k: nat)
    requires j <= |t.columns| && HtmlCells(l, t, tableName, filePath, fmt, row, j).Ok? && k < j
    ensures HtmlCellText(t.columns[k], row, tableName, filePath, fmt).Ok?
    ensures HtmlCells(l, t, tableName, filePath, fmt, row, j).value.pieces[k] ==
      DataCell(HtmlCellText(t.columns[k], row, tableName, filePath, fmt).value)
  {
    var prev := HtmlCells(l, t, tableName, filePath, fmt, row, j - 1);
    assert prev.Ok?;
    var c := t.columns[j - 1];
    var text := HtmlCellText(c, row, tableName, filePath, fmt);
    assert text.Ok?;
    assert HtmlCells(l, t, tableName, filePath, fmt, row, j).value.pieces == prev.value.pieces + [DataCell(text.value)];
    if k < j - 1 {
      HtmlCellsContent(l, t, tableName, filePath, fmt, row, j - 1, k);
    }
  }

  /** The pages as the source writes them: every data row opens with `</tr>`. */
  function HtmlFilesAsWritten(t: Table, tableName: Option<string>, filePath: string, fmt: real -> string): Result<seq<Written>>
  {
    HtmlFilesWith(Layout(RowClose, HtmlHeader), t, tableName, filePath, fmt)
  }

  /** The pages with each data row opened by `<tr>`. */
  function HtmlFiles(t: Table, tableName: Option<string>, filePath: string, fmt: real -> string): Result<seq<Written>>
  {
    HtmlFilesWith(Layout(RowOpen, HtmlHeader), t, tableName, filePath, fmt)
  }

  /** Row `row` of a successful walk is the opening line, that row's cells, and the closing line. */
  lemma {:induction false} HtmlRowsRow(l: Layout, t: Table, tableName: Option<string>, filePath: string, fmt: real -> string, n: nat, row: nat)
    requires HtmlRows(l, t, tableName, filePath, fmt, n).Ok? && row < n
    ensures HtmlRowCells(l, t, tableName, filePath, fmt, row).Ok?
    ensures HtmlRows(l, t, tableName, filePath, fmt, n).value.pieces[row] ==
      l.open + Concat(HtmlRowCells(l, t, tableName, filePath, fmt, row).value.pieces) + RowClose
  {
    var prev := HtmlRows(l, t, tableName, filePath, fmt, n - 1);
    var cells := HtmlRowCells(l, t, tableName, filePath, fmt, n - 1);
    assert prev.Ok? && cells.Ok?;
    assert HtmlRows(l, t, tableName, filePath, fmt, n).value.pieces ==
      prev.value.pieces + [l.open + Concat(cells.value.pieces) + RowClose];
    if row < n - 1 {
      HtmlRowsRow(l, t, tableName, filePath, fmt, n - 1, row);
    }
  }

  /** Wrapped in `<tr>` and `</tr>` lines. */
  predicate IsTableRow(s: string)
  {
    |s| >= |RowOpen| + |RowClose| && s[..|RowOpen|] == RowOpen && s[|s| - |RowClose|..] == RowClose
  }

  /** With `<tr>` opening the data rows, every data row of a page is a table row. */
  lemma HtmlRowsAreTableRows(l: Layout, t: Table, tableName: Option<string>, filePath: string, fmt: real -> string, n: nat, row: nat)
    requires l.open == RowOpen
    requires HtmlRows(l, t, tableName, filePath, fmt, n).Ok? && row < n
    ensures IsTableRow(HtmlRows(l, t, tableName, filePath, fmt, n).value.pieces[row])
  {
    HtmlRowsRow(l, t, tableName, filePath, fmt, n, row);
  }

  /** As the source writes it, no data row is a table row: each starts by closing one. */
  lemma HtmlRowsAsWrittenUnopened(l: Layout, t: Table, tableName: Option<string>, filePath: string, fmt: real -> string, n: nat, row: nat)
    requires l.open == RowClose
    requires HtmlRows(l, t, tableName, filePath, fmt, n).Ok? && row < n
    ensures !IsTableRow(HtmlRows(l, t, tableName, filePath, fmt, n).value.pieces[row])
  {
    HtmlRowsRow(l, t, tableName, filePath, fmt, n, row);
    var s := HtmlRows(l, t, tableName, filePath, fmt, n).value.pieces[row];
    assert s[9] == '/';
    assert RowOpen[9] == 't';
  }

  /** Texts with the same surroundings are equal only when their middles are. */
  lemma CancelAround(p: string, x: string, y: string, q: string)
    requires p + x + q == p + y + q
    ensures x == y
  {
    assert |x| == |y|;
    assert x == (p + x + q)[|p|..|p| + |x|];
    assert y == (p + y + q)[|p|..|p| + |y|];
  }

  /** Different rows have different decimal suffixes. */
  lemma RowIdDistinct(c: Column, r1: nat, r2: nat)
    requires |c.rows| > 1 && r1 != r2
    ensures RowId(c, r1) == "-" + NatToString(r1) && RowId(c, r2) == "-" + NatToString(r2)
    ensures NatToString(r1) != NatToString(r2)
  {
    if NatToString(r1) == NatToString(r2) {
      NatToStringInjective(r1, r2);
    }
  }

  /** Pages of different rows of a column of several rows have different titles, ... */
  lemma HtmlNestedNamesDistinct(tableName: Option<string>, c: Column, r1: nat, r2: nat)
    requires |c.rows| > 1 && r1 != r2
    ensures HtmlNestedName(tableName, c, r1) != HtmlNestedName(tableName, c, r2)
  {
    RowIdDistinct(c, r1, r2);
    var pre := OrNull(tableName) + "-" + c.name;
    CancelPrefix(pre, RowId(c, r1), RowId(c, r2));
    CancelPrefix("-", NatToString(r1), NatToString(r2));
  }

  lemma CancelPrefix(p: string, x: string, y: string)
    ensures p + x == p + y ==> x == y
  {
    if p + x == p + y {
      assert x == (p + x)[|p|..];
    }
  }

  /** ... and different paths, so no nested page overwrites another from the same
      column. */
  lemma HtmlNestedPathsDistinct(filePath: string, c: Column, r1: nat, r2: nat)
    requires |c.rows| > 1 && r1 != r2
    ensures HtmlNestedPath(filePath, c, r1) != HtmlNestedPath(filePath, c, r2)
  {
    RowIdDistinct(c, r1, r2);
    var pp := OrNull(RemoveExtension(Some(filePath))) + "-" + c.name + "-";
    assert HtmlNestedPath(filePath, c, r1) == pp + NatToString(r1) + ".html";
    assert HtmlNestedPath(filePath, c, r2) == pp + NatToString(r2) + ".html";
    if pp + NatToString(r1) + ".html" == pp + NatToString(r2) + ".html" {
      CancelAround(pp, NatToString(r1), NatToString(r2), ".html");
    }
  }

  /** A failed row walk stays failed one row further. */
  lemma HtmlRowsErrStep(l: Layout, t: Table, tableName: Option<string>, filePath: string, fmt: real -> string, n: nat)
    requires HtmlRows(l, t, tableName, filePath, fmt, n).Err?
    ensures HtmlRows(l, t, tableName, filePath, fmt, n + 1) == HtmlRows(l, t, tableName, filePath, fmt, n)
  {
  }

  /** Once a row fails, the rows after it do not matter: the page fails the same way. */
  lemma HtmlRowsPrefixErr(l: Layout, t: Table, tableName: Option<string>, filePath: string, fmt: real -> string, i: nat, n: nat)
    requires i <= n && HtmlRows(l, t, tableName, filePath, fmt, i).Err?
    ensures HtmlRows(l, t, tableName, filePath, fmt, n) == HtmlRows(l, t, tableName, filePath, fmt, i)
  {
    var k := i;
    while k < n
      invariant i <= k <= n && HtmlRows(l, t, tableName, filePath, fmt, k) == HtmlRows(l, t, tableName, filePath, fmt, i)
    {
      HtmlRowsErrStep(l, t, tableName, filePath, fmt, k);
      k := k + 1;
    }
  }

  /** A failed cell walk stays failed one column further. */
  lemma HtmlCellsErrStep(l: Layout, t: Table, tableName: Option<string>, filePath: string, fmt: real -> string, row: nat, j: nat)
    requires j < |t.columns| && HtmlCells(l, t, tableName, filePath, fmt, row, j).Err?
    ensures HtmlCells(l, t, tableName, filePath, fmt, row, j + 1) == HtmlCells(l, t, tableName, filePath, fmt, row, j)
  {
  }

  /** Once a cell fails, the cells after it do not matter: the row fails the same way. */
  lemma HtmlCellsPrefixErr(l: Layout, t: Table, tableName: Option<string>, filePath: string, fmt: real -> string, row: nat, i: nat, j: nat)
    requires i <= j <= |t.columns| && HtmlCells(l, t, tableName, filePath, fmt, row, i).Err?
    ensures HtmlCells(l, t, tableName, filePath, fmt, row, j) == HtmlCells(l, t, tableName, filePath, fmt, row, i)
  {
    var k := i;
    while k < j
      invariant i <= k <= j && HtmlCells(l, t, tableName, filePath, fmt, row, k) == HtmlCells(l, t, tableName, filePath, fmt, row, i)
    {
      HtmlCellsErrStep(l, t, tableName, filePath, fmt, row, k);
      k := k + 1;
    }
  }

  /** The row walk one row further, given what row `n` gives. */
  lemma HtmlRowsNext(l: Layout, t: Table, tableName: Option<string>, filePath: string, fmt: real -> string, n: nat,
                     cellFiles: Result<seq<Written>>, line: string)
    requires HtmlRows(l, t, tableName, filePath, fmt, n).Ok?
    requires var spec := HtmlRowCells(l, t, tableName, filePath, fmt, n);
      (cellFiles.Ok? <==> spec.Ok?) && (cellFiles.Err? ==> cellFiles.error == spec.error) &&
      (cellFiles.Ok? ==> cellFiles.value == spec.value.files && line == l.open + Concat(spec.value.pieces) + RowClose)
    ensures cellFiles.Err? ==> HtmlRows(l, t, tableName, filePath, fmt, n + 1) == Err(cellFiles.error)
    ensures cellFiles.Ok? ==> (HtmlRows(l, t, tableName, filePath, fmt, n + 1) ==
      Ok(Output(HtmlRows(l, t, tableName, filePath, fmt, n).value.files + cellFiles.value,
                HtmlRows(l, t, tableName, filePath, fmt, n).value.pieces + [line])))
  {
  }

  /** One step of the cell loop: a failing cell fails the whole row, and a successful one
      extends the walk and the text by its `td` line. */
  lemma HtmlCellsAdvance(l: Layout, t: Table, tableName: Option<string>, filePath: string, fmt: real -> string, row: nat, j: nat,
                         cellFiles: seq<Written>, pieces: seq<string>, cells: string, cell: Result<(seq<Written>, string)>)
    requires j < |t.columns|
    requires HtmlCells(l, t, tableName, filePath, fmt, row, j) == Ok(Output(cellFiles, pieces)) && cells == Concat(pieces)
    requires cell == HtmlCellOut(l, t, tableName, filePath, fmt, row, j)
    ensures cell.Err? ==> HtmlRowCells(l, t, tableName, filePath, fmt, row) == Err(cell.error)
    ensures cell.Ok? ==>
      (HtmlCells(l, t, tableName, filePath, fmt, row, j + 1) == Ok(Output(cellFiles + cell.value.0, pieces + [DataCell(cell.value.1)])) &&
       cells + DataCell(cell.value.1) == Concat(pieces + [DataCell(cell.value.1)]))
  {
    HtmlCellsNext(l, t, tableName, filePath, fmt, row, j, cell);
    if cell.Err? {
      HtmlCellsPrefixErr(l, t, tableName, filePath, fmt, row, j + 1, |t.columns|);
    } else {
      ConcatSnoc(pieces, DataCell(cell.value.1));
    }
  }

  /** One step of the row loop: a failing row fails the page, and a successful one
      extends the walk and the page text by its line. */
  lemma HtmlRowsAdvance(l: Layout, t: Table, tableName: Option<string>, filePath: string, fmt: real -> string, row: nat, n: nat,
                        files: seq<Written>, lines: seq<string>, sb0: string, sb: string, cellFiles: Result<seq<Written>>, line: string)
    requires row < n
    requires HtmlRows(l, t, tableName, filePath, fmt, row) == Ok(Output(files, lines)) && sb == sb0 + Concat(lines)
    requires var spec := HtmlRowCells(l, t, tableName, filePath, fmt, row);
      (cellFiles.Ok? <==> spec.Ok?) && (cellFiles.Err? ==> cellFiles.error == spec.error) &&
      (cellFiles.Ok? ==> cellFiles.value == spec.value.files && line == l.open + Concat(spec.value.pieces) + RowClose)
    ensures cellFiles.Err? ==> HtmlRows(l, t, tableName, filePath, fmt, n) == Err(cellFiles.error)
    ensures cellFiles.Ok? ==>
      (HtmlRows(l, t, tableName, filePath, fmt, row + 1) == Ok(Output(files + cellFiles.value, lines + [line])) &&
       sb + line == sb0 + Concat(lines + [line]))
  {
    HtmlRowsNext(l, t, tableName, filePath, fmt, row, cellFiles, line);
    if cellFiles.Err? {
      HtmlRowsPrefixErr(l, t, tableName, filePath, fmt, row + 1, n);
    } else {
      ConcatSnoc(lines, line);
    }
  }

  /** `HTMLExporter.export` with each data row opened by `<tr>`: the source writes
      `</tr>` there, which `HtmlFilesAsWritten` keeps, and every other line is as the
      source writes it. */
  method HtmlExport(t: Table, tableName: Option<string>, filePath: string, fmt: real -> string) returns (r: Result<seq<Written>>)
    ensures r == HtmlFiles(t, tableName, filePath, fmt)
  {
    r := HtmlExportWith(Layout(RowOpen, HtmlHeader), t, tableName, filePath, fmt);
  }

  /** The export under layout `l`: the head, a heading loop,
      a running maximum of the column sizes, and a row per index, exporting every nested
      table, under the same layout, as it is met. */
  method HtmlExportWith(l: Layout, t: Table, tableName: Option<string>, filePath: string, fmt: real -> string)
      returns (r: Result<seq<Written>>)
    ensures r == HtmlFilesWith(l, t, tableName, filePath, fmt)
    decreases t, 3
  {
    var heading := HtmlHeading(t.columns);
    var head := l.head(OrNull(tableName)) + heading;
    var maxRows := GetMaxRows(t);
    var body, sb := HtmlBody(l, t, tableName, filePath, fmt, maxRows, head);
    if body.Err? {
      return Err(body.error);
    }
    sb := sb + HtmlFooter;
    assert sb == HtmlPage(l, t, tableName, HtmlRows(l, t, tableName, filePath, fmt, maxRows).value.pieces);
    r := Ok(body.value + [Written(filePath, sb)]);
  }

  /** The row loop of `HTMLExporter.export`: the first `n` data rows appended to `sb`,
      with the pages their nested tables write. */
  method HtmlBody(l: Layout, t: Table, tableName: Option<string>, filePath: string, fmt: real -> string, n: nat, sb0: string)
      returns (r: Result<seq<Written>>, sb: string)
    ensures var spec := HtmlRows(l, t, tableName, filePath, fmt, n);
      (r.Ok? <==> spec.Ok?) && (r.Err? ==> r.error == spec.error) &&
      (r.Ok? ==> r.value == spec.value.files && sb == sb0 + Concat(spec.value.pieces))
    decreases t, 2
  {
    sb := sb0;
    var files: seq<Written> := [];
    ghost var lines: seq<string> := [];
    for row := 0 to n
      invariant HtmlRows(l, t, tableName, filePath, fmt, row) == Ok(Output(files, lines))
      invariant sb == sb0 + Concat(lines)
    {
      var cellFiles, cells := HtmlLine(l, t, tableName, filePath, fmt, row);
      var line := l.open + cells + RowClose;
      HtmlRowsAdvance(l, t, tableName, filePath, fmt, row, n, files, lines, sb0, sb, cellFiles, line);
      if cellFiles.Err? {
        return Err(cellFiles.error), sb;
      }
      sb := sb + line;
      files := files + cellFiles.value;
      lines := lines + [line];
    }
    r := Ok(files);
  }

  /** The heading loop: a `th` line per column between the row's opening and closing
      lines. */
  method HtmlHeading(cols: seq<Column>) returns (s: string)
    ensures s == HeadingRow(cols)
  {
    ghost var ths := seq(|cols|, k requires 0 <= k < |cols| => HeaderCell(cols[k].name));
    s := RowOpen;
    for j := 0 to |cols|
      invariant s == RowOpen + Concat(ths[..j])
    {
      assert ths[..j + 1] == ths[..j] + [HeaderCell(cols[j].name)];
      ConcatSnoc(ths[..j], HeaderCell(cols[j].name));
      s := s + "            <th>" + cols[j].name + "</th>\n";
    }
    assert ths[..|cols|] == ths;
    s := s + RowClose;
  }

  /** The inner loop of `HTMLExporter.export`: the `td` lines of row `row`, with the pages
      of the nested tables exported on the way. */
  method HtmlLine(l: Layout, t: Table, tableName: Option<string>, filePath: string, fmt: real -> string, row: nat)
      returns (r: Result<seq<Written>>, cells: string)
    ensures var spec := HtmlRowCells(l, t, tableName, filePath, fmt, row);
      (r.Ok? <==> spec.Ok?) &&
      (r.Err? ==> r.error == spec.error) &&
      (r.Ok? ==> r.value == spec.value.files && cells == Concat(spec.value.pieces))
    decreases t, 1
  {
    cells := "";
    var cellFiles: seq<Written> := [];
    ghost var pieces: seq<string> := [];
    for j := 0 to |t.columns|
      invariant HtmlCells(l, t, tableName, filePath, fmt, row, j) == Ok(Output(cellFiles, pieces))
      invariant cells == Concat(pieces)
    {
      var cell := HtmlCell(l, t, j, tableName, filePath, fmt, row);
      HtmlCellsAdvance(l, t, tableName, filePath, fmt, row, j, cellFiles, pieces, cells, cell);
      if cell.Err? {
        return Err(cell.error), cells;
      }
      cellFiles := cellFiles + cell.value.0;
      cells := cells + DataCell(cell.value.1);
      pieces := pieces + [DataCell(cell.value.1)];
    }
    r := Ok(cellFiles);
  }

  /** One cell of the inner loop: a nested table's pages are exported first, then the
      cell's text is made, which is not reached when the export fails. */
  method HtmlCell(l: Layout, t: Table, j: nat, tableName: Option<string>, filePath: string, fmt: real -> string, row: nat)
      returns (r: Result<(seq<Written>, string)>)
    requires j < |t.columns|
    ensures r == HtmlCellOut(l, t, tableName, filePath, fmt, row, j)
    decreases t, 0
  {
    var c := t.columns[j];
    var files: seq<Written> := [];
    if row < |c.rows| && c.rows[row].Tab? {
      assert c in t.columns && c.rows[row] in c.rows;
      var nested := HtmlExportWith(l, c.rows[row].t, Some(HtmlNestedName(tableName, c, row)), HtmlNestedPath(filePath, c, row), fmt);
      if nested.Err? {
        return Err(nested.error);
      }
      files := nested.value;
    }
    var text := HtmlCellText(c, row, tableName, filePath, fmt);
    if text.Err? {
      return Err(text.error);
    }
    r := Ok((files, text.value));
  }

  // ---------------------------------------------------------------------------
  // JSON and XML: the nested map handed to the serialiser

  /** What `mapCreator` builds: a cell as it is, a list of elements, or a map from column
      names. */
  datatype Tree = Leaf(cell: Cell) | Items(elems: seq<Tree>) | Object(fields: map<string, Tree>)

  /** `mapCreator`: each column name mapped to its value; a later column of the same name
      replaces an earlier one. */
  function MapOf(t: Table): (m: map<string, Tree>)
    decreases t, 3, 0
  {
    ColumnsMap(t, |t.columns|)
  }

  /** The map after the first `j` columns. */
  function ColumnsMap(t: Table, j: nat): (m: map<string, Tree>)
    requires j <= |t.columns|
    decreases t, 2, j
  {
    if j == 0 then map[]
    else ColumnsMap(t, j - 1)[t.columns[j - 1].name := ColumnValue(t, j - 1)]
  }

  /** A column's value: its only element when it has one row, otherwise the list of all
      its elements in row order (empty for an empty column). */
  function ColumnValue(t: Table, i: nat): (v: Tree)
    requires i < |t.columns|
    ensures |t.columns[i].rows| == 1 ==> v == Element(t, i, 0)
    ensures |t.columns[i].rows| != 1 ==>
      v.Items? && |v.elems| == |t.columns[i].rows| &&
      forall n :: 0 <= n < |t.columns[i].rows| ==> v.elems[n] == Element(t, i, n)
    decreases t, 1, 0
  {
    var es := Elements(t, i, |t.columns[i].rows|);
    if |es| == 1 then es[0] else Items(es)
  }

  /** The element of one row: a nested table becomes its own map. */
  function Element(t: Table, i: nat, k: nat): Tree
    requires i < |t.columns| && k < |t.columns[i].rows|
    decreases t, 0, 0
  {
    var cell := t.columns[i].rows[k];
    if cell.Tab? then
      assert t.columns[i] in t.columns && cell in t.columns[i].rows;
      Object(MapOf(cell.t))
    else Leaf(cell)
  }

  /** The elements of the first `k` rows of column `i`, in row order. */
  function Elements(t: Table, i: nat, k: nat): (es: seq<Tree>)
    requires i < |t.columns| && k <= |t.columns[i].rows|
    ensures |es| == k
    ensures forall n :: 0 <= n < k ==> es[n] == Element(t, i, n)
    decreases t, 0, k + 1
  {
    if k == 0 then [] else Elements(t, i, k - 1) + [Element(t, i, k - 1)]
  }

  /** Every column name is a key, and nothing else is. */
  lemma {:induction false} ColumnsMapKeys(t: Table, j: nat)
    requires j <= |t.columns|
    ensures ColumnsMap(t, j).Keys == set k | 0 <= k < j :: t.columns[k].name
  {
    if j > 0 {
      ColumnsMapKeys(t, j - 1);
      assert (set k | 0 <= k < j :: t.columns[k].name) ==
        (set k | 0 <= k < j - 1 :: t.columns[k].name) + {t.columns[j - 1].name};
    }
  }

  /** The value under a name is the value of the last column of that name. */
  lemma {:induction false} ColumnsMapLast(t: Table, j: nat, i: nat)
    requires i < j <= |t.columns|
    requires forall k :: i < k < j ==> t.columns[k].name != t.columns[i].name
    ensures t.columns[i].name in ColumnsMap(t, j)
    ensures ColumnsMap(t, j)[t.columns[i].name] == ColumnValue(t, i)
  {
    if i < j - 1 {
      ColumnsMapLast(t, j - 1, i);
    }
  }

  /** The keys of `mapCreator`'s map are exactly the column names, and each name holds the
      value of its last column: earlier columns of the same name are lost. */
  lemma MapOfColumns(t: Table)
    ensures MapOf(t).Keys == set k | 0 <= k < |t.columns| :: t.columns[k].name
    ensures forall i :: 0 <= i < |t.columns| && (forall k :: i < k < |t.columns| ==> t.columns[k].name != t.columns[i].name) ==>
      MapOf(t)[t.columns[i].name] == ColumnValue(t, i)
  {
    ColumnsMapKeys(t, |t.columns|);
    forall i | 0 <= i < |t.columns| && (forall k :: i < k < |t.columns| ==> t.columns[k].name != t.columns[i].name)
      ensures MapOf(t)[t.columns[i].name] == ColumnValue(t, i)
    {
      ColumnsMapLast(t, |t.columns|, i);
    }
  }

  /** `JSONExporter.mapCreator` (and the identical `XMLExporter.mapCreator`) as the Java
      code runs it: a loop over the columns that fills a map, an inner loop that collects
      each column's elements, and a recursive call for every nested table. */
  method MapCreator(t: Table) returns (m: map<string, Tree>)
    ensures m == MapOf(t)
    decreases t, 1
  {
    m := map[];
    for j := 0 to |t.columns|
      invariant m == ColumnsMap(t, j)
    {
      var value := ColumnElements(t, j);
      m := m[t.columns[j].name := value];
    }
  }

  /** The inner loop of `mapCreator`: the elements of column `i`, then the one element
      or the list. */
  method ColumnElements(t: Table, i: nat) returns (v: Tree)
    requires i < |t.columns|
    ensures v == ColumnValue(t, i)
    decreases t, 0
  {
    var rows := t.columns[i].rows;
    var elements: seq<Tree> := [];
    for k := 0 to |rows|
      invariant elements == Elements(t, i, k)
    {
      var e: Tree;
      if rows[k].Tab? {
        assert t.columns[i] in t.columns && rows[k] in rows;
        var sub := MapCreator(rows[k].t);
        e := Object(sub);
      } else {
        e := Leaf(rows[k]);
      }
      elements := elements + [e];
    }
    v := if |elements| == 1 then elements[0] else Items(elements);
  }

  /** `XMLExporter.export`'s document: one root entry, under the table's name, holding the
      table's map. */
  method XmlDocument(t: Table) returns (doc: map<Option<string>, Tree>)
    ensures doc.Keys == {t.name} && doc[t.name] == Object(MapOf(t))
  {
    var data := MapCreator(t);
    doc := map[t.name := Object(data)];
  }

  // ---------------------------------------------------------------------------
  // Choosing the exporter

  datatype Format = Csv | Html | Json | Xml

  /** What an export produced: the text files written, or the map handed to the JSON or
      XML serialiser. */
  datatype Exported = Pages(files: seq<Written>) | JsonMap(json: map<string, Tree>) | XmlMap(xml: map<Option<string>, Tree>)

  /** The `switch` of `assemble` on the extension: a `null` extension throws, an unknown
      one is refused with its name. */
  function FormatOf(ext: Option<string>): (r: Result<Format>)
    ensures ext.None? ==> r == Err(RuntimeFailure)
    ensures r.Ok? <==> ext.Some? && ext.value in {"csv", "html", "json", "xml"}
    ensures ext.Some? && r.Err? ==> r.error == ExportError("Unknown export extension: " + ext.value)
    ensures r == Ok(Csv) <==> ext == Some("csv")
    ensures r == Ok(Html) <==> ext == Some("html")
    ensures r == Ok(Json) <==> ext == Some("json")
    ensures r == Ok(Xml) <==> ext == Some("xml")
  {
    match ext
    case None => Err(RuntimeFailure)
    case Some(e) =>
      if e == "csv" then Ok(Csv)
      else if e == "html" then Ok(Html)
      else if e == "json" then Ok(Json)
      else if e == "xml" then Ok(Xml)
      else Err(ExportError("Unknown export extension: " + e))
  }

  /** `assemble(path)`: the table exported in the format its path's extension names (HTML data rows
      opened by `<tr>`, see `HtmlFiles`). */
  function Assembled(t: Table, path: Option<string>, fmt: real -> string): (r: Result<Exported>)
    ensures FormatOf(GetExtension(path)).Err? ==> r == Err(FormatOf(GetExtension(path)).error)
    ensures r.Ok? ==> FormatOf(GetExtension(path)).Ok?
  {
    var f :- FormatOf(GetExtension(path));
    match f
    case Csv => var files :- CsvFiles(t, path.value, fmt); Ok(Pages(files))
    case Html => var files :- HtmlFiles(t, t.name, path.value, fmt); Ok(Pages(files))
    case Json => Ok(JsonMap(MapOf(t)))
    case Xml => Ok(XmlMap(map[t.name := Object(MapOf(t))]))
  }

  /** The export step of `assemble`: the exporter the format names, run on the table. */
  method ExportTo(t: Table, path: Option<string>, fmt: real -> string) returns (r: Result<Exported>)
    ensures r == Assembled(t, path, fmt)
  {
    var ext := GetExtension(path);
    var f := FormatOf(ext);
    if f.Err? {
      return Err(f.error);
    }
    match f.value {
      case Csv =>
        var files := CsvExport(t, path.value, fmt);
        if files.Err? {
          return Err(files.error);
        }
        r := Ok(Pages(files.value));
      case Html =>
        var files := HtmlExport(t, t.name, path.value, fmt);
        if files.Err? {
          return Err(files.error);
        }
        r := Ok(Pages(files.value));
      case Json =>
        var m := MapCreator(t);
        r := Ok(JsonMap(m));
      case Xml =>
        var doc := XmlDocument(t);
        assert doc == map[t.name := Object(MapOf(t))];
        r := Ok(XmlMap(doc));
    }
  }

  /** A `.csv` path with its extension in any case writes a table that has columns and no
      nested table as exactly one file, at that path. */
  lemma AssembleFlatCsv(t: Table, path: string, fmt: real -> string)
    requires Flat(t) && |t.columns| > 0 && GetExtension(Some(path)) == Some("csv")
    ensures Assembled(t, Some(path), fmt).Ok?
    ensures Assembled(t, Some(path), fmt).value.Pages? && |Assembled(t, Some(path), fmt).value.files| == 1
    ensures Assembled(t, Some(path), fmt).value.files[0].path == path
  {
    CsvFlatTable(t, path, fmt);
  }
}
