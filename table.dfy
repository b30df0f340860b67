/** The data model of the engine as values: a table is an optional name and an ordered
    list of named columns, and a column holds an ordered list of cells.  A cell is a
    number, a string, a boolean, Java's `null`, a raw list taken from a document, or a
    nested table. */
module Tables {
  import opened Wrappers

  /** A value read from a JSON, YAML or XML document. */
  datatype Value =
    | VNum(n: real)
    | VStr(s: string)
    | VBool(b: bool)
    | VNull
    | VList(items: seq<Value>)
    | VMap(entries: seq<(string, Value)>)

  datatype Cell =
    | Num(n: real)
    | Str(s: string)
    | Bool(b: bool)
    | Null
    | ListV(items: seq<Value>)
    | Tab(t: Table)

  datatype Column = Column(name: string, rows: seq<Cell>)

  datatype Table = Table(name: Option<string>, columns: seq<Column>)

  // ---------------------------------------------------------------------------
  // Looking columns up by name

  /** The position of the first column called `n` (`getColumn` scans in order and
      returns the first match). */
  function FindColumn(cols: seq<Column>, n: string): (r: Option<nat>)
    ensures r.Some? ==> r.value < |cols| && cols[r.value].name == n
    ensures r.Some? ==> forall j :: 0 <= j < r.value ==> cols[j].name != n
    ensures r.None? <==> forall j :: 0 <= j < |cols| ==> cols[j].name != n
  {
    if |cols| == 0 then None
    else if cols[0].name == n then Some(0)
    else match FindColumn(cols[1..], n)
      case None => None
      case Some(k) => Some(k + 1)
  }

  /** `getColumn`: the first column with that name, or `null`. */
  function GetColumn(cols: seq<Column>, n: string): (r: Option<Column>)
    ensures r.None? <==> (forall j :: 0 <= j < |cols| ==> cols[j].name != n)
    ensures r.Some? ==> r.value in cols && r.value.name == n
    ensures r.Some? ==>
      exists i :: 0 <= i < |cols| && cols[i] == r.value && (forall j :: 0 <= j < i ==> cols[j].name != n)
  {
    match FindColumn(cols, n)
    case None => None
    case Some(i) => Some(cols[i])
  }

  /** Whoever scans the columns in order and stops at the first name match finds the
      column `FindColumn` names. */
  lemma FirstMatchIsFound(cols: seq<Column>, n: string, i: nat)
    requires i < |cols| && cols[i].name == n
    requires forall j :: 0 <= j < i ==> cols[j].name != n
    ensures FindColumn(cols, n) == Some(i)
  {
  }

  // ---------------------------------------------------------------------------
  // The column-list edits the table's mutators perform

  /** `addColumn(column, insertAtStart)`. */
  function AddedColumn(cols: seq<Column>, c: Column, atStart: bool): (r: seq<Column>)
    ensures |r| == |cols| + 1
    ensures multiset(r) == multiset(cols) + multiset{c}
    ensures atStart ==> r[0] == c && r[1..] == cols
    ensures !atStart ==> r[|cols|] == c && r[..|cols|] == cols
  {
    if atStart then [c] + cols else cols + [c]
  }

  /** `appendToColumn`: the first column of that name gets one more row. */
  function AppendedToColumn(cols: seq<Column>, n: string, v: Cell): seq<Column>
  {
    match FindColumn(cols, n)
    case None => cols
    case Some(i) => cols[i := Column(n, cols[i].rows + [v])]
  }

  /** Appending changes exactly the first column of that name, by one trailing row, and
      does nothing when the name is missing. */
  lemma AppendedToColumnEffect(cols: seq<Column>, n: string, v: Cell)
    ensures var r := AppendedToColumn(cols, n, v);
      |r| == |cols| &&
      (forall j :: 0 <= j < |cols| ==> r[j].name == cols[j].name) &&
      (FindColumn(cols, n).None? ==> r == cols) &&
      (FindColumn(cols, n).Some? ==>
        var i := FindColumn(cols, n).value;
        r[i].rows == cols[i].rows + [v] &&
        forall j :: 0 <= j < |cols| && j != i ==> r[j] == cols[j])
  {
  }

  /** `renameColumn` once the column is known to be at position `i`. */
  function RenamedColumn(cols: seq<Column>, i: nat, newName: string): (r: seq<Column>)
    requires i < |cols|
    ensures |r| == |cols| && r[i].name == newName && r[i].rows == cols[i].rows
    ensures forall j :: 0 <= j < |cols| && j != i ==> r[j] == cols[j]
  {
    cols[i := Column(newName, cols[i].rows)]
  }

  /** `remove` once the column is known to be at position `i`. */
  function RemovedColumn(cols: seq<Column>, i: nat): (r: seq<Column>)
    requires i < |cols|
    ensures |r| == |cols| - 1
    ensures multiset(r) + multiset{cols[i]} == multiset(cols)
  {
    assert cols == cols[..i] + [cols[i]] + cols[i + 1..];
    cols[..i] + cols[i + 1..]
  }

  /** After a rename the new name is found at the renamed position or before it, and the
      renamed column keeps its rows. */
  lemma RenameThenFind(cols: seq<Column>, oldName: string, newName: string)
    requires FindColumn(cols, oldName).Some?
    ensures var i := FindColumn(cols, oldName).value;
      var f := FindColumn(RenamedColumn(cols, i, newName), newName);
      f.Some? && f.value <= i && (f.value == i ==> RenamedColumn(cols, i, newName)[i].rows == cols[i].rows)
  {
    var i := FindColumn(cols, oldName).value;
    var r := RenamedColumn(cols, i, newName);
    assert r[i].name == newName;
  }

  /** Removing a column drops its first occurrence: the columns before it and after it
      keep their order. */
  lemma RemoveKeepsOthers(cols: seq<Column>, n: string)
    requires FindColumn(cols, n).Some?
    ensures var i := FindColumn(cols, n).value;
      var r := RemovedColumn(cols, i);
      r[..i] == cols[..i] && r[i..] == cols[i + 1..] &&
      forall j :: 0 <= j < i ==> r[j].name != n
  {
  }

  // ---------------------------------------------------------------------------
  // Nested tables along a path of column names

  /** The nested tables held in `rows`, in row order. */
  function TablesIn(rows: seq<Cell>): (r: seq<Table>)
    ensures |r| <= |rows|
    ensures forall k :: 0 <= k < |r| ==> Tab(r[k]) in rows
  {
    if |rows| == 0 then []
    else if rows[|rows| - 1].Tab? then TablesIn(rows[..|rows| - 1]) + [rows[|rows| - 1].t]
    else TablesIn(rows[..|rows| - 1])
  }

  /** `getSubTables(directory)`: the table itself for an empty path; `null` when the first
      name is not a column; otherwise the sub-tables reached from every nested table of
      that column, in row order.  A deeper name that is missing makes the Java code add a
      `null` list and fail. */
  function SubTables(t: Table, path: seq<string>): (r: Result<Option<seq<Table>>>)
    ensures r.Err? ==> r.error == RuntimeFailure
    ensures r == Ok(None) <==> (|path| > 0 && FindColumn(t.columns, path[0]).None?)
    decreases |path|, 0
  {
    if |path| == 0 then Ok(Some([t]))
    else match FindColumn(t.columns, path[0])
      case None => Ok(None)
      case Some(i) =>
        match SubTablesOfRows(t.columns[i].rows, path[1..])
        case Err(e) => Err(e)
        case Ok(ts) => Ok(Some(ts))
  }

  /** The sub-tables along `rest` of every nested table in `rows`. */
  function SubTablesOfRows(rows: seq<Cell>, rest: seq<string>): (r: Result<seq<Table>>)
    ensures r.Err? ==> r.error == RuntimeFailure
    decreases |rest|, |rows|
  {
    if |rows| == 0 then Ok([])
    else match SubTablesOfRows(rows[..|rows| - 1], rest)
      case Err(e) => Err(e)
      case Ok(acc) =>
        var last := rows[|rows| - 1];
        if !last.Tab? then Ok(acc)
        else match SubTables(last.t, rest)
          case Err(e) => Err(e)
          case Ok(None) => Err(RuntimeFailure)
          case Ok(Some(ts)) => Ok(acc + ts)
  }

  /** With nothing left of the path, each nested table of the rows is itself a result. */
  lemma {:induction false} SubTablesOfRowsAtEnd(rows: seq<Cell>)
    ensures SubTablesOfRows(rows, []) == Ok(TablesIn(rows))
  {
    if |rows| > 0 {
      SubTablesOfRowsAtEnd(rows[..|rows| - 1]);
    }
  }

  /** A one-name path yields exactly the nested tables of the first column of that name,
      in row order. */
  lemma SubTablesOneStep(t: Table, n: string)
    ensures FindColumn(t.columns, n).None? ==> SubTables(t, [n]) == Ok(None)
    ensures FindColumn(t.columns, n).Some? ==>
      SubTables(t, [n]) == Ok(Some(TablesIn(t.columns[FindColumn(t.columns, n).value].rows)))
  {
    if FindColumn(t.columns, n).Some? {
      var rows := t.columns[FindColumn(t.columns, n).value].rows;
      assert [n][1..] == [];
      SubTablesOfRowsAtEnd(rows);
      assert SubTablesOfRows(rows, [n][1..]) == Ok(TablesIn(rows));
    }
  }

  /** A row list without nested tables contributes nothing, whatever the rest of the path. */
  lemma {:induction false} FlatRowsGiveNothing(rows: seq<Cell>, rest: seq<string>)
    requires forall k :: 0 <= k < |rows| ==> !rows[k].Tab?
    ensures SubTablesOfRows(rows, rest) == Ok([])
  {
    if |rows| > 0 {
      FlatRowsGiveNothing(rows[..|rows| - 1], rest);
    }
  }
}
