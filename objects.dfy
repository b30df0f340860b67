/** The mutable `Table` and `Column` objects.  The builders keep a table object and change
    it in place; its columns are values of `Tables`. */
module TableObjects {
  import opened Wrappers
  import opened Tables

  class TableObject {
    var name: Option<string>
    var columns: seq<Column>

    /** `Table()`, `Table(name)` and `Table(name, columns)`. */
    constructor(name: Option<string>, columns: seq<Column>)
      ensures this.name == name && this.columns == columns
    {
      this.name := name;
      this.columns := columns;
    }

    /** The table as a value, as the exporters and the selection read it. */
    function Value(): Table
      reads this
    {
      Table(name, columns)
    }

    method SetName(n: Option<string>)
      modifies this
      ensures name == n && columns == old(columns)
    {
      name := n;
    }

    /** `addColumn(column, insertAtStart)`; `addColumn(column)` appends. */
    method AddColumn(c: Column, atStart: bool)
      modifies this
      ensures columns == AddedColumn(old(columns), c, atStart) && name == old(name)
    {
      if atStart {
        columns := [c] + columns;
      } else {
        columns := columns + [c];
      }
    }

    method SetColumns(cs: seq<Column>)
      modifies this
      ensures columns == cs && name == old(name)
    {
      columns := cs;
    }

    method AppendColumns(cs: seq<Column>)
      modifies this
      ensures columns == old(columns) + cs && name == old(name)
    {
      columns := columns + cs;
    }

    /** `getColumn`: scans the columns in order and returns the first with that name. */
    method GetColumn(n: string) returns (c: Option<Column>)
      ensures c.None? <==> (forall j :: 0 <= j < |columns| ==> columns[j].name != n)
      ensures c.Some? ==> FindColumn(columns, n).Some? && c.value == columns[FindColumn(columns, n).value]
    {
      var i := 0;
      while i < |columns|
        invariant 0 <= i <= |columns|
        invariant forall j :: 0 <= j < i ==> columns[j].name != n
      {
        if columns[i].name == n {
          FirstMatchIsFound(columns, n, i);
          return Some(columns[i]);
        }
        i := i + 1;
      }
      return None;
    }

    /** `appendToColumn`: adds the value to the first column of that name and reports
        whether there was one. */
    method AppendToColumn(n: string, v: Cell) returns (found: bool)
      modifies this
      ensures found <==> FindColumn(old(columns), n).Some?
      ensures columns == AppendedToColumn(old(columns), n, v) && name == old(name)
    {
      var i := 0;
      while i < |columns|
        invariant 0 <= i <= |columns|
        invariant forall j :: 0 <= j < i ==> columns[j].name != n
      {
        if columns[i].name == n {
          FirstMatchIsFound(columns, n, i);
          columns := columns[i := Column(n, columns[i].rows + [v])];
          return true;
        }
        i := i + 1;
      }
      return false;
    }

    /** `checkColumn`: the column, or an OperationException naming it. */
    method CheckColumn(n: string) returns (r: Result<Column>)
      ensures r.Err? <==> FindColumn(columns, n).None?
      ensures r.Err? ==> r.error == OperationError("Column " + n + " doesn't exist")
      ensures r.Ok? ==> r.value == columns[FindColumn(columns, n).value]
    {
      var c := GetColumn(n);
      if c.None? {
        return Err(OperationError("Column " + n + " doesn't exist"));
      }
      return Ok(c.value);
    }

    /** `renameColumn`: renames the first column of the old name; fails when it is missing. */
    method RenameColumn(oldName: string, newName: string) returns (o: Outcome)
      modifies this
      ensures o.Fail? <==> FindColumn(old(columns), oldName).None?
      ensures o.Fail? ==> o.error == OperationError("Column " + oldName + " doesn't exist") && columns == old(columns)
      ensures o.Pass? ==> columns == RenamedColumn(old(columns), FindColumn(old(columns), oldName).value, newName)
      ensures name == old(name)
    {
      var check := CheckColumn(oldName);
      if check.Err? {
        return Fail(check.error);
      }
      var i := 0;
      while i < |columns|
        invariant 0 <= i <= |columns|
        invariant forall j :: 0 <= j < i ==> columns[j].name != oldName
      {
        if columns[i].name == oldName {
          FirstMatchIsFound(columns, oldName, i);
          columns := columns[i := Column(newName, columns[i].rows)];
          return Pass;
        }
        i := i + 1;
      }
      assert false;
    }

    /** `remove`: drops the first column of that name; fails when it is missing. */
    method Remove(n: string) returns (o: Outcome)
      modifies this
      ensures o.Fail? <==> FindColumn(old(columns), n).None?
      ensures o.Fail? ==> o.error == OperationError("Column " + n + " doesn't exist") && columns == old(columns)
      ensures o.Pass? ==> columns == RemovedColumn(old(columns), FindColumn(old(columns), n).value)
      ensures name == old(name)
    {
      var check := CheckColumn(n);
      if check.Err? {
        return Fail(check.error);
      }
      var i := FindColumn(columns, n).value;
      columns := columns[..i] + columns[i + 1..];
      return Pass;
    }
  }

  class ColumnObject {
    var name: string
    var rows: seq<Cell>

    /** `Column(name)` and `Column(name, rows)`. */
    constructor(name: string, rows: seq<Cell>)
      ensures this.name == name && this.rows == rows
    {
      this.name := name;
      this.rows := rows;
    }

    function Value(): Column
      reads this
    {
      Column(name, rows)
    }

    method SetName(n: string)
      modifies this
      ensures name == n && rows == old(rows)
    {
      name := n;
    }

    method SetRows(r: seq<Cell>)
      modifies this
      ensures rows == r && name == old(name)
    {
      rows := r;
    }

    method AddRow(v: Cell)
      modifies this
      ensures rows == old(rows) + [v] && name == old(name)
    {
      rows := rows + [v];
    }

    /** `getValueAttribute(index)`: the row, `null` past the end, and an index error for a
        negative index. */
    method GetValueAttribute(index: int) returns (r: Result<Cell>)
      ensures index < 0 <==> r.Err?
      ensures 0 <= index < |rows| ==> r == Ok(rows[index])
      ensures index >= |rows| ==> r == Ok(Null)
    {
      if index < |rows| {
        if index < 0 {
          return Err(RuntimeFailure);
        }
        return Ok(rows[index]);
      }
      return Ok(Null);
    }
  }
}
