/** The builder chain of the engine: a table builder owns the output table, an operation
    builder edits it, an import builder collects and merges input tables into it, and a
    select builder narrows the imported candidates.  Each builder method is proved to
    compute the function of its state that the other modules define. */
module Builders {
  import opened Wrappers
  import opened Tables
  import opened TableObjects
  import opened Utils
  import opened Folds
  import opened Selection
  import opened Aggregation
  import opened Merging
  import opened Export

  /** The name field every builder shares (a static field of the base class): the last
      operation or import builder created wrote it. */
  class BuilderName {
    var name: Option<string>

    constructor()
      ensures name == None
    {
      name := None;
    }
  }

  // ---------------------------------------------------------------------------
  // TableBuilder

  class TableBuilder {
    const shared: BuilderName
    var table: TableObject

    /** A new builder holds an empty, unnamed table of its own. */
    constructor(shared: BuilderName)
      ensures this.shared == shared
      ensures fresh(table) && table.name == None && table.columns == []
    {
      this.shared := shared;
      table := new TableObject(None, []);
    }

    method SetTable(t: TableObject)
      modifies this
      ensures table == t
    {
      table := t;
    }

    /** `end()` on a table builder is the builder itself: the top of the chain. */
    method End() returns (b: TableBuilder)
      ensures b == this
    {
      b := this;
    }

    /** Names the table and returns the same builder. */
    method WithName(n: Option<string>) returns (b: TableBuilder)
      modifies table
      ensures b == this && table.name == n && table.columns == old(table.columns)
    {
      table.SetName(n);
      b := this;
    }

    /** An operation builder that edits this builder's own table object. */
    method PerformOperation(operationName: string) returns (ob: OperationBuilder)
      modifies shared
      ensures fresh(ob) && ob.tableBuilder == this && ob.resultTable == table && ob.addedRows == 0
      ensures ob.shared == shared && shared.name == Some(operationName)
    {
      ob := new OperationBuilder(operationName, this);
    }

    /** `assemble(path)`: exports the table in the format the path's extension names and
        returns the table, which is left as it was. */
    method Assemble(path: Option<string>, fmt: real -> string) returns (r: Result<(Table, Exported)>)
      ensures var a := Assembled(table.Value(), path, fmt);
        (r.Ok? <==> a.Ok?) && (r.Err? ==> r.error == a.error) &&
        (r.Ok? ==> r.value == (table.Value(), a.value))
    {
      var t := table.Value();
      var out := ExportTo(t, path, fmt);
      if out.Err? {
        return Err(out.error);
      }
      r := Ok((t, out.value));
    }
  }

  // ---------------------------------------------------------------------------
  // OperationBuilder

  class OperationBuilder {
    const shared: BuilderName
    const tableBuilder: TableBuilder
    const resultTable: TableObject
    /** How many summary rows this builder has appended to every column. */
    var addedRows: nat

    constructor(name: string, tb: TableBuilder)
      modifies tb.shared
      ensures tableBuilder == tb && resultTable == tb.table && addedRows == 0
      ensures shared == tb.shared && shared.name == Some(name)
    {
      shared := tb.shared;
      tableBuilder := tb;
      resultTable := tb.table;
      addedRows := 0;
      new;
      shared.name := Some(name);
    }

    /** An import builder named "Import" whose result table starts as this builder's
        table object. */
    method WithImport() returns (ib: ImportBuilder)
      modifies shared
      ensures fresh(ib) && ib.operationBuilder == this && ib.resulTable == resultTable
      ensures ib.tables == [] && ib.fromFolders == [] && ib.filePath == None
      ensures shared.name == Some("Import")
    {
      ib := new ImportBuilder("Import", this);
    }

    /** `addColumn(name, value)`: a one-cell column at the end; a `null` value is refused
        by `List.of`. */
    method AddColumn(columnName: string, value: Cell) returns (o: Outcome)
      modifies resultTable
      ensures o.Fail? <==> value.Null?
      ensures o.Fail? ==> o.error == RuntimeFailure && resultTable.columns == old(resultTable.columns)
      ensures o.Pass? ==> resultTable.columns == old(resultTable.columns) + [Column(columnName, [value])]
      ensures resultTable.name == old(resultTable.name)
    {
      if value.Null? {
        return Fail(RuntimeFailure);
      }
      resultTable.AddColumn(Column(columnName, [value]), false);
      return Pass;
    }

    /** `addColumn(name, value, insertAtStart)`: a one-cell column at the front or the
        back; a `null` value is an operation error. */
    method AddColumnAt(columnName: string, value: Cell, atStart: bool) returns (o: Outcome)
      modifies resultTable
      ensures o.Fail? <==> value.Null?
      ensures o.Fail? ==> o.error == OperationError("Column name is null") && resultTable.columns == old(resultTable.columns)
      ensures o.Pass? ==> resultTable.columns == AddedColumn(old(resultTable.columns), Column(columnName, [value]), atStart)
      ensures resultTable.name == old(resultTable.name)
    {
      if value.Null? {
        return Fail(OperationError("Column name is null"));
      }
      resultTable.AddColumn(Column(columnName, [value]), atStart);
      return Pass;
    }

    /** `operate`: both columns must exist, have the same number of rows and hold only
        numbers; the rounded row-by-row result becomes a new last column. */
    method Operate(c1: string, c2: string, result: string, op: ArithOp) returns (o: Outcome)
      modifies resultTable
      ensures var spec := Aggregation.Operate(old(resultTable.columns), c1, c2, result, op);
        (o.Pass? <==> spec.Ok?) &&
        (o.Pass? ==> resultTable.columns == spec.value) &&
        (o.Fail? ==> o.error == spec.error && resultTable.columns == old(resultTable.columns))
      ensures resultTable.name == old(resultTable.name)
    {
      var a := resultTable.CheckColumn(c1);
      if a.Err? {
        return Fail(a.error);
      }
      var b := resultTable.CheckColumn(c2);
      if b.Err? {
        return Fail(b.error);
      }
      if |a.value.rows| != |b.value.rows| {
        return Fail(OperationError("Cannot operate on columns with different sizes"));
      }
      if !(AllNumbers(a.value.rows) && AllNumbers(b.value.rows)) {
        return Fail(OperationError("Cannot operate on columns with non-numbers"));
      }
      var rows := CombineRows(a.value.rows, b.value.rows, op);
      resultTable.AddColumn(Column(result, rows), false);
      return Pass;
    }

    method SumColumns(c1: string, c2: string, result: string) returns (o: Outcome)
      modifies resultTable
      ensures var spec := Aggregation.Operate(old(resultTable.columns), c1, c2, result, Plus);
        (o.Pass? <==> spec.Ok?) && (o.Pass? ==> resultTable.columns == spec.value) &&
        (o.Fail? ==> o.error == spec.error && resultTable.columns == old(resultTable.columns))
      ensures resultTable.name == old(resultTable.name)
    {
      o := Operate(c1, c2, result, Plus);
    }

    method SubColumns(c1: string, c2: string, result: string) returns (o: Outcome)
      modifies resultTable
      ensures var spec := Aggregation.Operate(old(resultTable.columns), c1, c2, result, Minus);
        (o.Pass? <==> spec.Ok?) && (o.Pass? ==> resultTable.columns == spec.value) &&
        (o.Fail? ==> o.error == spec.error && resultTable.columns == old(resultTable.columns))
      ensures resultTable.name == old(resultTable.name)
    {
      o := Operate(c1, c2, result, Minus);
    }

    method DivColumns(c1: string, c2: string, result: string) returns (o: Outcome)
      modifies resultTable
      ensures var spec := Aggregation.Operate(old(resultTable.columns), c1, c2, result, Over);
        (o.Pass? <==> spec.Ok?) && (o.Pass? ==> resultTable.columns == spec.value) &&
        (o.Fail? ==> o.error == spec.error && resultTable.columns == old(resultTable.columns))
      ensures resultTable.name == old(resultTable.name)
    {
      o := Operate(c1, c2, result, Over);
    }

    method MulColumns(c1: string, c2: string, result: string) returns (o: Outcome)
      modifies resultTable
      ensures var spec := Aggregation.Operate(old(resultTable.columns), c1, c2, result, Times);
        (o.Pass? <==> spec.Ok?) && (o.Pass? ==> resultTable.columns == spec.value) &&
        (o.Fail? ==> o.error == spec.error && resultTable.columns == old(resultTable.columns))
      ensures resultTable.name == old(resultTable.name)
    {
      o := Operate(c1, c2, result, Times);
    }

    /** The column walk of `sum()` and `average()`: every column, in order, gets its summary
        cell appended in place.  A failing column (an empty one) stops the walk with the
        earlier columns already summarised. */
    method SummariseColumns(kind: Summary) returns (o: Outcome)
      modifies resultTable
      ensures var spec := Summaries(old(resultTable.columns), addedRows, kind);
        (o.Pass? <==> spec.Ok?) && (o.Pass? ==> resultTable.columns == spec.value)
      ensures o.Fail? ==> (o.error == RuntimeFailure &&
        PartlySummarised(old(resultTable.columns), resultTable.columns, addedRows, kind))
      ensures resultTable.name == old(resultTable.name)
    {
      var t := resultTable;
      var cols := t.columns;
      var added := addedRows;
      var i := 0;
      ghost var done: seq<Column> := [];
      assert cols[..0] == [] && cols[0..] == cols;
      while i < |cols|
        invariant 0 <= i <= |cols| && t.name == old(t.name)
        modifies t
        invariant Summaries(cols[..i], added, kind) == Ok(done)
        invariant t.columns == done + cols[i..]
      {
        var cell := ColumnSummary(cols[i], added, kind);
        SummariesAdvance(cols, added, kind, i, done);
        if cell.Err? {
          return Fail(cell.error);
        }
        var next := Column(cols[i].name, cols[i].rows + [cell.value]);
        t.SetColumns(t.columns[i := next]);
        done := done + [next];
        i := i + 1;
      }
      assert cols[..i] == cols;
      return Pass;
    }

    /** `sum()` and `average()`: the column walk, and on success the synthetic-row counter
        goes up by one. */
    method Summarise(kind: Summary) returns (o: Outcome)
      modifies this, resultTable
      ensures var spec := Summaries(old(resultTable.columns), old(addedRows), kind);
        (o.Pass? <==> spec.Ok?) &&
        (o.Pass? ==> resultTable.columns == spec.value && addedRows == old(addedRows) + 1)
      ensures o.Fail? ==> (o.error == RuntimeFailure && addedRows == old(addedRows) &&
        PartlySummarised(old(resultTable.columns), resultTable.columns, old(addedRows), kind))
      ensures resultTable.name == old(resultTable.name)
    {
      o := SummariseColumns(kind);
      if o.Pass? {
        addedRows := addedRows + 1;
      }
    }

    method Sum() returns (o: Outcome)
      modifies this, resultTable
      ensures var spec := Summaries(old(resultTable.columns), old(addedRows), Total);
        (o.Pass? <==> spec.Ok?) &&
        (o.Pass? ==> resultTable.columns == spec.value && addedRows == old(addedRows) + 1)
      ensures o.Fail? ==> (o.error == RuntimeFailure && addedRows == old(addedRows) &&
        PartlySummarised(old(resultTable.columns), resultTable.columns, old(addedRows), Total))
      ensures resultTable.name == old(resultTable.name)
    {
      o := Summarise(Total);
    }

    method Average() returns (o: Outcome)
      modifies this, resultTable
      ensures var spec := Summaries(old(resultTable.columns), old(addedRows), Mean);
        (o.Pass? <==> spec.Ok?) &&
        (o.Pass? ==> resultTable.columns == spec.value && addedRows == old(addedRows) + 1)
      ensures o.Fail? ==> (o.error == RuntimeFailure && addedRows == old(addedRows) &&
        PartlySummarised(old(resultTable.columns), resultTable.columns, old(addedRows), Mean))
      ensures resultTable.name == old(resultTable.name)
    {
      o := Summarise(Mean);
    }

    /** `remove`: the name must exist; its first column goes. */
    method Remove(columnName: string) returns (o: Outcome)
      modifies resultTable
      ensures o.Fail? <==> FindColumn(old(resultTable.columns), columnName).None?
      ensures o.Fail? ==> (o.error == OperationError("Column " + columnName + " doesn't exist") &&
        resultTable.columns == old(resultTable.columns))
      ensures o.Pass? ==> (resultTable.columns ==
        RemovedColumn(old(resultTable.columns), FindColumn(old(resultTable.columns), columnName).value))
      ensures resultTable.name == old(resultTable.name)
    {
      var c := resultTable.CheckColumn(columnName);
      if c.Err? {
        return Fail(c.error);
      }
      o := resultTable.Remove(columnName);
    }

    /** `rename`: the name must exist; its first column is renamed. */
    method Rename(oldName: string, newName: string) returns (o: Outcome)
      modifies resultTable
      ensures o.Fail? <==> FindColumn(old(resultTable.columns), oldName).None?
      ensures o.Fail? ==> (o.error == OperationError("Column " + oldName + " doesn't exist") &&
        resultTable.columns == old(resultTable.columns))
      ensures o.Pass? ==> (resultTable.columns ==
        RenamedColumn(old(resultTable.columns), FindColumn(old(resultTable.columns), oldName).value, newName))
      ensures resultTable.name == old(resultTable.name)
    {
      var c := resultTable.CheckColumn(oldName);
      if c.Err? {
        return Fail(c.error);
      }
      o := resultTable.RenameColumn(oldName, newName);
    }

    /** `addSuffix`: the first column of that name becomes "name suffix". */
    method AddSuffix(suffix: string, columnName: string) returns (o: Outcome)
      modifies resultTable
      ensures o.Fail? <==> FindColumn(old(resultTable.columns), columnName).None?
      ensures o.Pass? ==> (resultTable.columns ==
        RenamedColumn(old(resultTable.columns), FindColumn(old(resultTable.columns), columnName).value, columnName + " " + suffix))
      ensures o.Fail? ==> resultTable.columns == old(resultTable.columns)
      ensures resultTable.name == old(resultTable.name)
    {
      o := resultTable.RenameColumn(columnName, columnName + " " + suffix);
    }

    /** `addPrefix`: the first column of that name becomes "prefix name". */
    method AddPrefix(prefix: string, columnName: string) returns (o: Outcome)
      modifies resultTable
      ensures o.Fail? <==> FindColumn(old(resultTable.columns), columnName).None?
      ensures o.Pass? ==> (resultTable.columns ==
        RenamedColumn(old(resultTable.columns), FindColumn(old(resultTable.columns), columnName).value, prefix + " " + columnName))
      ensures o.Fail? ==> resultTable.columns == old(resultTable.columns)
      ensures resultTable.name == old(resultTable.name)
    {
      o := resultTable.RenameColumn(columnName, prefix + " " + columnName);
    }

    /** `mergeTables`: the imported table's columns follow this table's own; importing
        the table into itself doubles its columns. */
    method MergeTables(imported: TableObject)
      modifies resultTable
      ensures resultTable.columns == old(resultTable.columns) + old(imported.columns)
      ensures resultTable.name == old(resultTable.name)
    {
      resultTable.AppendColumns(imported.columns);
    }

    /** `end()`: the table builder takes this builder's table and is returned. */
    method End() returns (tb: TableBuilder)
      modifies tableBuilder
      ensures tb == tableBuilder && tb.table == resultTable
    {
      tableBuilder.SetTable(resultTable);
      tb := tableBuilder;
    }
  }

  // ---------------------------------------------------------------------------
  // ImportBuilder

  /** The sub-folder names, in the iteration order of the folder map. */
  function FolderNames(folders: seq<(string, seq<(string, Table)>)>): (r: seq<string>)
    ensures |r| == |folders| && forall k :: 0 <= k < |r| ==> r[k] == folders[k].0
  {
    seq(|folders|, k requires 0 <= k < |folders| => folders[k].0)
  }

  class ImportBuilder {
    const operationBuilder: OperationBuilder
    /** Where `end()` takes the imported columns from; at first the operation table. */
    var resulTable: TableObject
    /** The candidate tables. */
    var tables: seq<Table>
    /** The last imported file path, which names a merged table. */
    var filePath: Option<string>
    /** The tables read from sub-folders: each sub-folder with its files and their
        tables, in the map's iteration order. */
    var fromFolders: seq<(string, seq<(string, Table)>)>

    constructor(name: string, ob: OperationBuilder)
      modifies ob.shared
      ensures operationBuilder == ob && resulTable == ob.resultTable
      ensures tables == [] && fromFolders == [] && filePath == None
      ensures ob.shared.name == Some(name)
    {
      operationBuilder := ob;
      resulTable := ob.resultTable;
      tables := [];
      filePath := None;
      fromFolders := [];
      new;
      ob.shared.name := Some(name);
    }

    /** What `fromFile` and `fromFolder` leave behind once their files are read (the
        reading is an input): the tables join the candidates, and the last file read, if
        any, becomes the path that names a later merge. */
    method Load(loaded: seq<Table>, path: Option<string>)
      modifies this`tables, this`filePath
      ensures tables == old(tables) + loaded
      ensures filePath == (if path.Some? then path else old(filePath))
    {
      tables := tables + loaded;
      if path.Some? {
        filePath := path;
      }
    }

    /** What `fromFolders` leaves behind: each sub-folder with its files' tables, after
        the ones recorded before.  The Java map's `put` overwrites an entry where this
        appends one; the two agree here because every import starts from a new builder
        with no sub-folders recorded, and the sub-folder names of one folder differ. */
    method LoadFolders(folders: seq<(string, seq<(string, Table)>)>)
      modifies this`fromFolders
      ensures fromFolders == old(fromFolders) + folders
    {
      fromFolders := fromFolders + folders;
    }

    method SetTables(ts: seq<Table>)
      modifies this
      ensures tables == ts
      ensures resulTable == old(resulTable) && filePath == old(filePath) && fromFolders == old(fromFolders)
    {
      tables := ts;
    }

    method SelectByTable(path: Option<string>, constraints: Option<seq<string>>) returns (r: Result<SelectBuilder>)
      ensures var spec := TableSelection(tables, path, constraints, false);
        (r.Ok? <==> spec.Ok?) && (r.Err? ==> r.error == spec.error) &&
        (r.Ok? ==> fresh(r.value) && r.value.importBuilder == this && r.value.tables == spec.value)
    {
      r := SelectBuilder.ForTables(path, constraints, this, false);
    }

    method SelectByColumn(path: Option<string>, constraints: Option<seq<string>>) returns (r: Result<SelectBuilder>)
      ensures var spec := TableSelection(tables, path, constraints, true);
        (r.Ok? <==> spec.Ok?) && (r.Err? ==> r.error == spec.error) &&
        (r.Ok? ==> fresh(r.value) && r.value.importBuilder == this && r.value.tables == spec.value)
    {
      r := SelectBuilder.ForTables(path, constraints, this, true);
    }

    method SelectByFilter(filter: Option<string>, fn: Option<string>, extracted: Option<seq<string>>) returns (r: Result<SelectBuilder>)
      ensures var spec := FunctionSelection(tables, filter, fn, extracted, 1, FolderNames(fromFolders));
        (r.Ok? <==> spec.Ok?) && (r.Err? ==> r.error == spec.error) &&
        (r.Ok? ==> fresh(r.value) && r.value.importBuilder == this && r.value.tables == spec.value)
    {
      r := SelectBuilder.ForFunction(filter, fn, extracted, this, 1);
    }

    method SelectNByFilter(filter: Option<string>, fn: Option<string>, extracted: Option<seq<string>>, targetN: int)
      returns (r: Result<SelectBuilder>)
      ensures var spec := FunctionSelection(tables, filter, fn, extracted, targetN, FolderNames(fromFolders));
        (r.Ok? <==> spec.Ok?) && (r.Err? ==> r.error == spec.error) &&
        (r.Ok? ==> fresh(r.value) && r.value.importBuilder == this && r.value.tables == spec.value)
    {
      r := SelectBuilder.ForFunction(filter, fn, extracted, this, targetN);
    }

    /** One column of `merge`, row by row: a row goes to the first column of its name or,
        for a new name, the column itself is added, by reference.  The next row of such a
        column lands in the very list being walked, and the walk fails. */
    static method MergeColumnInto(first: TableObject, column: Column) returns (ok: bool)
      modifies first
      ensures ok <==> MergeColumn(old(first.columns), column).Ok?
      ensures ok ==> first.columns == MergeColumn(old(first.columns), column).value
      ensures first.name == old(first.name)
    {
      ghost var before := first.columns;
      ghost var isNew := FindColumn(before, column.name).None?;
      var added := false;
      var r := 0;
      while r < |column.rows|
        invariant 0 <= r <= |column.rows| && first.name == old(first.name)
        invariant MergeRows(before, column, r) == Ok(first.columns)
        invariant added <==> (r >= 1 && isNew)
      {
        MergeRowsNext(before, column, r);
        if !isNew {
          MergeRowsKeepsName(before, column, r);
        } else if r >= 1 {
          MergeRowsNew(before, column, r);
          FirstMatchIsFound(before + [column], column.name, |before|);
        }
        var found := first.AppendToColumn(column.name, column.rows[r]);
        if found && added {
          // the row just went into `column` itself: the iterator over it fails
          MergeRowsNew(before, column, |column.rows|);
          MergeRowsIsMergeColumn(before, column);
          return false;
        }
        if !found {
          first.AddColumn(column, false);
          added := true;
        }
        r := r + 1;
      }
      MergeRowsIsMergeColumn(before, column);
      return true;
    }

    /** `merge` (and `mergeTablesSingleLine`, its copy): a new table named after the file
        path receives every column of every table, in order. */
    method Merge() returns (o: Outcome)
      modifies this`resulTable
      ensures o.Pass? <==> Merged(tables, filePath).Ok?
      ensures o.Pass? ==> (fresh(resulTable) && resulTable.name == filePath &&
        resulTable.columns == Merged(tables, filePath).value.columns)
      ensures o.Fail? ==> o.error == RuntimeFailure && resulTable == old(resulTable)
    {
      var first := new TableObject(filePath, []);
      var t := 0;
      while t < |tables|
        invariant 0 <= t <= |tables|
        invariant fresh(first) && first.name == filePath
        invariant MergeAll(AllColumns(tables[..t])) == Ok(first.columns)
        modifies first
      {
        var c := 0;
        MergeAllTableStep(tables, t);
        while c < |tables[t].columns|
          invariant 0 <= c <= |tables[t].columns|
          invariant fresh(first) && first.name == filePath
          invariant MergeAll(AllColumns(tables[..t]) + tables[t].columns[..c]) == Ok(first.columns)
          modifies first
        {
          MergeAllColumnStep(tables, t, c);
          var ok := MergeColumnInto(first, tables[t].columns[c]);
          if !ok {
            return Fail(RuntimeFailure);
          }
          c := c + 1;
        }
        t := t + 1;
      }
      assert tables[..t] == tables;
      resulTable := first;
      return Pass;
    }

    /** `mergeTables`: no tables keep the previous result; one table is taken as it is;
        two or more are merged. */
    method MergeTables() returns (o: Outcome)
      modifies this
      ensures tables == old(tables) && filePath == old(filePath) && fromFolders == old(fromFolders)
      ensures var spec := Imported(tables, filePath);
        (o.Pass? <==> spec.Ok?) &&
        (o.Pass? && spec.value.None? ==> resulTable == old(resulTable)) &&
        (o.Pass? && spec.value.Some? ==> fresh(resulTable) && resulTable.Value() == spec.value.value) &&
        (o.Fail? ==> o.error == RuntimeFailure && resulTable == old(resulTable))
    {
      if |tables| == 0 {
        return Pass;
      }
      if |tables| == 1 {
        resulTable := new TableObject(tables[0].name, tables[0].columns);
        return Pass;
      }
      o := Merge();
    }

    /** `whenExtension(ext)`: the tables of the sub-folder files whose extension is `ext`,
        in iteration order; a file name without a dot fails.  The tables matched before
        a failure come back as well. */
    static method Matching(folders: seq<(string, seq<(string, Table)>)>, ext: Option<string>)
      returns (r: Result<seq<Table>>, found: seq<Table>)
      ensures r == MatchingTables(FolderEntries(folders), ext)
      ensures r.Ok? ==> found == r.value
    {
      found := [];
      var f := 0;
      assert folders[..0] == [];
      while f < |folders|
        invariant 0 <= f <= |folders|
        invariant MatchingTables(FolderEntries(folders[..f]), ext) == Ok(found)
      {
        r, found := MatchingFolder(folders, f, ext, found);
        if r.Err? {
          return;
        }
        f := f + 1;
      }
      assert folders[..f] == folders;
      return Ok(found), found;
    }

    /** The files of sub-folder `f`, after what the folders before it gave. */
    static method MatchingFolder(folders: seq<(string, seq<(string, Table)>)>, f: nat, ext: Option<string>, found0: seq<Table>)
      returns (r: Result<seq<Table>>, found: seq<Table>)
      requires f < |folders| && MatchingTables(FolderEntries(folders[..f]), ext) == Ok(found0)
      ensures r.Err? ==> r == MatchingTables(FolderEntries(folders), ext)
      ensures r.Ok? ==> r.value == found && MatchingTables(FolderEntries(folders[..f + 1]), ext) == Ok(found)
    {
      found := found0;
      var e := 0;
      MatchingFolderStep(folders, f);
      while e < |folders[f].1|
        invariant 0 <= e <= |folders[f].1|
        invariant MatchingTables(FolderEntries(folders[..f]) + folders[f].1[..e], ext) == Ok(found)
      {
        MatchingFileStep(folders, f, e, ext);
        var x := GetExtension(Some(folders[f].1[e].0));
        if x.None? {
          return Err(RuntimeFailure), found;
        }
        if Some(x.value) == ext {
          found := found + [folders[f].1[e].1];
        }
        e := e + 1;
      }
      r := Ok(found);
    }

    method WhenExtension(ext: Option<string>) returns (o: Outcome)
      modifies this`tables
      ensures var spec := MatchingTables(FolderEntries(fromFolders), ext);
        (o.Pass? <==> spec.Ok?) &&
        (o.Pass? ==> tables == old(tables) + spec.value) &&
        (o.Fail? ==> o.error == RuntimeFailure)
    {
      var r, found := Matching(fromFolders, ext);
      // whatever matched is already in the list, also when the walk fails
      tables := tables + found;
      if r.Err? {
        return Fail(r.error);
      }
      return Pass;
    }

    /** `endWhen()`: the candidates are always merged, even a single one; the merged
        columns follow the operation table's, the candidates are cleared, and a fresh
        unnamed table waits for the next group. */
    method EndWhen() returns (o: Outcome)
      modifies this, operationBuilder.resultTable
      ensures var spec := Merged(old(tables), old(filePath));
        (o.Pass? <==> spec.Ok?) &&
        (o.Pass? ==> (operationBuilder.resultTable.columns == old(operationBuilder.resultTable.columns) + spec.value.columns &&
          tables == [] && fresh(resulTable) && resulTable.name == None && resulTable.columns == [])) &&
        (o.Fail? ==> (o.error == RuntimeFailure && tables == old(tables) &&
          operationBuilder.resultTable.columns == old(operationBuilder.resultTable.columns)))
      ensures operationBuilder.resultTable.name == old(operationBuilder.resultTable.name)
      ensures fromFolders == old(fromFolders) && filePath == old(filePath)
    {
      o := Merge();
      if o.Fail? {
        return;
      }
      tables := [];
      operationBuilder.MergeTables(resulTable);
      resulTable := new TableObject(None, []);
    }

    /** `end()`: the candidates are imported as `mergeTables` says and the result's
        columns follow the operation table's.  With nothing imported and no `endWhen`
        before, the result is still the operation table itself, whose columns are then
        doubled. */
    method End() returns (r: Result<OperationBuilder>)
      modifies this, operationBuilder.resultTable
      ensures var spec := Imported(old(tables), old(filePath));
        (r.Ok? <==> spec.Ok?) &&
        (r.Ok? && spec.value.Some? ==> (operationBuilder.resultTable.columns ==
          old(operationBuilder.resultTable.columns) + spec.value.value.columns)) &&
        (r.Ok? && spec.value.None? ==> (operationBuilder.resultTable.columns ==
          old(operationBuilder.resultTable.columns) + old(resulTable.columns))) &&
        (r.Ok? ==> r.value == operationBuilder) &&
        (r.Err? ==> r.error == RuntimeFailure)
      ensures old(resulTable) == operationBuilder.resultTable && old(tables) == [] ==>
        operationBuilder.resultTable.columns == old(operationBuilder.resultTable.columns) + old(operationBuilder.resultTable.columns)
      ensures tables == old(tables) && filePath == old(filePath) && fromFolders == old(fromFolders)
      ensures operationBuilder.resultTable.name == old(operationBuilder.resultTable.name)
    {
      var o := MergeTables();
      if o.Fail? {
        return Err(o.error);
      }
      operationBuilder.MergeTables(resulTable);
      return Ok(operationBuilder);
    }
  }

  // ---------------------------------------------------------------------------
  // SelectBuilder

  class SelectBuilder {
    const importBuilder: ImportBuilder
    /** The candidate tables. */
    var tables: seq<Table>
    var path: Option<string>
    var constraints: Option<seq<string>>
    var fn: Option<string>
    var filterValue: Option<string>
    var extractedValues: Option<seq<string>>
    var targetN: int

    constructor Fields(ib: ImportBuilder, path: Option<string>, constraints: Option<seq<string>>, fn: Option<string>,
                       filterValue: Option<string>, extractedValues: Option<seq<string>>, targetN: int)
      ensures importBuilder == ib && tables == ib.tables && this.path == path && this.constraints == constraints
      ensures this.fn == fn && this.filterValue == filterValue && this.extractedValues == extractedValues
      ensures this.targetN == targetN
    {
      importBuilder := ib;
      tables := ib.tables;
      this.path := path;
      this.constraints := constraints;
      this.fn := fn;
      this.filterValue := filterValue;
      this.extractedValues := extractedValues;
      this.targetN := targetN;
    }

    /** The table constructor: select by path (by column when asked), then by the
        constraints when there are any. */
    static method ForTables(path: Option<string>, constraints: Option<seq<string>>, ib: ImportBuilder, byColumn: bool)
      returns (r: Result<SelectBuilder>)
      ensures var spec := TableSelection(ib.tables, path, constraints, byColumn);
        (r.Ok? <==> spec.Ok?) && (r.Err? ==> r.error == spec.error) &&
        (r.Ok? ==> fresh(r.value) && r.value.importBuilder == ib && r.value.tables == spec.value)
    {
      var sb := new SelectBuilder.Fields(ib, path, constraints, None, None, None, 1);
      if path.Some? {
        var o;
        if byColumn {
          o := sb.SelectByTargetColumn();
        } else {
          o := sb.SelectByPath(false);
        }
        if o.Fail? {
          return Err(o.error);
        }
      }
      if constraints.Some? && |constraints.value| > 0 {
        var o := sb.SelectByConstraints();
        if o.Fail? {
          return Err(o.error);
        }
      }
      return Ok(sb);
    }

    /** The function constructor: select by function only when a function and a
        non-empty list of extracted columns are given. */
    static method ForFunction(filter: Option<string>, fn: Option<string>, extracted: Option<seq<string>>,
                              ib: ImportBuilder, targetN: int)
      returns (r: Result<SelectBuilder>)
      ensures var spec := FunctionSelection(ib.tables, filter, fn, extracted, targetN, FolderNames(ib.fromFolders));
        (r.Ok? <==> spec.Ok?) && (r.Err? ==> r.error == spec.error) &&
        (r.Ok? ==> fresh(r.value) && r.value.importBuilder == ib && r.value.tables == spec.value)
    {
      var sb := new SelectBuilder.Fields(ib, None, None, fn, filter, extracted, targetN);
      if fn.Some? && extracted.Some? && |extracted.value| > 0 {
        var o := sb.SelectByFunction();
        if o.Fail? {
          return Err(o.error);
        }
      }
      return Ok(sb);
    }

    /** `selectByPath(hasMultipleTables)`: every candidate's sub-tables along the path,
        renamed after the candidate, in candidate order. */
    static method SelectedByPath(ts: seq<Table>, path: Option<string>, multi: bool) returns (r: Result<seq<Table>>)
      ensures r == PathSelection(ts, path, multi)
    {
      var dir := GetDirectory(path);
      var selected := [];
      var i := 0;
      assert ts[..0] == [];
      while i < |ts|
        invariant 0 <= i <= |ts|
        invariant PathSelection(ts[..i], path, multi) == Ok(selected)
      {
        var step := PathStep(ts[i], dir, OrNull(path), multi);
        PathSelectionStep(ts, path, multi, i);
        if step.Err? {
          return Err(step.error);
        }
        selected := selected + step.value;
        i := i + 1;
      }
      assert ts[..i] == ts;
      return Ok(selected);
    }

    method SelectByPath(multi: bool) returns (o: Outcome)
      modifies this`tables
      ensures var spec := PathSelection(old(tables), path, multi);
        (o.Pass? <==> spec.Ok?) && (o.Pass? ==> tables == spec.value) &&
        (o.Fail? ==> o.error == spec.error && tables == old(tables))
    {
      var r := SelectedByPath(tables, path, multi);
      if r.Err? {
        return Fail(r.error);
      }
      tables := r.value;
      return Pass;
    }

    /** `selectByTargetColumn()`: one new single-column table per candidate. */
    static method SelectedByColumn(ts: seq<Table>, path: Option<string>) returns (r: Result<seq<Table>>)
      ensures r == ColumnSelection(ts, path)
    {
      var d := GetDirectory(path);
      if |d| == 0 {
        return Err(RuntimeFailure);
      }
      var target := d[|d| - 1];
      var reduced := GetDirectoryPath(path).value;
      var selected := [];
      var i := 0;
      assert ts[..0] == [];
      while i < |ts|
        invariant 0 <= i <= |ts|
        invariant ColumnSelection(ts[..i], path) == Ok(selected)
      {
        var step := ColumnStep(ts[i], reduced, target);
        ColumnSelectionStep(ts, path, i);
        if step.Err? {
          return Err(step.error);
        }
        selected := selected + [step.value];
        i := i + 1;
      }
      assert ts[..i] == ts;
      return Ok(selected);
    }

    method SelectByTargetColumn() returns (o: Outcome)
      modifies this`tables
      ensures var spec := ColumnSelection(old(tables), path);
        (o.Pass? <==> spec.Ok?) && (o.Pass? ==> tables == spec.value) &&
        (o.Fail? ==> o.error == spec.error && tables == old(tables))
    {
      var r := SelectedByColumn(tables, path);
      if r.Err? {
        return Fail(r.error);
      }
      tables := r.value;
      return Pass;
    }

    /** The extremum step (`selectByTargetColumn(column, function)`): the first candidate
        is kept until a later one beats it strictly. */
    static method ExtremumOf(ts: seq<Table>, columnName: string, fnName: string) returns (r: Result<seq<Table>>)
      ensures r == Extremum(ts, columnName, fnName)
    {
      if |ts| == 0 {
        return Err(RuntimeFailure);
      }
      var cmp := ComparatorOf(fnName);
      var main := 0;
      var i := 1;
      assert ts[..1] == [ts[0]];
      while i < |ts|
        invariant 1 <= i <= |ts|
        invariant ExtremumIndex(ts[..i], columnName, cmp) == Ok(main)
      {
        var replace := Replaces(ts[main], ts[i], columnName, cmp);
        ExtremumAdvance(ts, columnName, cmp, i, main);
        if replace.Err? {
          return Err(replace.error);
        }
        if replace.value {
          main := i;
        }
        i := i + 1;
      }
      assert ts[..i] == ts;
      return Ok([ts[main]]);
    }

    /** `selectByColumns`: every candidate keeps only the extracted columns, in order. */
    static method KeptNamed(ts: seq<Table>, names: seq<string>) returns (r: seq<Table>)
      ensures r == Whitelisted(ts, names)
    {
      r := [];
      var i := 0;
      while i < |ts|
        invariant 0 <= i <= |ts| && |r| == i
        invariant forall k :: 0 <= k < i ==> r[k] == Table(ts[k].name, KeepNamed(ts[k].columns, names))
      {
        var cols := ts[i].columns;
        var kept := [];
        var j := 0;
        assert cols[..0] == [];
        while j < |cols|
          invariant 0 <= j <= |cols|
          invariant kept == KeepNamed(cols[..j], names)
        {
          FilterStep(cols, (c: Column) => c.name in names, j);
          if cols[j].name in names {
            kept := kept + [cols[j]];
          }
          j := j + 1;
        }
        assert cols[..j] == cols;
        r := r + [Table(ts[i].name, kept)];
        i := i + 1;
      }
    }

    /** `selectByFunction`: the filter's last segment is the compared column and the rest
        the path to the candidates; then the top N or the extremum, then the extracted
        columns. */
    static method SelectedByFunction(ts: seq<Table>, filter: Option<string>, fn: string, extracted: seq<string>,
                                     targetN: int, order: seq<string>)
      returns (r: Result<seq<Table>>)
      requires |extracted| > 0
      ensures r == FunctionSelection(ts, filter, Some(fn), Some(extracted), targetN, order)
    {
      var d := GetDirectory(filter);
      if |d| == 0 {
        return Err(RuntimeFailure);
      }
      var found := SelectedByPath(ts, Some(Join(d[..|d| - 1], "/")), true);
      if found.Err? {
        return Err(found.error);
      }
      var best;
      if targetN > 1 {
        best := TopN(found.value, targetN as nat, fn, order);
      } else {
        best := ExtremumOf(found.value, d[|d| - 1], fn);
      }
      if best.Err? {
        return Err(best.error);
      }
      var kept := KeptNamed(best.value, extracted);
      return Ok(kept);
    }

    method SelectByFunction() returns (o: Outcome)
      requires fn.Some? && extractedValues.Some? && |extractedValues.value| > 0
      modifies this`tables, this`path
      ensures var spec := FunctionSelection(old(tables), filterValue, fn, extractedValues, targetN,
          FolderNames(importBuilder.fromFolders));
        (o.Pass? <==> spec.Ok?) && (o.Pass? ==> tables == spec.value) && (o.Fail? ==> o.error == spec.error)
      ensures var d := GetDirectory(filterValue);
        path == (if |d| > 0 then Some(Join(d[..|d| - 1], "/")) else old(path))
    {
      var d := GetDirectory(filterValue);
      if |d| > 0 {
        path := Some(Join(d[..|d| - 1], "/"));
      }
      var r := SelectedByFunction(tables, filterValue, fn.value, extractedValues.value, targetN,
        FolderNames(importBuilder.fromFolders));
      if r.Err? {
        return Fail(r.error);
      }
      tables := r.value;
      return Pass;
    }

    /** `isComposite`: whether some cell is a nested table or a list. */
    static method IsCompositeColumn(c: Column) returns (b: bool)
      ensures b == IsComposite(c)
    {
      b := false;
      var i := 0;
      while i < |c.rows|
        invariant 0 <= i <= |c.rows|
        invariant b <==> exists k :: 0 <= k < i && (c.rows[k].Tab? || c.rows[k].ListV?)
      {
        b := b || c.rows[i].Tab? || c.rows[i].ListV?;
        i := i + 1;
      }
    }

    /** `selectByType(composite)`: every candidate keeps the columns that are composite,
        and only when `composite` is asked for. */
    static method KeptByType(ts: seq<Table>, composite: bool) returns (r: seq<Table>)
      ensures r == ByType(ts, composite)
    {
      r := [];
      var i := 0;
      while i < |ts|
        invariant 0 <= i <= |ts| && |r| == i
        invariant forall k :: 0 <= k < i ==> r[k] == Table(ts[k].name, KeepByType(ts[k].columns, composite))
      {
        var cols := ts[i].columns;
        var kept := [];
        var j := 0;
        assert cols[..0] == [];
        while j < |cols|
          invariant 0 <= j <= |cols|
          invariant kept == KeepByType(cols[..j], composite)
        {
          FilterStep(cols, (c: Column) => IsComposite(c) && composite, j);
          var isComposite := IsCompositeColumn(cols[j]);
          if isComposite && composite {
            kept := kept + [cols[j]];
          }
          j := j + 1;
        }
        assert cols[..j] == cols;
        r := r + [Table(ts[i].name, kept)];
        i := i + 1;
      }
    }

    /** `selectByConstraints`: each constraint in turn; an unknown one stops the walk. */
    static method ConstrainedBy(ts: seq<Table>, cs: seq<string>) returns (r: Result<seq<Table>>)
      ensures r == Constrained(ts, cs)
    {
      var cur := ts;
      var i := 0;
      assert cs[..0] == [];
      while i < |cs|
        invariant 0 <= i <= |cs|
        invariant Constrained(ts, cs[..i]) == Ok(cur)
      {
        var c := ToUpper(cs[i]);
        assert cs[..i + 1][..i] == cs[..i];
        if c == "NON-COMPOSITE" {
          cur := KeptByType(cur, false);
        } else if c == "COMPOSITE" {
          cur := KeptByType(cur, true);
        } else {
          ConstrainedPrefixErr(ts, cs, i + 1);
          return Err(SelectError("Unknown constraint " + cs[i]));
        }
        i := i + 1;
      }
      assert cs[..i] == cs;
      return Ok(cur);
    }

    method SelectByConstraints() returns (o: Outcome)
      requires constraints.Some?
      modifies this`tables
      ensures var spec := Constrained(old(tables), constraints.value);
        (o.Pass? <==> spec.Ok?) && (o.Pass? ==> tables == spec.value) &&
        (o.Fail? ==> o.error == spec.error && tables == old(tables))
    {
      var r := ConstrainedBy(tables, constraints.value);
      if r.Err? {
        return Fail(r.error);
      }
      tables := r.value;
      return Pass;
    }

    /** `addColumn(name, value, insertAtStart)`: every candidate becomes a new table with
        a copy of its columns and one more one-cell column. */
    static method WithColumnAdded(ts: seq<Table>, columnName: Option<string>, value: Cell, atStart: bool)
      returns (r: Result<seq<Table>>)
      ensures r == WithColumn(ts, columnName, value, atStart)
    {
      if columnName.None? || value.Null? {
        return Err(SelectError("Column name or value is null"));
      }
      var result := [];
      var i := 0;
      assert ts[..0] == [];
      while i < |ts|
        invariant 0 <= i <= |ts|
        invariant WithColumn(ts[..i], columnName, value, atStart) == Ok(result)
      {
        var cell := InsertedCell(value, ts[i].name);
        WithColumnStep(ts, columnName, value, atStart, i);
        if cell.Err? {
          return Err(cell.error);
        }
        var copy := new TableObject(ts[i].name, ts[i].columns);
        copy.AddColumn(Column(columnName.value, [cell.value]), atStart);
        result := result + [copy.Value()];
        i := i + 1;
      }
      assert ts[..i] == ts;
      return Ok(result);
    }

    method AddColumnAt(columnName: Option<string>, value: Cell, atStart: bool) returns (o: Outcome)
      modifies this`tables
      ensures var spec := WithColumn(old(tables), columnName, value, atStart);
        (o.Pass? <==> spec.Ok?) && (o.Pass? ==> tables == spec.value) &&
        (o.Fail? ==> o.error == spec.error && tables == old(tables))
    {
      var r := WithColumnAdded(tables, columnName, value, atStart);
      if r.Err? {
        return Fail(r.error);
      }
      tables := r.value;
      return Pass;
    }

    /** `addColumn(name, value)`: at the back. */
    method AddColumn(columnName: Option<string>, value: Cell) returns (o: Outcome)
      modifies this`tables
      ensures var spec := WithColumn(old(tables), columnName, value, false);
        (o.Pass? <==> spec.Ok?) && (o.Pass? ==> tables == spec.value) &&
        (o.Fail? ==> o.error == spec.error && tables == old(tables))
    {
      o := AddColumnAt(columnName, value, false);
    }

    /** `end()`: the import builder takes the selected candidates. */
    method End() returns (ib: ImportBuilder)
      modifies importBuilder
      ensures ib == importBuilder && ib.tables == tables
      ensures ib.resulTable == old(ib.resulTable) && ib.filePath == old(ib.filePath) && ib.fromFolders == old(ib.fromFolders)
    {
      importBuilder.SetTables(tables);
      ib := importBuilder;
    }
  }
}
