/** What the import step does with the tables it has collected: the union-by-name merge
    and the extension filter over the tables read from sub-folders. */
module Merging {
  import opened Wrappers
  import opened Tables
  import opened Utils

  // ---------------------------------------------------------------------------
  // Union by name

  /** The columns of all the tables, table after table. */
  function AllColumns(tables: seq<Table>): (r: seq<Column>)
  {
    if |tables| == 0 then [] else AllColumns(tables[..|tables| - 1]) + tables[|tables| - 1].columns
  }

  /** The merge loop once it reaches column `c`, which it walks row by row.  A row whose
      name is already in the result is appended to the first column of that name.  The
      first row of a new name adds the column itself, by reference: its second row is then
      appended to the very list being walked, and the next step of the iterator throws a
      `ConcurrentModificationException`.  A column without rows adds nothing. */
  function MergeColumn(acc: seq<Column>, c: Column): (r: Result<seq<Column>>)
    ensures r.Err? ==> r.error == RuntimeFailure
  {
    if |c.rows| == 0 then Ok(acc)
    else match FindColumn(acc, c.name)
      case None => if |c.rows| == 1 then Ok(acc + [c]) else Err(RuntimeFailure)
      case Some(i) => Ok(acc[i := Column(c.name, acc[i].rows + c.rows)])
  }

  /** The same step taken one row at a time, as the Java loop does: the state after the
      first `j` rows of `c`. */
  function MergeRows(acc: seq<Column>, c: Column, j: nat): (r: Result<seq<Column>>)
    requires j <= |c.rows|
  {
    if j == 0 then Ok(acc)
    else match MergeRows(acc, c, j - 1)
      case Err(e) => Err(e)
      case Ok(cur) =>
        match FindColumn(cur, c.name)
        case None => Ok(cur + [c])
        case Some(i) =>
          if j >= 2 && FindColumn(acc, c.name).None? then Err(RuntimeFailure)
          else Ok(cur[i := Column(c.name, cur[i].rows + [c.rows[j - 1]])])
  }

  /** Row by row, the loop does what `MergeColumn` says column by column. */
  lemma MergeRowsIsMergeColumn(acc: seq<Column>, c: Column)
    ensures MergeRows(acc, c, |c.rows|) == MergeColumn(acc, c)
  {
    if |c.rows| > 0 {
      match FindColumn(acc, c.name)
      case None =>
        MergeRowsNew(acc, c, |c.rows|);
      case Some(i) =>
        MergeRowsFound(acc, c, |c.rows|);
        assert c.rows[..|c.rows|] == c.rows;
    }
  }

  lemma {:induction false} MergeRowsNew(acc: seq<Column>, c: Column, j: nat)
    requires 1 <= j <= |c.rows| && FindColumn(acc, c.name).None?
    ensures MergeRows(acc, c, j) == if j == 1 then Ok(acc + [c]) else Err(RuntimeFailure)
  {
    if j > 1 {
      MergeRowsNew(acc, c, j - 1);
      if j == 2 {
        var cur := acc + [c];
        FirstMatchIsFound(cur, c.name, |acc|);
      }
    }
  }

  lemma {:induction false} MergeRowsFound(acc: seq<Column>, c: Column, j: nat)
    requires j <= |c.rows| && FindColumn(acc, c.name).Some?
    ensures var i := FindColumn(acc, c.name).value;
      MergeRows(acc, c, j) == Ok(acc[i := Column(c.name, acc[i].rows + c.rows[..j])])
  {
    var i := FindColumn(acc, c.name).value;
    if j == 0 {
      assert Column(c.name, acc[i].rows + c.rows[..0]) == acc[i];
      assert acc[i := acc[i]] == acc;
    } else {
      MergeRowsFound(acc, c, j - 1);
      MergeRowsFoundStep(acc, c, j, i, acc[i].rows + c.rows[..j - 1]);
      AppendRow(acc[i].rows, c.rows, j);
    }
  }

  /** One more row of a name already in the result goes to the end of that column. */
  lemma MergeRowsFoundStep(acc: seq<Column>, c: Column, j: nat, i: nat, prevRows: seq<Cell>)
    requires 1 <= j <= |c.rows| && FindColumn(acc, c.name) == Some(i)
    requires MergeRows(acc, c, j - 1) == Ok(acc[i := Column(c.name, prevRows)])
    ensures MergeRows(acc, c, j) == Ok(acc[i := Column(c.name, prevRows + [c.rows[j - 1]])])
  {
    var cur := acc[i := Column(c.name, prevRows)];
    FirstMatchIsFound(cur, c.name, i);
    assert cur[i := Column(c.name, prevRows + [c.rows[j - 1]])] == acc[i := Column(c.name, prevRows + [c.rows[j - 1]])];
  }

  lemma AppendRow(pre: seq<Cell>, rows: seq<Cell>, j: nat)
    requires 1 <= j <= |rows|
    ensures pre + rows[..j - 1] + [rows[j - 1]] == pre + rows[..j]
  {
    assert rows[..j] == rows[..j - 1] + [rows[j - 1]];
  }

  /** A name already in the result keeps its position row after row. */
  lemma MergeRowsKeepsName(acc: seq<Column>, c: Column, j: nat)
    requires j <= |c.rows| && FindColumn(acc, c.name).Some?
    ensures MergeRows(acc, c, j).Ok?
    ensures FindColumn(MergeRows(acc, c, j).value, c.name) == FindColumn(acc, c.name)
  {
    MergeRowsFound(acc, c, j);
    FirstMatchIsFound(MergeRows(acc, c, j).value, c.name, FindColumn(acc, c.name).value);
  }

  /** `merge`: every column of every table, in order, merged into an empty column list. */
  function MergeAll(cols: seq<Column>): (r: Result<seq<Column>>)
    ensures r.Err? ==> r.error == RuntimeFailure
  {
    if |cols| == 0 then Ok([])
    else match MergeAll(cols[..|cols| - 1])
      case Err(e) => Err(e)
      case Ok(acc) => MergeColumn(acc, cols[|cols| - 1])
  }

  /** The columns of the first `t` tables come first among the columns of all of them. */
  lemma {:induction false} AllColumnsPrefix(tables: seq<Table>, t: nat)
    requires t <= |tables|
    ensures AllColumns(tables[..t]) <= AllColumns(tables)
    decreases |tables| - t
  {
    if t == |tables| {
      assert tables[..t] == tables;
    } else {
      AllColumnsPrefix(tables, t + 1);
      assert tables[..t + 1][..t] == tables[..t];
      assert AllColumns(tables[..t + 1]) == AllColumns(tables[..t]) + tables[t].columns;
    }
  }

  /** The columns of one more table follow those of the tables before it. */
  lemma AllColumnsStep(tables: seq<Table>, t: nat)
    requires t < |tables|
    ensures AllColumns(tables[..t + 1]) == AllColumns(tables[..t]) + tables[t].columns
  {
    assert tables[..t + 1][..t] == tables[..t];
  }

  /** Merging one more column is one more `MergeColumn` step. */
  lemma MergeAllStep(p: seq<Column>, c: Column)
    ensures MergeAll(p + [c]) == match MergeAll(p) case Err(e) => Err(e) case Ok(acc) => MergeColumn(acc, c)
  {
    assert (p + [c])[..|p|] == p;
  }

  /** A failure of the merge over a prefix is final. */
  lemma {:induction false} MergeAllPrefixErr(cols: seq<Column>, p: seq<Column>)
    requires p <= cols && MergeAll(p).Err?
    ensures MergeAll(cols).Err?
    decreases |cols| - |p|
  {
    if |p| < |cols| {
      var q := cols[..|p| + 1];
      assert q == p + [cols[|p|]];
      MergeAllStep(p, cols[|p|]);
      MergeAllPrefixErr(cols, q);
    } else {
      assert p == cols;
    }
  }

  /** One more row, in the terms of the table object's own operations: a name not yet
      present adds the column; a present one gets the row appended, unless the column was
      added during this very walk. */
  lemma MergeRowsNext(acc: seq<Column>, c: Column, j: nat)
    requires j < |c.rows| && MergeRows(acc, c, j).Ok?
    ensures var cur := MergeRows(acc, c, j).value;
      MergeRows(acc, c, j + 1) ==
        if FindColumn(cur, c.name).None? then Ok(AddedColumn(cur, c, false))
        else if j >= 1 && FindColumn(acc, c.name).None? then Err(RuntimeFailure)
        else Ok(AppendedToColumn(cur, c.name, c.rows[j]))
  {
  }

  /** One more column of table `t`: the merge takes one more `MergeColumn` step, and a
      failure there is a failure of the whole merge. */
  lemma MergeAllColumnStep(tables: seq<Table>, t: nat, c: nat)
    requires t < |tables| && c < |tables[t].columns|
    requires MergeAll(AllColumns(tables[..t]) + tables[t].columns[..c]).Ok?
    ensures var acc := MergeAll(AllColumns(tables[..t]) + tables[t].columns[..c]).value;
      MergeAll(AllColumns(tables[..t]) + tables[t].columns[..c + 1]) == MergeColumn(acc, tables[t].columns[c]) &&
      (MergeColumn(acc, tables[t].columns[c]).Err? ==> MergeAll(AllColumns(tables)).Err?)
  {
    var p := AllColumns(tables[..t]);
    var cols := tables[t].columns;
    MergeAllStep(p + cols[..c], cols[c]);
    assert (p + cols[..c]) + [cols[c]] == p + cols[..c + 1];
    AllColumnsStep(tables, t);
    AllColumnsPrefix(tables, t + 1);
    assert (p + cols)[..|p| + c + 1] == p + cols[..c + 1];
    if MergeAll(p + cols[..c + 1]).Err? {
      MergeAllPrefixErr(AllColumns(tables), p + cols[..c + 1]);
    }
  }

  /** Table `t`'s columns start after those of the tables before it and, all taken, reach
      the columns of the first `t + 1` tables. */
  lemma MergeAllTableStep(tables: seq<Table>, t: nat)
    requires t < |tables|
    ensures AllColumns(tables[..t]) + tables[t].columns[..0] == AllColumns(tables[..t])
    ensures AllColumns(tables[..t]) + tables[t].columns[..|tables[t].columns|] == AllColumns(tables[..t + 1])
  {
    AllColumnsStep(tables, t);
    assert tables[t].columns[..0] == [];
    assert tables[t].columns[..|tables[t].columns|] == tables[t].columns;
  }

  /** The cells of every column named `n`, in column order then row order. */
  function RowsNamed(cols: seq<Column>, n: string): seq<Cell>
  {
    if |cols| == 0 then []
    else RowsNamed(cols[..|cols| - 1], n) + (if cols[|cols| - 1].name == n then cols[|cols| - 1].rows else [])
  }

  /** Some column named `n` has a row. */
  predicate Occurs(cols: seq<Column>, n: string)
  {
    exists k :: 0 <= k < |cols| && cols[k].name == n && |cols[k].rows| > 0
  }

  predicate DistinctNames(cols: seq<Column>)
  {
    forall i, j :: 0 <= i < j < |cols| ==> cols[i].name != cols[j].name
  }

  lemma {:induction false} RowsNamedEmpty(cols: seq<Column>, n: string)
    requires !Occurs(cols, n)
    ensures RowsNamed(cols, n) == []
  {
    if |cols| > 0 {
      var front := cols[..|cols| - 1];
      RowsNamedEmpty(front, n);
    }
  }

  /** `r` is the merge of `cols`: each name that has a row occurs exactly once, and its
      column holds the cells of every column of that name, in table order then row order. */
  ghost predicate IsUnionOf(r: seq<Column>, cols: seq<Column>)
  {
    DistinctNames(r) &&
    (forall k :: 0 <= k < |r| ==> r[k].rows == RowsNamed(cols, r[k].name)) &&
    (forall n :: FindColumn(r, n).Some? <==> Occurs(cols, n))
  }

  lemma OccursAppend(front: seq<Column>, c: Column, n: string)
    ensures Occurs(front + [c], n) <==> Occurs(front, n) || (c.name == n && |c.rows| > 0)
  {
    var cols := front + [c];
    if Occurs(cols, n) {
      var k :| 0 <= k < |cols| && cols[k].name == n && |cols[k].rows| > 0;
      if k < |front| {
        assert front[k] == cols[k];
      }
    }
    if Occurs(front, n) {
      var k :| 0 <= k < |front| && front[k].name == n && |front[k].rows| > 0;
      assert cols[k] == front[k];
    }
    if c.name == n && |c.rows| > 0 {
      assert cols[|front|] == c;
    }
  }

  lemma RowsNamedAppend(front: seq<Column>, c: Column, n: string)
    ensures RowsNamed(front + [c], n) == RowsNamed(front, n) + (if c.name == n then c.rows else [])
  {
    assert (front + [c])[..|front|] == front;
  }

  /** One column merged into the union of the columns before it gives the union of all. */
  lemma MergeColumnUnion(front: seq<Column>, acc: seq<Column>, c: Column)
    requires IsUnionOf(acc, front) && MergeColumn(acc, c).Ok?
    ensures IsUnionOf(MergeColumn(acc, c).value, front + [c])
  {
    var cols := front + [c];
    var r := MergeColumn(acc, c).value;
    forall n
      ensures RowsNamed(cols, n) == RowsNamed(front, n) + (if c.name == n then c.rows else [])
      ensures Occurs(cols, n) <==> Occurs(front, n) || (c.name == n && |c.rows| > 0)
    {
      RowsNamedAppend(front, c, n);
      OccursAppend(front, c, n);
    }
    if |c.rows| == 0 {
      assert r == acc;
    } else if FindColumn(acc, c.name).None? {
      MergeNewColumn(front, acc, c);
    } else {
      MergeFoundColumn(front, acc, c);
    }
  }

  lemma MergeNewColumn(front: seq<Column>, acc: seq<Column>, c: Column)
    requires IsUnionOf(acc, front) && |c.rows| == 1 && FindColumn(acc, c.name).None?
    requires forall n :: RowsNamed(front + [c], n) == RowsNamed(front, n) + (if c.name == n then c.rows else [])
    requires forall n :: Occurs(front + [c], n) <==> Occurs(front, n) || (c.name == n && |c.rows| > 0)
    ensures IsUnionOf(acc + [c], front + [c])
  {
    var r := acc + [c];
    assert DistinctNames(r) by {
      forall i, j | 0 <= i < j < |r|
        ensures r[i].name != r[j].name
      {
        if j == |acc| {
          assert r[i] == acc[i];
        }
      }
    }
    NewColumnFound(acc, c);
    NewColumnRows(front, acc, c);
  }

  /** A column appended under a new name is found, and nothing else moves. */
  lemma NewColumnFound(acc: seq<Column>, c: Column)
    requires FindColumn(acc, c.name).None?
    ensures forall n :: FindColumn(acc + [c], n).Some? <==> FindColumn(acc, n).Some? || n == c.name
  {
    var r := acc + [c];
    forall n
      ensures FindColumn(r, n).Some? <==> FindColumn(acc, n).Some? || n == c.name
    {
      if n == c.name {
        FirstMatchIsFound(r, n, |acc|);
      } else if FindColumn(acc, n).Some? {
        FirstMatchIsFound(r, n, FindColumn(acc, n).value);
      }
    }
  }

  /** A column appended under a new name holds the rows of that name. */
  lemma NewColumnRows(front: seq<Column>, acc: seq<Column>, c: Column)
    requires IsUnionOf(acc, front) && FindColumn(acc, c.name).None?
    requires forall n :: RowsNamed(front + [c], n) == RowsNamed(front, n) + (if c.name == n then c.rows else [])
    ensures forall k :: 0 <= k < |acc + [c]| ==> (acc + [c])[k].rows == RowsNamed(front + [c], (acc + [c])[k].name)
  {
    var r := acc + [c];
    assert !Occurs(front, c.name);
    RowsNamedEmpty(front, c.name);
    forall k | 0 <= k < |r|
      ensures r[k].rows == RowsNamed(front + [c], r[k].name)
    {
      if k < |acc| {
        assert r[k] == acc[k];
      }
    }
  }

  lemma MergeFoundColumn(front: seq<Column>, acc: seq<Column>, c: Column)
    requires IsUnionOf(acc, front) && |c.rows| > 0 && FindColumn(acc, c.name).Some?
    requires forall n :: RowsNamed(front + [c], n) == RowsNamed(front, n) + (if c.name == n then c.rows else [])
    requires forall n :: Occurs(front + [c], n) <==> Occurs(front, n) || (c.name == n && |c.rows| > 0)
    ensures IsUnionOf(MergeColumn(acc, c).value, front + [c])
  {
    var i := FindColumn(acc, c.name).value;
    var r := acc[i := Column(c.name, acc[i].rows + c.rows)];
    assert MergeColumn(acc, c).value == r;
    forall n
      ensures FindColumn(r, n).Some? <==> FindColumn(acc, n).Some?
    {
      if FindColumn(acc, n).Some? {
        FirstMatchIsFound(r, n, FindColumn(acc, n).value);
      }
      if FindColumn(r, n).Some? {
        FirstMatchIsFound(acc, n, FindColumn(r, n).value);
      }
    }
  }

  /** What a successful merge holds: the union by name of all the columns. */
  lemma {:induction false} MergeAllContents(cols: seq<Column>)
    requires MergeAll(cols).Ok?
    ensures IsUnionOf(MergeAll(cols).value, cols)
  {
    if |cols| > 0 {
      var front := cols[..|cols| - 1];
      var c := cols[|cols| - 1];
      MergeAllContents(front);
      MergeColumnUnion(front, MergeAll(front).value, c);
      assert front + [c] == cols;
    }
  }

  /** The first column of a name seen earlier with a row. */
  predicate SeenBefore(cols: seq<Column>, k: nat)
    requires k < |cols|
  {
    exists j :: 0 <= j < k && cols[j].name == cols[k].name && |cols[j].rows| > 0
  }

  /** No name's first column with rows has more than one row. */
  predicate MergeSucceeds(cols: seq<Column>)
  {
    forall k :: 0 <= k < |cols| && |cols[k].rows| >= 2 ==> SeenBefore(cols, k)
  }

  /** The merge fails exactly when the first column with rows of some name has two or more
      of them. */
  lemma {:induction false} MergeAllFails(cols: seq<Column>)
    ensures MergeAll(cols).Ok? <==> MergeSucceeds(cols)
  {
    if |cols| > 0 {
      var front := cols[..|cols| - 1];
      var c := cols[|cols| - 1];
      MergeAllFails(front);
      forall k | 0 <= k < |front|
        ensures SeenBefore(front, k) <==> SeenBefore(cols, k)
      {
        if SeenBefore(cols, k) {
          var j :| 0 <= j < k && cols[j].name == cols[k].name && |cols[j].rows| > 0;
          assert front[j] == cols[j];
        }
      }
      assert MergeSucceeds(cols) <==> MergeSucceeds(front) && (|c.rows| >= 2 ==> SeenBefore(cols, |cols| - 1)) by {
        if MergeSucceeds(front) && (|c.rows| >= 2 ==> SeenBefore(cols, |cols| - 1)) {
          forall k | 0 <= k < |cols| && |cols[k].rows| >= 2
            ensures SeenBefore(cols, k)
          {
            if k < |front| {
              assert front[k] == cols[k];
            }
          }
        }
        if MergeSucceeds(cols) {
          forall k | 0 <= k < |front| && |front[k].rows| >= 2
            ensures SeenBefore(front, k)
          {
            assert front[k] == cols[k];
          }
        }
      }
      if MergeAll(front).Ok? {
        MergeAllContents(front);
        assert SeenBefore(cols, |cols| - 1) <==> Occurs(front, c.name) by {
          if SeenBefore(cols, |cols| - 1) {
            var j :| 0 <= j < |cols| - 1 && cols[j].name == c.name && |cols[j].rows| > 0;
            assert front[j] == cols[j];
          }
          if Occurs(front, c.name) {
            var j :| 0 <= j < |front| && front[j].name == c.name && |front[j].rows| > 0;
            assert cols[j] == front[j];
          }
        }
      }
    }
  }

  /** `merge` and `mergeTablesSingleLine`: a new table named after the imported file path,
      holding the union by name of all the columns. */
  function Merged(tables: seq<Table>, filePath: Option<string>): (r: Result<Table>)
    ensures r.Ok? ==> r.value.name == filePath
  {
    match MergeAll(AllColumns(tables))
    case Err(e) => Err(e)
    case Ok(cols) => Ok(Table(filePath, cols))
  }

  /** Tables whose columns have one row each always merge; the merged columns are the
      distinct names in first-seen order, each with every cell of that name. */
  lemma SingleRowTablesMerge(tables: seq<Table>, filePath: Option<string>)
    requires forall k :: 0 <= k < |AllColumns(tables)| ==> |AllColumns(tables)[k].rows| <= 1
    ensures Merged(tables, filePath).Ok?
  {
    MergeAllFails(AllColumns(tables));
  }

  /** `mergeTables`, run by `end()`: nothing to import leaves the previous result in
      place (`None`); a single table is taken as it is, name included; two or more are
      merged. */
  function Imported(tables: seq<Table>, filePath: Option<string>): (r: Result<Option<Table>>)
    ensures |tables| == 0 <==> r == Ok(None)
    ensures |tables| == 1 ==> r == Ok(Some(tables[0]))
    ensures |tables| >= 2 ==> (r.Ok? <==> Merged(tables, filePath).Ok?)
    ensures |tables| >= 2 && r.Ok? ==> r.value == Some(Merged(tables, filePath).value)
  {
    if |tables| == 0 then Ok(None)
    else if |tables| == 1 then Ok(Some(tables[0]))
    else
      var m :- Merged(tables, filePath);
      Ok(Some(m))
  }

  // ---------------------------------------------------------------------------
  // The extension filter over the sub-folder imports

  /** The sub-folder map flattened in iteration order: each file name with its table. */
  function FolderEntries(folders: seq<(string, seq<(string, Table)>)>): seq<(string, Table)>
  {
    if |folders| == 0 then [] else FolderEntries(folders[..|folders| - 1]) + folders[|folders| - 1].1
  }

  /** `whenExtension(ext)`: the tables whose file name has extension `ext`, in iteration
      order; a `null` extension matches no file.  A file name without a dot makes
      `getExtension` return `null`, and the comparison on it throws. */
  function MatchingTables(entries: seq<(string, Table)>, ext: Option<string>): (r: Result<seq<Table>>)
    ensures r.Err? ==> r.error == RuntimeFailure
  {
    if |entries| == 0 then Ok([])
    else match MatchingTables(entries[..|entries| - 1], ext)
      case Err(e) => Err(e)
      case Ok(acc) =>
        var e := entries[|entries| - 1];
        match GetExtension(Some(e.0))
        case None => Err(RuntimeFailure)
        case Some(x) => Ok(if Some(x) == ext then acc + [e.1] else acc)
  }

  /** One more sub-folder's files follow those of the sub-folders before it. */
  lemma FolderEntriesStep(folders: seq<(string, seq<(string, Table)>)>, f: nat)
    requires f < |folders|
    ensures FolderEntries(folders[..f + 1]) == FolderEntries(folders[..f]) + folders[f].1
  {
    assert folders[..f + 1][..f] == folders[..f];
  }

  /** One more file is one more step of the filter. */
  lemma MatchingTablesStep(entries: seq<(string, Table)>, e: (string, Table), ext: Option<string>)
    ensures MatchingTables(entries + [e], ext) ==
      match MatchingTables(entries, ext)
      case Err(x) => Err(x)
      case Ok(acc) =>
        (match GetExtension(Some(e.0))
         case None => Err(RuntimeFailure)
         case Some(x) => Ok(if Some(x) == ext then acc + [e.1] else acc))
  {
    assert (entries + [e])[..|entries|] == entries;
  }

  /** A failure of the filter over a prefix of the files is final. */
  lemma {:induction false} MatchingTablesPrefixErr(entries: seq<(string, Table)>, p: seq<(string, Table)>, ext: Option<string>)
    requires p <= entries && MatchingTables(p, ext).Err?
    ensures MatchingTables(entries, ext).Err?
    decreases |entries| - |p|
  {
    if |p| < |entries| {
      var q := entries[..|p| + 1];
      assert q == p + [entries[|p|]];
      MatchingTablesStep(p, entries[|p|], ext);
      MatchingTablesPrefixErr(entries, q, ext);
    } else {
      assert p == entries;
    }
  }

  /** The files of the first `f` sub-folders come first. */
  lemma {:induction false} FolderEntriesPrefix(folders: seq<(string, seq<(string, Table)>)>, f: nat)
    requires f <= |folders|
    ensures FolderEntries(folders[..f]) <= FolderEntries(folders)
    decreases |folders| - f
  {
    if f == |folders| {
      assert folders[..f] == folders;
    } else {
      FolderEntriesPrefix(folders, f + 1);
      FolderEntriesStep(folders, f);
    }
  }

  /** One more file of sub-folder `f`: a file name without an extension fails the whole
      walk, and otherwise the file's table is kept exactly when its extension matches. */
  lemma MatchingFileStep(folders: seq<(string, seq<(string, Table)>)>, f: nat, e: nat, ext: Option<string>)
    requires f < |folders| && e < |folders[f].1|
    requires MatchingTables(FolderEntries(folders[..f]) + folders[f].1[..e], ext).Ok?
    ensures var x := GetExtension(Some(folders[f].1[e].0));
      var acc := MatchingTables(FolderEntries(folders[..f]) + folders[f].1[..e], ext).value;
      (x.None? ==> MatchingTables(FolderEntries(folders), ext).Err?) &&
      (x.Some? ==> (MatchingTables(FolderEntries(folders[..f]) + folders[f].1[..e + 1], ext) ==
        Ok(if Some(x.value) == ext then acc + [folders[f].1[e].1] else acc)))
  {
    var done := FolderEntries(folders[..f]);
    var files := folders[f].1;
    MatchingTablesStep(done + files[..e], files[e], ext);
    assert (done + files[..e]) + [files[e]] == done + files[..e + 1];
    if GetExtension(Some(files[e].0)).None? {
      MatchingRestFails(folders, f, e, ext);
    }
  }

  /** A walk that fails on a file of sub-folder `f` fails over all the folders. */
  lemma MatchingRestFails(folders: seq<(string, seq<(string, Table)>)>, f: nat, e: nat, ext: Option<string>)
    requires f < |folders| && e < |folders[f].1|
    requires MatchingTables(FolderEntries(folders[..f]) + folders[f].1[..e + 1], ext).Err?
    ensures MatchingTables(FolderEntries(folders), ext).Err?
  {
    var done := FolderEntries(folders[..f]);
    var files := folders[f].1;
    FolderEntriesStep(folders, f);
    FolderEntriesPrefix(folders, f + 1);
    assert (done + files)[..|done| + e + 1] == done + files[..e + 1];
    MatchingTablesPrefixErr(FolderEntries(folders), done + files[..e + 1], ext);
  }

  /** Sub-folder `f`'s files start after the entries of the folders before it and, all
      taken, reach the entries of the first `f + 1` folders. */
  lemma MatchingFolderStep(folders: seq<(string, seq<(string, Table)>)>, f: nat)
    requires f < |folders|
    ensures FolderEntries(folders[..f]) + folders[f].1[..0] == FolderEntries(folders[..f])
    ensures FolderEntries(folders[..f]) + folders[f].1[..|folders[f].1|] == FolderEntries(folders[..f + 1])
  {
    FolderEntriesStep(folders, f);
    assert folders[f].1[..0] == [];
    assert folders[f].1[..|folders[f].1|] == folders[f].1;
  }

  predicate HasExtension(e: (string, Table), ext: Option<string>)
  {
    ext.Some? && GetExtension(Some(e.0)) == ext
  }

  function TablesOf(entries: seq<(string, Table)>): (r: seq<Table>)
    ensures |r| == |entries| && forall k :: 0 <= k < |r| ==> r[k] == entries[k].1
  {
    if |entries| == 0 then [] else TablesOf(entries[..|entries| - 1]) + [entries[|entries| - 1].1]
  }

  /** The entries with extension `ext`, in order, as an independent definition. */
  function WithExtension(entries: seq<(string, Table)>, ext: Option<string>): (r: seq<(string, Table)>)
    ensures forall k :: 0 <= k < |r| ==> r[k] in entries && HasExtension(r[k], ext)
  {
    if |entries| == 0 then []
    else if HasExtension(entries[|entries| - 1], ext) then WithExtension(entries[..|entries| - 1], ext) + [entries[|entries| - 1]]
    else WithExtension(entries[..|entries| - 1], ext)
  }

  /** The filter fails exactly when some file name has no extension. */
  lemma {:induction false} MatchingTablesFails(entries: seq<(string, Table)>, ext: Option<string>)
    ensures MatchingTables(entries, ext).Err? <==> exists k :: 0 <= k < |entries| && GetExtension(Some(entries[k].0)).None?
  {
    if |entries| > 0 {
      var front := entries[..|entries| - 1];
      MatchingTablesFails(front, ext);
      if exists k :: 0 <= k < |front| && GetExtension(Some(front[k].0)).None? {
        var k :| 0 <= k < |front| && GetExtension(Some(front[k].0)).None?;
        assert entries[k] == front[k];
      }
      if exists k :: 0 <= k < |entries| && GetExtension(Some(entries[k].0)).None? {
        var k :| 0 <= k < |entries| && GetExtension(Some(entries[k].0)).None?;
        if k < |front| {
          assert front[k] == entries[k];
        }
      }
    }
  }

  /** Otherwise it keeps exactly the tables of the files with that extension, in order. */
  lemma {:induction false} MatchingTablesKeeps(entries: seq<(string, Table)>, ext: Option<string>)
    requires MatchingTables(entries, ext).Ok?
    ensures MatchingTables(entries, ext).value == TablesOf(WithExtension(entries, ext))
  {
    if |entries| > 0 {
      var front := entries[..|entries| - 1];
      var e := entries[|entries| - 1];
      MatchingTablesKeeps(front, ext);
      var w := WithExtension(front, ext);
      if HasExtension(e, ext) {
        assert (w + [e])[..|w|] == w;
      }
    }
  }
}
