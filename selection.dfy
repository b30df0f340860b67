/** What each step of `SelectBuilder` does to its list of candidate tables, as functions of
    the list.  The builder's methods are proved to compute these. */
module Selection {
  import opened Wrappers
  import opened Tables
  import opened Utils
  import opened Folds

  // ---------------------------------------------------------------------------
  // selectByPath

  /** The tables, each given the name `n` (`subTable.setName(table.getName())`). */
  function Renamed(ts: seq<Table>, n: Option<string>): (r: seq<Table>)
    ensures |r| == |ts|
    ensures forall k :: 0 <= k < |r| ==> r[k] == Table(n, ts[k].columns)
  {
    if |ts| == 0 then [] else Renamed(ts[..|ts| - 1], n) + [Table(n, ts[|ts| - 1].columns)]
  }

  /** One candidate of `selectByPath`: its sub-tables along `dir`, renamed after it.  A
      missing first column makes the Java loop iterate a `null` list. */
  function PathStep(t: Table, dir: seq<string>, pathText: string, multi: bool): (r: Result<seq<Table>>)
    ensures r.Ok? <==> (SubTables(t, dir).Ok? && SubTables(t, dir).value.Some? &&
      |SubTables(t, dir).value.value| >= 1 && (multi || |SubTables(t, dir).value.value| == 1))
    ensures r.Ok? ==> r.value == Renamed(SubTables(t, dir).value.value, t.name)
  {
    match SubTables(t, dir)
    case Err(e) => Err(e)
    case Ok(None) => Err(RuntimeFailure)
    case Ok(Some(subs)) =>
      if |subs| == 0 then Err(SelectError("Subtable " + pathText + " not found!"))
      else if !multi && |subs| > 1 then Err(SelectError("Is ambiguous which table to select!"))
      else Ok(Renamed(subs, t.name))
  }

  /** `selectByPath(hasMultipleTables)`: every candidate's sub-tables, in candidate order. */
  function PathSelection(tables: seq<Table>, path: Option<string>, multi: bool): Result<seq<Table>>
  {
    ConcatMap(tables, (t: Table) => PathStep(t, GetDirectory(path), OrNull(path), multi))
  }

  /** One more candidate: its sub-tables follow the earlier ones, or its failure is final. */
  lemma PathSelectionStep(tables: seq<Table>, path: Option<string>, multi: bool, i: nat)
    requires i < |tables| && PathSelection(tables[..i], path, multi).Ok?
    ensures var step := PathStep(tables[i], GetDirectory(path), OrNull(path), multi);
      (step.Err? ==> PathSelection(tables, path, multi) == Err(step.error)) &&
      (step.Ok? ==> PathSelection(tables[..i + 1], path, multi) == Ok(PathSelection(tables[..i], path, multi).value + step.value))
  {
    var f := (t: Table) => PathStep(t, GetDirectory(path), OrNull(path), multi);
    ConcatMapStep(tables, f, i);
    if f(tables[i]).Err? {
      ConcatMapPrefixErr(tables, f, i + 1);
    }
  }

  /** Each selected table carries the name of a candidate; without `multi` there is exactly
      one per candidate, in candidate order. */
  lemma PathSelectionShape(tables: seq<Table>, path: Option<string>, multi: bool)
    requires PathSelection(tables, path, multi).Ok?
    ensures var r := PathSelection(tables, path, multi).value;
      (forall k :: 0 <= k < |r| ==> exists j :: 0 <= j < |tables| && r[k].name == tables[j].name) &&
      (!multi ==> |r| == |tables| && forall k :: 0 <= k < |r| ==> r[k].name == tables[k].name)
  {
    var f := (t: Table) => PathStep(t, GetDirectory(path), OrNull(path), multi);
    var r := PathSelection(tables, path, multi).value;
    forall k | 0 <= k < |r|
      ensures exists j :: 0 <= j < |tables| && r[k].name == tables[j].name
    {
      var j := ConcatMapMember(tables, f, k);
      assert r[k] in f(tables[j]).value;
    }
    if !multi {
      ConcatMapSingletons(tables, f);
    }
  }

  /** The empty path keeps every candidate as it is. */
  lemma PathSelectionEmptyPath(tables: seq<Table>, multi: bool)
    ensures PathSelection(tables, Some(""), multi) == Ok(tables)
  {
    var f := (t: Table) => PathStep(t, GetDirectory(Some("")), OrNull(Some("")), multi);
    assert GetDirectory(Some("")) == [];
    forall k | 0 <= k < |tables|
      ensures f(tables[k]) == Ok([tables[k]])
    {
      var t := tables[k];
      assert SubTables(t, []) == Ok(Some([t]));
      assert Renamed([t], t.name) == [Table(t.name, t.columns)] == [t];
    }
    ConcatMapUnits(tables, f);
  }

  // ---------------------------------------------------------------------------
  // selectByTargetColumn()

  /** One candidate: the prefix of the path must lead to exactly one sub-table, which must
      hold the target column; the result is a new table with that column only. */
  function ColumnStep(t: Table, reduced: seq<string>, target: string): (r: Result<Table>)
    ensures r.Ok? <==> (SubTables(t, reduced).Ok? && SubTables(t, reduced).value.Some? &&
      |SubTables(t, reduced).value.value| == 1 &&
      FindColumn(SubTables(t, reduced).value.value[0].columns, target).Some?)
    ensures r.Ok? ==> r.value.name == t.name && |r.value.columns| == 1 && r.value.columns[0].name == target
  {
    match SubTables(t, reduced)
    case Err(e) => Err(e)
    case Ok(None) => Err(RuntimeFailure)
    case Ok(Some(subs)) =>
      if |subs| > 1 then Err(SelectError("Table " + OrNull(t.name) + " is ambiguous!"))
      else if |subs| == 0 then Err(RuntimeFailure)
      else match GetColumn(subs[0].columns, target)
        case None => Err(SelectError("Column " + target + " not found!"))
        case Some(c) => Ok(Table(t.name, [c]))
  }

  /** `selectByTargetColumn()`: the last path segment names the column, the others lead to
      the sub-table.  A path without segments fails at `getLast`. */
  function ColumnSelection(tables: seq<Table>, path: Option<string>): (r: Result<seq<Table>>)
    ensures |GetDirectory(path)| == 0 ==> r == Err(RuntimeFailure)
    ensures r.Ok? ==> |r.value| == |tables| && forall k :: 0 <= k < |tables| ==>
      r.value[k].name == tables[k].name && |r.value[k].columns| == 1 &&
      r.value[k].columns[0].name == GetDirectory(path)[|GetDirectory(path)| - 1]
  {
    var d := GetDirectory(path);
    if |d| == 0 then Err(RuntimeFailure)
    else
      var reduced := GetDirectoryPath(path).value;
      MapResult(tables, (t: Table) => ColumnStep(t, reduced, d[|d| - 1]))
  }

  /** One more candidate: its single-column table follows the earlier ones, or its
      failure is final. */
  lemma ColumnSelectionStep(tables: seq<Table>, path: Option<string>, i: nat)
    requires |GetDirectory(path)| > 0
    requires i < |tables| && ColumnSelection(tables[..i], path).Ok?
    ensures var d := GetDirectory(path);
      var step := ColumnStep(tables[i], GetDirectoryPath(path).value, d[|d| - 1]);
      (step.Err? ==> ColumnSelection(tables, path) == Err(step.error)) &&
      (step.Ok? ==> ColumnSelection(tables[..i + 1], path) == Ok(ColumnSelection(tables[..i], path).value + [step.value]))
  {
    var d := GetDirectory(path);
    var reduced := GetDirectoryPath(path).value;
    var f := (t: Table) => ColumnStep(t, reduced, d[|d| - 1]);
    MapResultStep(tables, f, i);
    if f(tables[i]).Err? {
      MapResultPrefixErr(tables, f, i + 1);
    }
  }

  // ---------------------------------------------------------------------------
  // Extremum selection (selectByTargetColumn(columnName, function))

  const NotNumberColumn: Error := SelectError("SelectBy must be targeted number columns")

  /** The first cell of the named column cast to `Number`: a missing column, an empty
      column or a non-number is caught and reported; a `null` cell casts to `null`.  The
      first column of that name is the one looked at, as `getColumn` finds it. */
  function NumberAt(t: Table, col: string): (r: Result<Option<real>>)
    ensures r.Err? ==> r.error == NotNumberColumn
  {
    NumberIn(t.columns, col)
  }

  function NumberIn(cols: seq<Column>, col: string): (r: Result<Option<real>>)
    ensures r.Err? ==> r.error == NotNumberColumn
  {
    if |cols| == 0 then Err(NotNumberColumn)
    else if cols[0].name != col then NumberIn(cols[1..], col)
    else if |cols[0].rows| == 0 then Err(NotNumberColumn)
    else match cols[0].rows[0]
      case Num(n) => Ok(Some(n))
      case Null => Ok(None)
      case _ => Err(NotNumberColumn)
  }

  /** The function name of an extremum step, read in any case. */
  datatype Comparator = MaxOf | MinOf | Unknown(name: string)

  function ComparatorOf(fn: string): (c: Comparator)
    ensures c == MaxOf <==> ToUpper(fn) == "MAX"
    ensures c == MinOf <==> ToUpper(fn) == "MIN"
    ensures c.Unknown? ==> c.name == fn
  {
    var f := ToUpper(fn);
    if f == "MAX" then MaxOf else if f == "MIN" then MinOf else Unknown(fn)
  }

  /** Whether `cur` replaces `main`: strictly greater for MAX, strictly smaller for MIN;
      a `null` value fails when it is unboxed, after both values are read. */
  function Replaces(main: Table, cur: Table, col: string, cmp: Comparator): Result<bool>
  {
    var mv :- NumberAt(main, col);
    var cv :- NumberAt(cur, col);
    match cmp
    case MaxOf => if mv.None? || cv.None? then Err(RuntimeFailure) else Ok(mv.value < cv.value)
    case MinOf => if mv.None? || cv.None? then Err(RuntimeFailure) else Ok(mv.value > cv.value)
    case Unknown(fn) => Err(SelectError("Unknown function comparator: " + fn))
  }

  /** The position of the table the extremum loop keeps; an empty list fails at `get(0)`
      and a single table is kept without any check. */
  function ExtremumIndex(tables: seq<Table>, col: string, cmp: Comparator): (r: Result<nat>)
    ensures r.Ok? ==> r.value < |tables|
    ensures |tables| == 0 ==> r == Err(RuntimeFailure)
    ensures |tables| == 1 ==> r == Ok(0)
  {
    if |tables| == 0 then Err(RuntimeFailure)
    else if |tables| == 1 then Ok(0)
    else
      var best :- ExtremumIndex(tables[..|tables| - 1], col, cmp);
      var replace :- Replaces(tables[best], tables[|tables| - 1], col, cmp);
      Ok(if replace then |tables| - 1 else best)
  }

  /** The extremum step leaves a one-table list. */
  function Extremum(tables: seq<Table>, col: string, fn: string): (r: Result<seq<Table>>)
    ensures r.Ok? ==> |r.value| == 1 && r.value[0] in tables
  {
    var i :- ExtremumIndex(tables, col, ComparatorOf(fn));
    Ok([tables[i]])
  }

  predicate HasNumber(t: Table, col: string)
  {
    NumberAt(t, col).Ok? && NumberAt(t, col).value.Some?
  }

  function NumberOf(t: Table, col: string): real
    requires HasNumber(t, col)
  {
    NumberAt(t, col).value.value
  }

  /** How the kept value `kept` relates to another candidate's value `other`: no better,
      and strictly worse when the other candidate comes earlier. */
  predicate KeptOver(other: real, kept: real, earlier: bool, isMax: bool)
  {
    if isMax then other <= kept && (earlier ==> other < kept)
    else other >= kept && (earlier ==> other > kept)
  }

  lemma ReplacesOnNumbers(main: Table, cur: Table, col: string, cmp: Comparator)
    requires HasNumber(main, col) && HasNumber(cur, col) && !cmp.Unknown?
    ensures Replaces(main, cur, col, cmp) ==
      Ok(if cmp == MaxOf then NumberOf(main, col) < NumberOf(cur, col) else NumberOf(main, col) > NumberOf(cur, col))
  {
  }

  /** With numbers everywhere, MAX keeps the earliest table holding the greatest value
      (ties keep the earlier table) and MIN the earliest holding the smallest. */
  lemma {:induction false} ExtremumIsEarliestBest(tables: seq<Table>, col: string, cmp: Comparator)
    requires |tables| >= 1 && !cmp.Unknown?
    requires forall k :: 0 <= k < |tables| ==> HasNumber(tables[k], col)
    ensures ExtremumIndex(tables, col, cmp).Ok?
    ensures var i := ExtremumIndex(tables, col, cmp).value;
      forall j :: 0 <= j < |tables| ==>
        KeptOver(NumberOf(tables[j], col), NumberOf(tables[i], col), j < i, cmp == MaxOf)
  {
    if |tables| > 1 {
      var front := tables[..|tables| - 1];
      var last := tables[|tables| - 1];
      assert forall j :: 0 <= j < |front| ==> front[j] == tables[j];
      ExtremumIsEarliestBest(front, col, cmp);
      var best := ExtremumIndex(front, col, cmp).value;
      ExtremumBestStep(tables, col, cmp, best);
    }
  }

  /** The last candidate compared with the one kept over all the others. */
  lemma ExtremumBestStep(tables: seq<Table>, col: string, cmp: Comparator, best: nat)
    requires |tables| >= 2 && !cmp.Unknown?
    requires forall k :: 0 <= k < |tables| ==> HasNumber(tables[k], col)
    requires ExtremumIndex(tables[..|tables| - 1], col, cmp) == Ok(best)
    requires forall j :: 0 <= j < |tables| - 1 ==>
      KeptOver(NumberOf(tables[j], col), NumberOf(tables[best], col), j < best, cmp == MaxOf)
    ensures ExtremumIndex(tables, col, cmp).Ok?
    ensures var i := ExtremumIndex(tables, col, cmp).value;
      forall j :: 0 <= j < |tables| ==>
        KeptOver(NumberOf(tables[j], col), NumberOf(tables[i], col), j < i, cmp == MaxOf)
  {
    var last := |tables| - 1;
    ExtremumIndexNext(tables, col, cmp, last);
    ReplacesOnNumbers(tables[best], tables[last], col, cmp);
    assert tables[..last + 1] == tables;
    KeptOverLast(tables, col, best, cmp == MaxOf);
  }

  /** One step of the extremum loop keeps the property: the last table replaces the kept
      one exactly when its value is strictly better. */
  lemma KeptOverLast(tables: seq<Table>, col: string, best: nat, isMax: bool)
    requires |tables| >= 2 && best < |tables| - 1
    requires forall k :: 0 <= k < |tables| ==> HasNumber(tables[k], col)
    requires forall j :: 0 <= j < |tables| - 1 ==>
      KeptOver(NumberOf(tables[j], col), NumberOf(tables[best], col), j < best, isMax)
    ensures var last := |tables| - 1;
      var replace := if isMax then NumberOf(tables[best], col) < NumberOf(tables[last], col)
        else NumberOf(tables[best], col) > NumberOf(tables[last], col);
      var i := if replace then last else best;
      forall j :: 0 <= j < |tables| ==>
        KeptOver(NumberOf(tables[j], col), NumberOf(tables[i], col), j < i, isMax)
  {
  }

  /** Among two or more candidates, a value that is not a number, or a column that is
      missing or empty, makes the selection fail. */
  lemma {:induction false} ExtremumRejectsNonNumbers(tables: seq<Table>, col: string, cmp: Comparator, k: nat)
    requires |tables| >= 2 && k < |tables| && NumberAt(tables[k], col).Err?
    ensures ExtremumIndex(tables, col, cmp).Err?
  {
    var front := tables[..|tables| - 1];
    if k < |tables| - 1 && |front| >= 2 {
      assert front[k] == tables[k];
      ExtremumRejectsNonNumbers(front, col, cmp, k);
    }
  }

  /** One more candidate for the extremum loop: compared with the one kept so far, it
      replaces it, or the comparison fails. */
  lemma ExtremumIndexNext(tables: seq<Table>, col: string, cmp: Comparator, i: nat)
    requires 1 <= i < |tables| && ExtremumIndex(tables[..i], col, cmp).Ok?
    ensures var best := ExtremumIndex(tables[..i], col, cmp).value;
      var replace := Replaces(tables[best], tables[i], col, cmp);
      (replace.Err? ==> ExtremumIndex(tables[..i + 1], col, cmp) == Err(replace.error)) &&
      (replace.Ok? ==> ExtremumIndex(tables[..i + 1], col, cmp) == Ok(if replace.value then i else best))
  {
    var s := tables[..i + 1];
    var best := ExtremumIndex(tables[..i], col, cmp).value;
    assert s[..|s| - 1] == tables[..i];
    assert s[best] == tables[best] && s[|s| - 1] == tables[i];
  }

  /** One step of the extremum loop with `main` kept so far: a failed comparison fails the
      whole selection, and otherwise the walk goes one candidate further. */
  lemma ExtremumAdvance(tables: seq<Table>, col: string, cmp: Comparator, i: nat, main: nat)
    requires 1 <= i < |tables| && ExtremumIndex(tables[..i], col, cmp) == Ok(main)
    ensures var replace := Replaces(tables[main], tables[i], col, cmp);
      (replace.Err? ==> ExtremumIndex(tables, col, cmp) == Err(replace.error)) &&
      (replace.Ok? ==> ExtremumIndex(tables[..i + 1], col, cmp) == Ok(if replace.value then i else main))
  {
    ExtremumIndexNext(tables, col, cmp, i);
    if Replaces(tables[main], tables[i], col, cmp).Err? {
      ExtremumIndexPrefixErr(tables, col, cmp, i + 1);
    }
  }

  lemma ExtremumIndexErrStep(tables: seq<Table>, col: string, cmp: Comparator, i: nat)
    requires 1 <= i < |tables| && ExtremumIndex(tables[..i], col, cmp).Err?
    ensures ExtremumIndex(tables[..i + 1], col, cmp) == ExtremumIndex(tables[..i], col, cmp)
  {
    var s := tables[..i + 1];
    assert s[..|s| - 1] == tables[..i];
  }

  /** The first failure of the extremum loop is final. */
  lemma ExtremumIndexPrefixErr(tables: seq<Table>, col: string, cmp: Comparator, i: nat)
    requires 1 <= i <= |tables| && ExtremumIndex(tables[..i], col, cmp).Err?
    ensures ExtremumIndex(tables, col, cmp) == ExtremumIndex(tables[..i], col, cmp)
  {
    var k := i;
    while k < |tables|
      invariant i <= k <= |tables| && ExtremumIndex(tables[..k], col, cmp) == ExtremumIndex(tables[..i], col, cmp)
    {
      ExtremumIndexErrStep(tables, col, cmp, k);
      k := k + 1;
    }
    assert tables[..k] == tables;
  }

  /** Among two or more candidates, a function other than MAX or MIN (in any case) is
      rejected. */
  lemma ExtremumRejectsUnknownFunction(tables: seq<Table>, col: string, fn: string)
    requires |tables| >= 2 && ToUpper(fn) != "MAX" && ToUpper(fn) != "MIN"
    ensures Extremum(tables, col, fn).Err?
  {
  }

  // ---------------------------------------------------------------------------
  // Top-N selection (selectByTargetRow)

  /** The distinct table names in order of first appearance: the groups of
      `folderTables`. */
  function GroupKeys(tables: seq<Table>): (r: seq<Option<string>>)
    ensures forall i, j :: 0 <= i < j < |r| ==> r[i] != r[j]
    ensures forall k :: 0 <= k < |r| ==> exists j :: 0 <= j < |tables| && tables[j].name == r[k]
  {
    if |tables| == 0 then []
    else
      var keys := GroupKeys(tables[..|tables| - 1]);
      var n := tables[|tables| - 1].name;
      if n in keys then keys else keys + [n]
  }

  /** Every table's name is a group key. */
  lemma {:induction false} GroupKeysCover(tables: seq<Table>, j: nat)
    requires j < |tables|
    ensures tables[j].name in GroupKeys(tables)
  {
    if j < |tables| - 1 {
      GroupKeysCover(tables[..|tables| - 1], j);
    }
  }

  /** The group of `key`: the tables with that name, in their order. */
  function Group(tables: seq<Table>, key: Option<string>): seq<Table>
  {
    Filter(tables, (t: Table) => t.name == key)
  }

  function FirstCell(t: Table): Option<Cell>
  {
    if |t.columns| == 0 || |t.columns[0].rows| == 0 then None else Some(t.columns[0].rows[0])
  }

  predicate HasNumericFirstCell(t: Table)
  {
    FirstCell(t).Some? && FirstCell(t).value.Num?
  }

  function RealCompare(x: real, y: real): int
  {
    if x < y then -1 else if x > y then 1 else 0
  }

  /** The ranking comparator: descending for MAX, ascending for MIN, on the first cell of
      the first column; a pair involving a non-number compares equal. */
  function Compare(a: Table, b: Table, isMax: bool): int
  {
    if HasNumericFirstCell(a) && HasNumericFirstCell(b) then
      if isMax then RealCompare(FirstCell(b).value.n, FirstCell(a).value.n)
      else RealCompare(FirstCell(a).value.n, FirstCell(b).value.n)
    else 0
  }

  /** The ranking lambda as Java evaluates it: `a`'s first cell is read first, which
      throws when `a` has no column or its first column no row; only when that cell is a
      number is `b`'s read, with the same failure; two numbers compare by `Compare` and
      any other pair gives 0. */
  function RankCompare(a: Table, b: Table, isMax: bool): (r: Result<int>)
    ensures r.Err? <==> FirstCell(a).None? || (HasNumericFirstCell(a) && FirstCell(b).None?)
    ensures r.Ok? ==> r.value == Compare(a, b, isMax)
  {
    if FirstCell(a).None? then Err(RuntimeFailure)
    else if !FirstCell(a).value.Num? then Ok(0)
    else if FirstCell(b).None? then Err(RuntimeFailure)
    else Ok(Compare(a, b, isMax))
  }

  /** `compare(g[k], g[k - 1])` does not throw, and is below 0 exactly when `desc`. */
  predicate RunGoesOn(g: seq<Table>, k: nat, desc: bool, isMax: bool)
    requires 1 <= k < |g|
  {
    RankCompare(g[k], g[k - 1], isMax).Ok? && (RankCompare(g[k], g[k - 1], isMax).value < 0 <==> desc)
  }

  /** The scan of TimSort's `countRunAndMakeAscending` from `hi`: the run goes on while
      `compare(g[hi], g[hi - 1])` is below 0 (a descending run) or not below 0 (an
      ascending one). */
  function RunEnd(g: seq<Table>, hi: nat, desc: bool, isMax: bool): (r: Result<nat>)
    requires 1 <= hi <= |g|
    ensures r.Ok? ==> hi <= r.value <= |g|
    ensures r.Ok? ==> forall k :: hi <= k < r.value ==> RunGoesOn(g, k, desc, isMax)
    ensures r.Ok? && r.value < |g| ==> RunGoesOn(g, r.value, !desc, isMax)
    decreases |g| - hi
  {
    if hi == |g| then Ok(hi)
    else
      var c :- RankCompare(g[hi], g[hi - 1], isMax);
      if (c < 0) == desc then RunEnd(g, hi + 1, desc, isMax) else Ok(hi)
  }

  function Reverse(s: seq<Table>): (r: seq<Table>)
    ensures |r| == |s| && forall k :: 0 <= k < |s| ==> r[k] == s[|s| - 1 - k]
    ensures multiset(r) == multiset(s)
  {
    if |s| == 0 then []
    else
      assert s == [s[0]] + s[1..];
      Reverse(s[1..]) + [s[0]]
  }

  /** `countRunAndMakeAscending` on two tables or more: the first comparison is
      `compare(g[1], g[0])`; a run it finds descending is reversed in place.  The group
      comes back with the run's length. */
  function LeadingRun(g: seq<Table>, isMax: bool): (r: Result<(seq<Table>, nat)>)
    requires |g| >= 2
    ensures r.Ok? ==> 2 <= r.value.1 <= |g| && |r.value.0| == |g| && multiset(r.value.0) == multiset(g)
  {
    var c :- RankCompare(g[1], g[0], isMax);
    if c < 0 then
      var hi :- RunEnd(g, 2, true, isMax);
      assert g == g[..hi] + g[hi..];
      Ok((Reverse(g[..hi]) + g[hi..], hi))
    else
      var hi :- RunEnd(g, 2, false, isMax);
      Ok((g, hi))
  }

  /** The binary search of TimSort's `binarySort`: the place of `pivot` in `s[left..right]`,
      found by calling `compare(pivot, s[mid])` and going right on anything not below 0. */
  function InsertionPoint(s: seq<Table>, pivot: Table, left: nat, right: nat, isMax: bool): (r: Result<nat>)
    requires left <= right <= |s|
    ensures r.Ok? ==> left <= r.value <= right
    decreases right - left
  {
    if left == right then Ok(left)
    else
      var mid := (left + right) / 2;
      var c :- RankCompare(pivot, s[mid], isMax);
      if c < 0 then InsertionPoint(s, pivot, left, mid, isMax)
      else InsertionPoint(s, pivot, mid + 1, right, isMax)
  }

  /** `a[start]` moved down to `pos`, the tables from `pos` on shifting up one place. */
  function Moved(a: seq<Table>, start: nat, pos: nat): (r: seq<Table>)
    requires pos <= start < |a|
    ensures |r| == |a| && multiset(r) == multiset(a)
    ensures forall k :: 0 <= k < |a| ==>
      r[k] == (if k < pos then a[k] else if k == pos then a[start] else if k <= start then a[k - 1] else a[k])
  {
    assert a == a[..pos] + a[pos..start] + [a[start]] + a[start + 1..];
    a[..pos] + [a[start]] + a[pos..start] + a[start + 1..]
  }

  /** `binarySort` from `start`: every later table in turn inserted where the binary
      search puts it among the tables before it. */
  function BinarySort(a: seq<Table>, start: nat, isMax: bool): (r: Result<seq<Table>>)
    requires start <= |a|
    ensures r.Ok? ==> |r.value| == |a| && multiset(r.value) == multiset(a)
    decreases |a| - start
  {
    if start == |a| then Ok(a)
    else
      var pos :- InsertionPoint(a, a[start], 0, start, isMax);
      BinarySort(Moved(a, start, pos), start + 1, isMax)
  }

  /** `List.sort` with the ranking lambda, as TimSort runs it on fewer than 32 tables:
      fewer than two are left alone; otherwise the leading run is made ascending and every
      later table binary-inserted.  A comparison that throws ends the sort. */
  function SortGroup(g: seq<Table>, isMax: bool): (r: Result<seq<Table>>)
    ensures r.Ok? ==> |r.value| == |g| && multiset(r.value) == multiset(g)
  {
    if |g| < 2 then Ok(g)
    else
      var run :- LeadingRun(g, isMax);
      BinarySort(run.0, run.1, isMax)
  }

  function Rank(t: Table): real
    requires HasNumericFirstCell(t)
  {
    FirstCell(t).value.n
  }

  predicate AllNumeric(s: seq<Table>)
  {
    forall k :: 0 <= k < |s| ==> HasNumericFirstCell(s[k])
  }

  predicate AllHaveFirstCell(s: seq<Table>)
  {
    forall k :: 0 <= k < |s| ==> FirstCell(s[k]).Some?
  }

  /** `a` may come before `b` in a ranked group. */
  predicate RanksBefore(a: Table, b: Table, isMax: bool)
    requires HasNumericFirstCell(a) && HasNumericFirstCell(b)
  {
    if isMax then Rank(a) >= Rank(b) else Rank(a) <= Rank(b)
  }

  /** The first `end` tables are in rank order. */
  predicate RankedPrefix(s: seq<Table>, end: nat, isMax: bool)
    requires AllNumeric(s) && end <= |s|
  {
    forall i, j :: 0 <= i < j < end ==> RanksBefore(s[i], s[j], isMax)
  }

  predicate Ranked(s: seq<Table>, isMax: bool)
    requires AllNumeric(s)
  {
    RankedPrefix(s, |s|, isMax)
  }

  /** On numbers, the comparator puts `x` strictly first exactly when it ranks strictly
      better. */
  lemma CompareOnNumbers(x: Table, e: Table, isMax: bool)
    requires HasNumericFirstCell(x) && HasNumericFirstCell(e)
    ensures RankCompare(x, e, isMax).Ok?
    ensures RankCompare(x, e, isMax).value < 0 <==> (if isMax then Rank(x) > Rank(e) else Rank(x) < Rank(e))
  {
  }

  /** Neighbours in rank order make the whole stretch ranked. */
  lemma {:induction false} NeighboursRanked(s: seq<Table>, end: nat, isMax: bool)
    requires AllNumeric(s) && end <= |s|
    requires forall i :: 0 <= i < end - 1 ==> RanksBefore(s[i], s[i + 1], isMax)
    ensures RankedPrefix(s, end, isMax)
  {
    if end > 1 {
      NeighboursRanked(s, end - 1, isMax);
      forall i, j | 0 <= i < j < end
        ensures RanksBefore(s[i], s[j], isMax)
      {
        if j == end - 1 && i < end - 2 {
          assert RanksBefore(s[i], s[end - 2], isMax);
          assert RanksBefore(s[end - 2], s[end - 1], isMax);
        }
      }
    }
  }

  /** With numbers first everywhere, the leading run comes out in rank order. */
  lemma LeadingRunRanked(g: seq<Table>, isMax: bool)
    requires |g| >= 2 && AllNumeric(g)
    ensures LeadingRun(g, isMax).Ok?
    ensures AllNumeric(LeadingRun(g, isMax).value.0)
    ensures RankedPrefix(LeadingRun(g, isMax).value.0, LeadingRun(g, isMax).value.1, isMax)
  {
    assert AllHaveFirstCell(g);
    CompareOnNumbers(g[1], g[0], isMax);
    var desc := RankCompare(g[1], g[0], isMax).value < 0;
    RunEndSucceeds(g, 2, desc, isMax);
    var hi := RunEnd(g, 2, desc, isMax).value;
    if desc {
      assert LeadingRun(g, isMax).value == (Reverse(g[..hi]) + g[hi..], hi);
      DescendingRunRanked(g, hi, isMax);
    } else {
      assert LeadingRun(g, isMax).value == (g, hi);
      forall i | 0 <= i < hi - 1
        ensures RanksBefore(g[i], g[i + 1], isMax)
      {
        if i > 0 {
          assert RunGoesOn(g, i + 1, false, isMax);
        }
        CompareOnNumbers(g[i + 1], g[i], isMax);
      }
      NeighboursRanked(g, hi, isMax);
    }
  }

  /** A run of strict improvements, reversed, is in rank order. */
  lemma DescendingRunRanked(g: seq<Table>, hi: nat, isMax: bool)
    requires 2 <= hi <= |g| && AllNumeric(g)
    requires RankCompare(g[1], g[0], isMax).value < 0
    requires forall k :: 2 <= k < hi ==> RunGoesOn(g, k, true, isMax)
    ensures AllNumeric(Reverse(g[..hi]) + g[hi..])
    ensures RankedPrefix(Reverse(g[..hi]) + g[hi..], hi, isMax)
  {
    var b := Reverse(g[..hi]) + g[hi..];
    forall i | 0 <= i < |b|
      ensures HasNumericFirstCell(b[i])
    {
      if i < hi {
        assert b[i] == g[hi - 1 - i];
      } else {
        assert b[i] == g[i];
      }
    }
    forall i | 0 <= i < hi - 1
      ensures RanksBefore(b[i], b[i + 1], isMax)
    {
      var k := hi - 1 - i;
      assert b[i] == g[k] && b[i + 1] == g[k - 1];
      if k >= 2 {
        assert RunGoesOn(g, k, true, isMax);
      }
      CompareOnNumbers(g[k], g[k - 1], isMax);
    }
    NeighboursRanked(b, hi, isMax);
  }

  /** The binary search over a ranked front puts `pivot` after every table that ranks no
      worse and before every one it ranks strictly better than. */
  lemma {:induction false} InsertionPointRanked(s: seq<Table>, end: nat, pivot: Table, left: nat, right: nat, isMax: bool)
    requires AllNumeric(s) && end <= |s| && RankedPrefix(s, end, isMax) && HasNumericFirstCell(pivot)
    requires left <= right <= end
    requires forall k :: 0 <= k < left ==> RanksBefore(s[k], pivot, isMax)
    requires forall k :: right <= k < end ==> RanksBefore(pivot, s[k], isMax)
    ensures InsertionPoint(s, pivot, left, right, isMax).Ok?
    ensures var p := InsertionPoint(s, pivot, left, right, isMax).value;
      (forall k :: 0 <= k < p ==> RanksBefore(s[k], pivot, isMax)) &&
      (forall k :: p <= k < end ==> RanksBefore(pivot, s[k], isMax))
    decreases right - left
  {
    if left < right {
      var mid := (left + right) / 2;
      CompareOnNumbers(pivot, s[mid], isMax);
      if RankCompare(pivot, s[mid], isMax).value < 0 {
        forall k | mid <= k < end
          ensures RanksBefore(pivot, s[k], isMax)
        {
          if k > mid {
            assert RanksBefore(s[mid], s[k], isMax);
          }
        }
        InsertionPointRanked(s, end, pivot, left, mid, isMax);
      } else {
        forall k | 0 <= k < mid + 1
          ensures RanksBefore(s[k], pivot, isMax)
        {
          if k < mid {
            assert RanksBefore(s[k], s[mid], isMax);
          }
        }
        InsertionPointRanked(s, end, pivot, mid + 1, right, isMax);
      }
    }
  }

  /** Binary insertion over a ranked front ranks the whole group. */
  lemma {:induction false} BinarySortRanked(a: seq<Table>, start: nat, isMax: bool)
    requires start <= |a| && AllNumeric(a) && RankedPrefix(a, start, isMax)
    ensures BinarySort(a, start, isMax).Ok?
    ensures AllNumeric(BinarySort(a, start, isMax).value) && Ranked(BinarySort(a, start, isMax).value, isMax)
    decreases |a| - start
  {
    if start < |a| {
      var b := InsertedRanked(a, start, isMax);
      BinarySortRanked(b, start + 1, isMax);
    }
  }

  /** One insertion step of `binarySort` over a ranked front extends the front by one. */
  lemma InsertedRanked(a: seq<Table>, start: nat, isMax: bool) returns (b: seq<Table>)
    requires start < |a| && AllNumeric(a) && RankedPrefix(a, start, isMax)
    ensures |b| == |a| && AllNumeric(b) && RankedPrefix(b, start + 1, isMax)
    ensures BinarySort(a, start, isMax) == BinarySort(b, start + 1, isMax)
  {
    InsertionPointRanked(a, start, a[start], 0, start, isMax);
    var pos := InsertionPoint(a, a[start], 0, start, isMax).value;
    MovedRanked(a, start, pos, isMax);
    b := Moved(a, start, pos);
  }

  /** Moving `a[start]` to a place after the tables that rank no worse and before those
      it beats extends the ranked front by one. */
  lemma MovedRanked(a: seq<Table>, start: nat, pos: nat, isMax: bool)
    requires pos <= start < |a| && AllNumeric(a) && RankedPrefix(a, start, isMax)
    requires forall k :: 0 <= k < pos ==> RanksBefore(a[k], a[start], isMax)
    requires forall k :: pos <= k < start ==> RanksBefore(a[start], a[k], isMax)
    ensures AllNumeric(Moved(a, start, pos)) && RankedPrefix(Moved(a, start, pos), start + 1, isMax)
  {
    var b := Moved(a, start, pos);
    assert AllNumeric(b);
    forall i, j | 0 <= i < j < start + 1
      ensures RanksBefore(b[i], b[j], isMax)
    {
      if j < pos {
        assert b[i] == a[i] && b[j] == a[j];
      } else if j == pos {
        assert b[i] == a[i] && b[j] == a[start];
      } else if i < pos {
        assert b[i] == a[i] && b[j] == a[j - 1];
      } else if i == pos {
        assert b[i] == a[start] && b[j] == a[j - 1];
      } else {
        assert b[i] == a[i - 1] && b[j] == a[j - 1];
      }
    }
  }

  /** With a number first everywhere, the sort succeeds and ranks the group: descending
      for MAX and ascending for MIN. */
  lemma SortGroupRanked(g: seq<Table>, isMax: bool)
    requires AllNumeric(g)
    ensures SortGroup(g, isMax).Ok?
    ensures AllNumeric(SortGroup(g, isMax).value) && Ranked(SortGroup(g, isMax).value, isMax)
  {
    if |g| >= 2 {
      LeadingRunRanked(g, isMax);
      var run := LeadingRun(g, isMax).value;
      BinarySortRanked(run.0, run.1, isMax);
    }
  }

  /** The run scan compares only tables that have a first cell, so it cannot fail. */
  lemma {:induction false} RunEndSucceeds(g: seq<Table>, hi: nat, desc: bool, isMax: bool)
    requires 1 <= hi <= |g| && AllHaveFirstCell(g)
    ensures RunEnd(g, hi, desc, isMax).Ok?
    decreases |g| - hi
  {
    if hi < |g| {
      assert FirstCell(g[hi]).Some? && FirstCell(g[hi - 1]).Some?;
      RunEndSucceeds(g, hi + 1, desc, isMax);
    }
  }

  lemma {:induction false} InsertionPointSucceeds(s: seq<Table>, pivot: Table, left: nat, right: nat, isMax: bool)
    requires left <= right <= |s| && AllHaveFirstCell(s) && FirstCell(pivot).Some?
    ensures InsertionPoint(s, pivot, left, right, isMax).Ok?
    decreases right - left
  {
    if left < right {
      var mid := (left + right) / 2;
      assert FirstCell(s[mid]).Some?;
      InsertionPointSucceeds(s, pivot, left, mid, isMax);
      InsertionPointSucceeds(s, pivot, mid + 1, right, isMax);
    }
  }

  lemma {:induction false} BinarySortSucceeds(a: seq<Table>, start: nat, isMax: bool)
    requires start <= |a| && AllHaveFirstCell(a)
    ensures BinarySort(a, start, isMax).Ok?
    decreases |a| - start
  {
    if start < |a| {
      var b := InsertedWithFirstCells(a, start, isMax);
      BinarySortSucceeds(b, start + 1, isMax);
    }
  }

  /** One insertion step of `binarySort` keeps a first cell in every table. */
  lemma InsertedWithFirstCells(a: seq<Table>, start: nat, isMax: bool) returns (b: seq<Table>)
    requires start < |a| && AllHaveFirstCell(a)
    ensures |b| == |a| && AllHaveFirstCell(b)
    ensures BinarySort(a, start, isMax) == BinarySort(b, start + 1, isMax)
  {
    InsertionPointSucceeds(a, a[start], 0, start, isMax);
    var pos := InsertionPoint(a, a[start], 0, start, isMax).value;
    b := Moved(a, start, pos);
    forall k | 0 <= k < |b|
      ensures FirstCell(b[k]).Some?
    {
      var j := if k < pos then k else if k == pos then start else if k <= start then k - 1 else k;
      assert b[k] == a[j];
    }
  }

  /** Only a table without a first cell can make the sort throw: a group where every
      table has one is always sorted. */
  lemma SortGroupSucceeds(g: seq<Table>, isMax: bool)
    requires AllHaveFirstCell(g)
    ensures SortGroup(g, isMax).Ok?
  {
    if |g| >= 2 {
      LeadingRunSucceeds(g, isMax);
      var run := LeadingRun(g, isMax).value;
      BinarySortSucceeds(run.0, run.1, isMax);
    }
  }

  lemma LeadingRunSucceeds(g: seq<Table>, isMax: bool)
    requires |g| >= 2 && AllHaveFirstCell(g)
    ensures LeadingRun(g, isMax).Ok? && AllHaveFirstCell(LeadingRun(g, isMax).value.0)
  {
    assert FirstCell(g[1]).Some? && FirstCell(g[0]).Some?;
    var desc := RankCompare(g[1], g[0], isMax).value < 0;
    RunEndSucceeds(g, 2, desc, isMax);
    var hi := RunEnd(g, 2, desc, isMax).value;
    if desc {
      var b := Reverse(g[..hi]) + g[hi..];
      assert LeadingRun(g, isMax).value == (b, hi);
      forall i | 0 <= i < |b|
        ensures FirstCell(b[i]).Some?
      {
        if i < hi {
          assert b[i] == g[hi - 1 - i];
        } else {
          assert b[i] == g[i];
        }
      }
    }
  }

  /** A one-cell table whose cell is `c`. */
  function CellTable(c: Cell): Table
  {
    Table(Some("t"), [Column("v", [c])])
  }

  /** With text among the numbers the lambda is not a consistent order, and TimSort's
      comparisons decide the outcome: for MAX over first cells 1, 2, "s", 3 the run 1, 2
      is reversed, "s" compares equal to 1 and stays, and 3 goes first, so the top two
      are 3 and 2. */
  lemma SortGroupMixedCells()
    ensures SortGroup([CellTable(Num(1.0)), CellTable(Num(2.0)), CellTable(Str("s")), CellTable(Num(3.0))], true)
      == Ok([CellTable(Num(3.0)), CellTable(Num(2.0)), CellTable(Num(1.0)), CellTable(Str("s"))])
  {
    MixedCellsRun();
    MixedCellsText();
    MixedCellsThree();
  }

  lemma MixedCellsRun()
    ensures LeadingRun([CellTable(Num(1.0)), CellTable(Num(2.0)), CellTable(Str("s")), CellTable(Num(3.0))], true)
      == Ok(([CellTable(Num(2.0)), CellTable(Num(1.0)), CellTable(Str("s")), CellTable(Num(3.0))], 2))
  {
    var one, two, s, three := CellTable(Num(1.0)), CellTable(Num(2.0)), CellTable(Str("s")), CellTable(Num(3.0));
    var g := [one, two, s, three];
    assert RankCompare(two, one, true) == Ok(-1);
    assert RankCompare(s, two, true) == Ok(0);
    assert RunEnd(g, 2, true, true) == Ok(2);
    assert g[..2] == [one, two];
    assert Reverse([one, two]) == [two, one];
    assert Reverse(g[..2]) + g[2..] == [two, one, s, three];
  }

  lemma MixedCellsText()
    ensures var a := [CellTable(Num(2.0)), CellTable(Num(1.0)), CellTable(Str("s")), CellTable(Num(3.0))];
      BinarySort(a, 2, true) == BinarySort(a, 3, true)
  {
    var a := [CellTable(Num(2.0)), CellTable(Num(1.0)), CellTable(Str("s")), CellTable(Num(3.0))];
    assert RankCompare(a[2], a[1], true) == Ok(0);
    assert InsertionPoint(a, a[2], 2, 2, true) == Ok(2);
    assert InsertionPoint(a, a[2], 0, 2, true) == Ok(2);
    assert Moved(a, 2, 2) == a;
  }

  lemma MixedCellsThree()
    ensures BinarySort([CellTable(Num(2.0)), CellTable(Num(1.0)), CellTable(Str("s")), CellTable(Num(3.0))], 3, true)
      == Ok([CellTable(Num(3.0)), CellTable(Num(2.0)), CellTable(Num(1.0)), CellTable(Str("s"))])
  {
    var a := [CellTable(Num(2.0)), CellTable(Num(1.0)), CellTable(Str("s")), CellTable(Num(3.0))];
    MixedCellsThreeFirst();
    MixedCellsThreeMoved();
    var b := [a[3], a[0], a[1], a[2]];
    assert BinarySort(a, 3, true) == BinarySort(b, 4, true);
  }

  lemma MixedCellsThreeMoved()
    ensures var a := [CellTable(Num(2.0)), CellTable(Num(1.0)), CellTable(Str("s")), CellTable(Num(3.0))];
      Moved(a, 3, 0) == [a[3], a[0], a[1], a[2]]
  {
    var a := [CellTable(Num(2.0)), CellTable(Num(1.0)), CellTable(Str("s")), CellTable(Num(3.0))];
    assert a[..0] + [a[3]] + a[0..3] + a[4..] == [a[3], a[0], a[1], a[2]];
  }

  lemma MixedCellsThreeFirst()
    ensures var a := [CellTable(Num(2.0)), CellTable(Num(1.0)), CellTable(Str("s")), CellTable(Num(3.0))];
      InsertionPoint(a, a[3], 0, 3, true) == Ok(0)
  {
    var a := [CellTable(Num(2.0)), CellTable(Num(1.0)), CellTable(Str("s")), CellTable(Num(3.0))];
    assert RankCompare(a[3], a[1], true) == Ok(-1);
    assert RankCompare(a[3], a[0], true) == Ok(-1);
    assert InsertionPoint(a, a[3], 0, 0, true) == Ok(0);
    assert InsertionPoint(a, a[3], 0, 1, true) == Ok(0);
  }

  /** The lambda reads the second table only after a number in the first, so whether a
      table without columns makes the sort throw depends on where it stands: after a text
      first cell it is never read, before one it is. */
  lemma SortGroupShortCircuit()
    ensures SortGroup([Table(None, []), CellTable(Str("x"))], true) == Ok([Table(None, []), CellTable(Str("x"))])
    ensures SortGroup([CellTable(Str("x")), Table(None, [])], true) == Err(RuntimeFailure)
  {
    var e, x := Table(None, []), CellTable(Str("x"));
    assert RankCompare(x, e, true) == Ok(0);
    assert RunEnd([e, x], 2, false, true) == Ok(2);
    assert RankCompare(e, x, true) == Err(RuntimeFailure);
  }

  /** One group of the ranking loop: too small a group or a function other than exactly
      "MAX" or "MIN" fails; otherwise the group as the sort leaves it. */
  function RankGroup(g: seq<Table>, n: nat, fn: string): (r: Result<seq<Table>>)
    ensures r.Ok? ==> |g| >= n && (fn == "MAX" || fn == "MIN")
    ensures r.Ok? ==> |r.value| == |g| && multiset(r.value) == multiset(g)
  {
    if |g| < n then Err(SelectError("Target row is out of bounds"))
    else if fn != "MAX" && fn != "MIN" then Err(SelectError("Unknown function comparator: " + fn))
    else SortGroup(g, fn == "MAX")
  }

  /** When every table of the group has a first cell, ranking succeeds exactly when the
      group is big enough and the function is MAX or MIN, and with numbers there the
      group comes out best first. */
  lemma RankGroupSucceeds(g: seq<Table>, n: nat, fn: string)
    requires AllHaveFirstCell(g)
    ensures RankGroup(g, n, fn).Ok? <==> |g| >= n && (fn == "MAX" || fn == "MIN")
    ensures RankGroup(g, n, fn).Ok? && AllNumeric(g) ==>
      AllNumeric(RankGroup(g, n, fn).value) && Ranked(RankGroup(g, n, fn).value, fn == "MAX")
  {
    SortGroupSucceeds(g, fn == "MAX");
    if AllNumeric(g) {
      SortGroupRanked(g, fn == "MAX");
    }
  }

  /** The ranked columns of the table in position `i`: every column renamed `name #i+1`,
      keeping only its first cell (`getFirst` fails on an empty column). */
  function SuffixedColumns(t: Table, i: nat): (r: Result<seq<Column>>)
    ensures r.Ok? ==> |r.value| == |t.columns| && forall k :: 0 <= k < |t.columns| ==>
      |t.columns[k].rows| >= 1 &&
      r.value[k] == Column(t.columns[k].name + " #" + NatToString(i + 1), [t.columns[k].rows[0]])
  {
    MapResult(t.columns, (c: Column) =>
      if |c.rows| == 0 then Err(RuntimeFailure)
      else Ok(Column(c.name + " #" + NatToString(i + 1), [c.rows[0]])))
  }

  /** The suffixed columns of the first `|ranked|` tables, table by table. */
  function RankedColumns(ranked: seq<Table>): Result<seq<Column>>
  {
    if |ranked| == 0 then Ok([])
    else
      var front :- RankedColumns(ranked[..|ranked| - 1]);
      var last :- SuffixedColumns(ranked[|ranked| - 1], |ranked| - 1);
      Ok(front + last)
  }

  function Min(a: nat, b: nat): nat { if a < b then a else b }

  /** A group table filed under folder `e.0` ends with the one-cell `Folder` column
      naming it. */
  predicate FiledUnder(e: (string, Table))
  {
    |e.1.columns| >= 1 && e.1.columns[|e.1.columns| - 1] == Column("Folder", [Str(e.0)])
  }

  /** The table the second loop builds for one group: the ranked columns of the first
      `n` tables, then a one-cell `Folder` column; it is filed under that folder name. */
  function GroupTable(key: Option<string>, ranked: seq<Table>, n: nat): (r: Result<(string, Table)>)
    ensures r.Ok? ==> r.value.1.name == key && FiledUnder(r.value)
    ensures r.Ok? ==> ExtractFolderName(key) == Ok(r.value.0)
  {
    var cols :- RankedColumns(ranked[..Min(n, |ranked|)]);
    var folder :- ExtractFolderName(key);
    Ok((folder, Table(key, cols + [Column("Folder", [Str(folder)])])))
  }

  /** `FoldersMap`: each group's table under its folder name; a later group with the same
      folder name overwrites an earlier one. */
  function FolderTables(entries: seq<(string, Table)>): (m: map<string, Table>)
    ensures forall k :: 0 <= k < |entries| ==> entries[k].0 in m
    ensures forall f :: f in m ==> exists k :: 0 <= k < |entries| && entries[k] == (f, m[f])
  {
    if |entries| == 0 then map[]
    else
      var m := FolderTables(entries[..|entries| - 1]);
      var e := entries[|entries| - 1];
      assert forall k :: 0 <= k < |entries| - 1 ==> entries[..|entries| - 1][k] == entries[k];
      m[e.0 := e.1]
  }

  /** The output list: one entry per folder of the import, in the import's order.  A
      folder with no group puts `null` in the list, which the column whitelisting that
      always follows dereferences. */
  function CollectFolders(order: seq<string>, m: map<string, Table>): (r: Result<seq<Table>>)
    ensures r.Ok? <==> forall k :: 0 <= k < |order| ==> order[k] in m
    ensures r.Ok? ==> |r.value| == |order| && forall k :: 0 <= k < |order| ==> r.value[k] == m[order[k]]
  {
    MapResult(order, (f: string) => if f in m then Ok(m[f]) else Err(RuntimeFailure))
  }

  /** The first loop over the groups: each group checked and ranked, in key order. */
  function RankAll(tables: seq<Table>, keys: seq<Option<string>>, n: nat, fn: string): Result<seq<seq<Table>>>
  {
    MapResult(keys, (k: Option<string>) => RankGroup(Group(tables, k), n, fn))
  }

  /** The second loop over the groups: each group's table with its folder name. */
  function GroupTables(keys: seq<Option<string>>, ranked: seq<seq<Table>>, n: nat): (r: Result<seq<(string, Table)>>)
    requires |keys| == |ranked|
    ensures r.Ok? ==> |r.value| == |keys| && forall k :: 0 <= k < |r.value| ==> FiledUnder(r.value[k])
  {
    if |keys| == 0 then Ok([])
    else
      var front :- GroupTables(keys[..|keys| - 1], ranked[..|ranked| - 1], n);
      var e :- GroupTable(keys[|keys| - 1], ranked[|ranked| - 1], n);
      Ok(front + [e])
  }

  /** `selectByTargetRow`: group by name, rank each group, build one table per group and
      list them in the import's folder order. */
  function TopN(tables: seq<Table>, n: nat, fn: string, order: seq<string>): (r: Result<seq<Table>>)
    ensures r.Ok? ==> |r.value| == |order|
  {
    var keys := GroupKeys(tables);
    var ranked :- RankAll(tables, keys, n, fn);
    var entries :- GroupTables(keys, ranked, n);
    CollectFolders(order, FolderTables(entries))
  }

  /** Every output table ends with the `Folder` column naming the folder it was listed
      under. */
  lemma TopNFolderColumn(tables: seq<Table>, n: nat, fn: string, order: seq<string>)
    requires TopN(tables, n, fn, order).Ok?
    ensures var r := TopN(tables, n, fn, order).value;
      forall k :: 0 <= k < |r| ==> FiledUnder((order[k], r[k]))
  {
    var keys := GroupKeys(tables);
    var ranked := RankAll(tables, keys, n, fn).value;
    var entries := GroupTables(keys, ranked, n).value;
    var m := FolderTables(entries);
    forall f | f in m
      ensures FiledUnder((f, m[f]))
    {
      var k :| 0 <= k < |entries| && entries[k] == (f, m[f]);
    }
  }

  /** A group smaller than `n` makes the whole selection fail. */
  lemma TopNSmallGroupFails(tables: seq<Table>, n: nat, fn: string, order: seq<string>, j: nat)
    requires j < |tables| && |Group(tables, tables[j].name)| < n
    ensures TopN(tables, n, fn, order).Err?
  {
    var keys := GroupKeys(tables);
    GroupKeysCover(tables, j);
    var f := (k: Option<string>) => RankGroup(Group(tables, k), n, fn);
    var i :| 0 <= i < |keys| && keys[i] == tables[j].name;
    assert f(keys[i]).Err?;
    assert RankAll(tables, keys, n, fn).Err?;
  }

  /** Only the exact words MAX and MIN rank anything. */
  lemma TopNRejectsOtherFunctions(tables: seq<Table>, n: nat, fn: string, order: seq<string>)
    requires |tables| >= 1 && fn != "MAX" && fn != "MIN"
    ensures TopN(tables, n, fn, order).Err?
  {
    var keys := GroupKeys(tables);
    GroupKeysCover(tables, 0);
    var f := (k: Option<string>) => RankGroup(Group(tables, k), n, fn);
    var i :| 0 <= i < |keys| && keys[i] == tables[0].name;
    assert f(keys[i]).Err?;
    assert RankAll(tables, keys, n, fn).Err?;
  }

  // ---------------------------------------------------------------------------
  // selectByColumns

  /** The columns whose names are listed, in their order. */
  function KeepNamed(cols: seq<Column>, names: seq<string>): seq<Column>
  {
    Filter(cols, (c: Column) => c.name in names)
  }

  lemma KeepNamedMembers(cols: seq<Column>, names: seq<string>)
    ensures forall c :: c in KeepNamed(cols, names) <==> c in cols && c.name in names
  {
    var p := (c: Column) => c.name in names;
    forall c | c in cols && c.name in names
      ensures c in KeepNamed(cols, names)
    {
      var k :| 0 <= k < |cols| && cols[k] == c;
    }
  }

  function Whitelisted(tables: seq<Table>, names: seq<string>): (r: seq<Table>)
    ensures |r| == |tables|
    ensures forall k :: 0 <= k < |r| ==>
      r[k].name == tables[k].name && r[k].columns == KeepNamed(tables[k].columns, names)
  {
    seq(|tables|, k requires 0 <= k < |tables| => Table(tables[k].name, KeepNamed(tables[k].columns, names)))
  }

  // ---------------------------------------------------------------------------
  // isComposite, selectByType and selectByConstraints

  /** A column is composite when some cell is a nested table or a list. */
  predicate IsComposite(c: Column)
  {
    exists k :: 0 <= k < |c.rows| && (c.rows[k].Tab? || c.rows[k].ListV?)
  }

  /** The keep test of `selectByType`: `isComposite(column) && composite`. */
  function KeepByType(cols: seq<Column>, composite: bool): seq<Column>
  {
    Filter(cols, (c: Column) => IsComposite(c) && composite)
  }

  /** NON-COMPOSITE keeps no column at all. */
  lemma NonCompositeKeepsNothing(cols: seq<Column>)
    ensures KeepByType(cols, false) == []
  {
    FilterNone(cols, (c: Column) => IsComposite(c) && false);
  }

  /** COMPOSITE keeps exactly the composite columns, in order, and keeping them twice
      changes nothing. */
  lemma CompositeKeepsComposites(cols: seq<Column>)
    ensures forall k :: 0 <= k < |KeepByType(cols, true)| ==> IsComposite(KeepByType(cols, true)[k])
    ensures forall k :: 0 <= k < |cols| && IsComposite(cols[k]) ==> cols[k] in KeepByType(cols, true)
    ensures KeepByType(KeepByType(cols, true), true) == KeepByType(cols, true)
  {
    var r := KeepByType(cols, true);
    FilterAll(r, (c: Column) => IsComposite(c) && true);
  }

  function ByType(tables: seq<Table>, composite: bool): (r: seq<Table>)
    ensures |r| == |tables|
    ensures forall k :: 0 <= k < |r| ==>
      r[k].name == tables[k].name && r[k].columns == KeepByType(tables[k].columns, composite)
  {
    seq(|tables|, k requires 0 <= k < |tables| => Table(tables[k].name, KeepByType(tables[k].columns, composite)))
  }

  /** `selectByConstraints`: each constraint in turn, matched case-insensitively; any
      other word fails. */
  function Constrained(tables: seq<Table>, cs: seq<string>): (r: Result<seq<Table>>)
    ensures r.Ok? ==> |r.value| == |tables| && forall k :: 0 <= k < |tables| ==> r.value[k].name == tables[k].name
    ensures r.Ok? <==> forall k :: 0 <= k < |cs| ==> ToUpper(cs[k]) in {"NON-COMPOSITE", "COMPOSITE"}
  {
    if |cs| == 0 then Ok(tables)
    else
      var ts :- Constrained(tables, cs[..|cs| - 1]);
      var c := ToUpper(cs[|cs| - 1]);
      if c == "NON-COMPOSITE" then Ok(ByType(ts, false))
      else if c == "COMPOSITE" then Ok(ByType(ts, true))
      else Err(SelectError("Unknown constraint " + cs[|cs| - 1]))
  }

  /** An unknown constraint is final: the later ones are never looked at. */
  lemma {:induction false} ConstrainedPrefixErr(tables: seq<Table>, cs: seq<string>, i: nat)
    requires i <= |cs| && Constrained(tables, cs[..i]).Err?
    ensures Constrained(tables, cs) == Constrained(tables, cs[..i])
    decreases |cs| - i
  {
    if i < |cs| {
      assert cs[..i + 1][..i] == cs[..i];
      ConstrainedPrefixErr(tables, cs, i + 1);
    } else {
      assert cs[..i] == cs;
    }
  }

  /** Once NON-COMPOSITE has been applied, no candidate has any column left. */
  lemma {:induction false} NonCompositeEmptiesTables(tables: seq<Table>, cs: seq<string>, i: nat)
    requires i < |cs| && ToUpper(cs[i]) == "NON-COMPOSITE" && Constrained(tables, cs).Ok?
    ensures forall k :: 0 <= k < |tables| ==> Constrained(tables, cs).value[k].columns == []
  {
    var front := cs[..|cs| - 1];
    var ts := Constrained(tables, front).value;
    if i < |cs| - 1 {
      assert front[i] == cs[i];
      NonCompositeEmptiesTables(tables, front, i);
      forall k | 0 <= k < |tables|
        ensures Constrained(tables, cs).value[k].columns == []
      {
        assert ts[k].columns == [];
        assert Filter([], (c: Column) => IsComposite(c) && true) == [];
      }
    } else {
      forall k | 0 <= k < |tables|
        ensures Constrained(tables, cs).value[k].columns == []
      {
        NonCompositeKeepsNothing(ts[k].columns);
      }
    }
  }

  // ---------------------------------------------------------------------------
  // The two SelectBuilder constructors

  /** The table constructor: a path selects sub-tables (or, by column, one column per
      candidate); a non-empty constraint list then filters the columns. */
  function TableSelection(tables: seq<Table>, path: Option<string>, constraints: Option<seq<string>>, byColumn: bool): (r: Result<seq<Table>>)
  {
    var found :- if path.None? then Ok(tables)
      else if byColumn then ColumnSelection(tables, path)
      else PathSelection(tables, path, false);
    if constraints.Some? && |constraints.value| > 0 then Constrained(found, constraints.value) else Ok(found)
  }

  /** Without a path or constraints the candidates pass unchanged, and a successful
      selection keeps one table per candidate, each named after its candidate. */
  lemma TableSelectionShape(tables: seq<Table>, path: Option<string>, constraints: Option<seq<string>>, byColumn: bool)
    ensures path.None? && (constraints.None? || constraints.value == []) ==>
      TableSelection(tables, path, constraints, byColumn) == Ok(tables)
    ensures TableSelection(tables, path, constraints, byColumn).Ok? ==>
      var r := TableSelection(tables, path, constraints, byColumn).value;
      |r| == |tables| && forall k :: 0 <= k < |r| ==> r[k].name == tables[k].name
  {
    if path.Some? && !byColumn && PathSelection(tables, path, false).Ok? {
      PathSelectionShape(tables, path, false);
    }
  }

  /** The function constructor (`selectByFunction`): the last segment of the filter names
      the column to compare, the segments before it lead to the candidate sub-tables
      (several per table allowed); N above 1 ranks the top N per group, otherwise the
      single extremum is kept; finally only the extracted columns remain.  Without a
      function or extracted columns the candidates pass unchanged. */
  function FunctionSelection(tables: seq<Table>, filter: Option<string>, fn: Option<string>,
                             extracted: Option<seq<string>>, targetN: int, order: seq<string>): (r: Result<seq<Table>>)
  {
    if fn.None? || extracted.None? || |extracted.value| == 0 then Ok(tables)
    else
      var d := GetDirectory(filter);
      if |d| == 0 then Err(RuntimeFailure)
      else
        var found :- PathSelection(tables, Some(Join(d[..|d| - 1], "/")), true);
        var best :- if targetN > 1 then TopN(found, targetN as nat, fn.value, order)
          else Extremum(found, d[|d| - 1], fn.value);
        Ok(Whitelisted(best, extracted.value))
  }

  /** With N at most 1 a successful filter leaves exactly one table, and every table it
      leaves holds only extracted columns. */
  lemma FunctionSelectionKeeps(tables: seq<Table>, filter: Option<string>, fn: Option<string>,
                               extracted: Option<seq<string>>, targetN: int, order: seq<string>)
    requires fn.Some? && extracted.Some? && |extracted.value| > 0
    requires FunctionSelection(tables, filter, fn, extracted, targetN, order).Ok?
    ensures var r := FunctionSelection(tables, filter, fn, extracted, targetN, order).value;
      (targetN <= 1 ==> |r| == 1) &&
      forall k, c :: 0 <= k < |r| && c in r[k].columns ==> c.name in extracted.value
  {
    var r := FunctionSelection(tables, filter, fn, extracted, targetN, order).value;
    forall k, c | 0 <= k < |r| && c in r[k].columns
      ensures c.name in extracted.value
    {
      KeepNamedMembers(r[k].columns, extracted.value);
    }
  }

  // ---------------------------------------------------------------------------
  // addColumn

  /** `getColumnValue`: FOLDERNAME (in any case) gives the folder of the table's path;
      every other word gives the table name itself, `null` included. */
  function ColumnValue(word: string, tableName: Option<string>): (r: Result<Cell>)
    ensures ToUpper(word) != "FOLDERNAME" ==> r == Ok(if tableName.None? then Null else Str(tableName.value))
    ensures ToUpper(word) == "FOLDERNAME" ==> (r.Ok? <==> ExtractFolderName(tableName).Ok?)
  {
    if ToUpper(word) == "FOLDERNAME" then
      var f :- ExtractFolderName(tableName);
      Ok(Str(f))
    else Ok(if tableName.None? then Null else Str(tableName.value))
  }

  /** The cell `addColumn` inserts for one table: a string names what to take from the
      table; any other value is inserted as it is.  A `null` taken from an unnamed table
      is refused by `List.of`. */
  function InsertedCell(value: Cell, tableName: Option<string>): Result<Cell>
  {
    if value.Str? then
      var v :- ColumnValue(value.s, tableName);
      if v.Null? then Err(RuntimeFailure) else Ok(v)
    else Ok(value)
  }

  /** `addColumn(name, value, insertAtStart)`: each candidate becomes a same-named table
      with one more one-cell column; a `null` name or value fails. */
  function WithColumn(tables: seq<Table>, name: Option<string>, value: Cell, atStart: bool): (r: Result<seq<Table>>)
    ensures (name.None? || value.Null?) ==> r == Err(SelectError("Column name or value is null"))
    ensures r.Ok? ==> name.Some? && |r.value| == |tables| && forall k :: 0 <= k < |tables| ==>
      InsertedCell(value, tables[k].name).Ok? &&
      r.value[k] == Table(tables[k].name,
        AddedColumn(tables[k].columns, Column(name.value, [InsertedCell(value, tables[k].name).value]), atStart))
  {
    if name.None? || value.Null? then Err(SelectError("Column name or value is null"))
    else MapResult(tables, (t: Table) =>
      match InsertedCell(value, t.name)
      case Err(e) => Err(e)
      case Ok(v) => Ok(Table(t.name, AddedColumn(t.columns, Column(name.value, [v]), atStart))))
  }

  /** One more candidate: its extended table follows the earlier ones, or its failure is
      final. */
  lemma WithColumnStep(tables: seq<Table>, name: Option<string>, value: Cell, atStart: bool, i: nat)
    requires name.Some? && !value.Null?
    requires i < |tables| && WithColumn(tables[..i], name, value, atStart).Ok?
    ensures var cell := InsertedCell(value, tables[i].name);
      (cell.Err? ==> WithColumn(tables, name, value, atStart) == Err(cell.error)) &&
      (cell.Ok? ==> WithColumn(tables[..i + 1], name, value, atStart) == Ok(WithColumn(tables[..i], name, value, atStart).value +
        [Table(tables[i].name, AddedColumn(tables[i].columns, Column(name.value, [cell.value]), atStart))]))
  {
    var f := (t: Table) =>
      match InsertedCell(value, t.name)
      case Err(e) => Err(e)
      case Ok(v) => Ok(Table(t.name, AddedColumn(t.columns, Column(name.value, [v]), atStart)));
    MapResultStep(tables, f, i);
    if f(tables[i]).Err? {
      MapResultPrefixErr(tables, f, i + 1);
    }
  }

  /** A string value is never inserted literally: the new cell is the table's folder name
      for FOLDERNAME and the table's own name for any other word; an unnamed table makes
      the insertion fail. */
  lemma StringValueBecomesName(tables: seq<Table>, name: string, word: string, atStart: bool)
    requires WithColumn(tables, Some(name), Str(word), atStart).Ok?
    ensures forall k :: 0 <= k < |tables| ==>
      var v := InsertedCell(Str(word), tables[k].name).value;
      (ToUpper(word) == "FOLDERNAME" ==> v == Str(ExtractFolderName(tables[k].name).value)) &&
      (ToUpper(word) != "FOLDERNAME" ==> tables[k].name.Some? && v == Str(tables[k].name.value))
  {
  }

  /** Any other value is inserted unchanged into every candidate. */
  lemma OtherValueInsertedAsIs(tables: seq<Table>, name: string, value: Cell, atStart: bool)
    requires !value.Str? && !value.Null?
    ensures WithColumn(tables, Some(name), value, atStart) ==
      Ok(seq(|tables|, k requires 0 <= k < |tables| =>
        Table(tables[k].name, AddedColumn(tables[k].columns, Column(name, [value]), atStart))))
  {
    var n := Some(name);
    MapResultAllOk(tables, (t: Table) =>
      match InsertedCell(value, t.name)
      case Err(e) => Err(e)
      case Ok(v) => Ok(Table(t.name, AddedColumn(t.columns, Column(n.value, [v]), atStart))));
    var r := WithColumn(tables, n, value, atStart).value;
    var expected := seq(|tables|, k requires 0 <= k < |tables| =>
      Table(tables[k].name, AddedColumn(tables[k].columns, Column(name, [value]), atStart)));
    forall k | 0 <= k < |tables|
      ensures r[k] == expected[k]
    {
      assert InsertedCell(value, tables[k].name) == Ok(value);
    }
    assert r == expected;
  }
}
