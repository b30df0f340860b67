/** The PREQL interpreter: a parsed script is a sequence of nodes, and each node moves a
    chain of builders (table, operation, import, select) by first climbing the chain to
    the kind of builder it needs (`reset`) and then calling that builder.  The builder
    kinds alone decide when a script can never finish; the builders' own contracts decide
    what each step does to the tables. */
module Dsl {
  import opened Wrappers
  import opened Tables
  import opened Utils
  import opened Merging
  import opened Export
  import opened Builders
  import Selection
  import Aggregation
  import FileParsing

  // ---------------------------------------------------------------------------
  // Builder kinds and the `end()` chain

  datatype Kind = TableKind | OperationKind | ImportKind | SelectKind

  /** How many `end()` calls lead from a builder of this kind to the table builder. */
  function Rank(k: Kind): nat
  {
    match k
    case TableKind => 0
    case OperationKind => 1
    case ImportKind => 2
    case SelectKind => 3
  }

  /** The kind of builder `end()` returns: Select to Import to Operation to Table, and a
      table builder returns itself. */
  function EndKind(k: Kind): Kind
  {
    match k
    case SelectKind => ImportKind
    case ImportKind => OperationKind
    case OperationKind => TableKind
    case TableKind => TableKind
  }

  /** The kind reached after `n` calls of `end()`. */
  function Climb(k: Kind, n: nat): Kind
    decreases n
  {
    if n == 0 then k else Climb(EndKind(k), n - 1)
  }

  /** Climbing `n` steps lowers the rank by `n`, down to the table builder, which is the
      fixed point. */
  lemma {:induction false} ClimbRank(k: Kind, n: nat)
    ensures Rank(Climb(k, n)) == if n <= Rank(k) then Rank(k) - n else 0
    decreases n
  {
    if n > 0 {
      ClimbRank(EndKind(k), n - 1);
    }
  }

  lemma RankInjective(k: Kind, j: Kind)
    ensures Rank(k) == Rank(j) <==> k == j
  {
  }

  /** `reset(b, target)` stops exactly when the target is no deeper than the start: it
      then stops after `Rank(start) - Rank(target)` calls of `end()` and not before; a
      deeper target is never reached, so the loop never ends. */
  lemma ResetStops(k: Kind, target: Kind)
    ensures (exists n: nat :: Climb(k, n) == target) <==> Rank(target) <= Rank(k)
    ensures Rank(target) <= Rank(k) ==>
      Climb(k, Rank(k) - Rank(target)) == target &&
      forall n: nat :: n < Rank(k) - Rank(target) ==> Climb(k, n) != target
  {
    if Rank(target) <= Rank(k) {
      var n := Rank(k) - Rank(target);
      ClimbRank(k, n);
      RankInjective(Climb(k, n), target);
      forall m: nat | m < n
        ensures Climb(k, m) != target
      {
        ClimbRank(k, m);
      }
    } else {
      forall n: nat
        ensures Climb(k, n) != target
      {
        ClimbRank(k, n);
      }
    }
  }

  // ---------------------------------------------------------------------------
  // The builder objects

  /** A `Builder` reference with its run-time class. */
  datatype Builder = TB(tb: TableBuilder) | OB(ob: OperationBuilder) | IB(ib: ImportBuilder) | SB(sb: SelectBuilder)

  function KindOf(b: Builder): Kind
  {
    match b
    case TB(_) => TableKind
    case OB(_) => OperationKind
    case IB(_) => ImportKind
    case SB(_) => SelectKind
  }

  /** The builder `end()` returns, through the builders' fixed links. */
  function Parent(b: Builder): (p: Builder)
    ensures KindOf(p) == EndKind(KindOf(b))
  {
    match b
    case TB(tb) => TB(tb)
    case OB(ob) => TB(ob.tableBuilder)
    case IB(ib) => OB(ib.operationBuilder)
    case SB(sb) => IB(sb.importBuilder)
  }

  /** The builder of kind `target` above `b` in its chain. */
  function Ancestor(b: Builder, target: Kind): (a: Builder)
    requires Rank(target) <= Rank(KindOf(b))
    ensures KindOf(a) == target
    decreases Rank(KindOf(b))
  {
    if KindOf(b) == target then b else Ancestor(Parent(b), target)
  }

  function OperationObjects(ob: OperationBuilder): set<object>
  {
    {ob, ob.shared, ob.resultTable, ob.tableBuilder, ob.tableBuilder.shared}
  }

  /** The objects a builder and the builders above it may change. */
  function Objects(b: Builder): set<object>
    reads if b.TB? then {b.tb} else {}
  {
    match b
    case TB(tb) => {tb, tb.shared, tb.table}
    case OB(ob) => OperationObjects(ob)
    case IB(ib) => {ib} + OperationObjects(ib.operationBuilder)
    case SB(sb) => {sb, sb.importBuilder} + OperationObjects(sb.importBuilder.operationBuilder)
  }

  /** The operation table's columns after an import builder's `end()`: its own columns
      followed by those of the table `mergeTables` imports, or, when nothing is imported,
      by those of the import builder's result table. */
  function ImportEndColumns(opColumns: seq<Column>, tables: seq<Table>, filePath: Option<string>,
                            resultColumns: seq<Column>): Result<seq<Column>>
  {
    match Imported(tables, filePath)
    case Err(e) => Err(e)
    case Ok(None) => Ok(opColumns + resultColumns)
    case Ok(Some(t)) => Ok(opColumns + t.columns)
  }

  /** `end()` on any builder: a select builder hands its candidates to the import builder,
      an import builder imports its candidates into the operation table, which may fail,
      and an operation builder hands its table to the table builder. */
  method End(b: Builder) returns (r: Result<Builder>)
    requires !b.TB?
    modifies if b.OB? then {b.ob.tableBuilder} else {}
    modifies if b.IB? then {b.ib, b.ib.operationBuilder.resultTable} else {}
    modifies if b.SB? then {b.sb.importBuilder} else {}
    ensures r.Ok? ==> r.value == Parent(b)
    ensures r.Err? ==> b.IB? && r.error == RuntimeFailure
    ensures r.Ok? ==> Objects(r.value) <= old(Objects(b))
    ensures b.OB? ==> r.Ok? && b.ob.tableBuilder.table == b.ob.resultTable
    ensures b.SB? ==> var ib := b.sb.importBuilder;
      r.Ok? && ib.tables == b.sb.tables && ib.resulTable == old(ib.resulTable) &&
      ib.filePath == old(ib.filePath) && ib.fromFolders == old(ib.fromFolders)
    ensures b.IB? ==> var spec := old(PendingImport(b.ib));
      (r.Ok? <==> spec.Ok?) && (r.Ok? ==> b.ib.operationBuilder.resultTable.columns == spec.value)
  {
    match b
    case OB(ob) =>
      var t := ob.End();
      r := Ok(TB(t));
    case IB(ib) =>
      var e := ib.End();
      if e.Err? {
        return Err(e.error);
      }
      r := Ok(OB(e.value));
    case SB(sb) =>
      var i := sb.End();
      r := Ok(IB(i));
  }

  /** A select builder's `end()` has been made: its import builder holds its candidates
      and nothing else there has changed. */
  twostate predicate SelectHandedOver(sb: SelectBuilder)
    reads sb, sb.importBuilder, sb.importBuilder.operationBuilder.resultTable, sb.importBuilder.resulTable
  {
    var ib := sb.importBuilder;
    sb.tables == old(sb.tables) && ib.tables == sb.tables && ib.resulTable == old(ib.resulTable) &&
    ib.filePath == old(ib.filePath) && ib.fromFolders == old(ib.fromFolders) &&
    unchanged(ib.operationBuilder.resultTable, ib.resulTable)
  }

  /** The candidates the import builder holds once `extensionParser` has reached it: its
      own from an import builder, none after `endWhen` in extension mode, otherwise the
      ones a select builder's `end()` hands back. */
  function Handed(b: Builder, extensionMode: bool): seq<Table>
    reads if b.IB? then {b.ib} else if b.SB? then {b.sb} else {}
  {
    if b.IB? then b.ib.tables else if b.SB? && !extensionMode then b.sb.tables else []
  }

  /** What an import builder's `end()` would make of the operation table's columns now. */
  function PendingImport(ib: ImportBuilder): Result<seq<Column>>
    reads ib, ib.operationBuilder.resultTable, ib.resulTable
  {
    ImportEndColumns(ib.operationBuilder.resultTable.columns, ib.tables, ib.filePath, ib.resulTable.columns)
  }

  /** The operation table's columns once `reset(b, TABLE)` has climbed from a builder
      below the table builder: the operation builder's own, or, from an import or select
      builder, what the import builder's `end()` makes of them. */
  function ClimbedColumns(b: Builder): Result<seq<Column>>
    requires !b.TB?
    reads if b.OB? then {b.ob.resultTable} else {}
    reads if b.SB? then {b.sb} else {}
    reads if Rank(KindOf(b)) >= 2 then {Ancestor(b, ImportKind).ib} else {}
    reads if Rank(KindOf(b)) >= 2 then {Ancestor(b, ImportKind).ib.operationBuilder.resultTable} else {}
    reads if Rank(KindOf(b)) >= 2 then {Ancestor(b, ImportKind).ib.resulTable} else {}
  {
    if b.OB? then Ok(b.ob.resultTable.columns)
    else
      var ib := Ancestor(b, ImportKind).ib;
      ImportEndColumns(ib.operationBuilder.resultTable.columns, if b.SB? then b.sb.tables else ib.tables,
        ib.filePath, ib.resulTable.columns)
  }

  /** What the `end()` calls of a `reset(b, target)` that returned `r` leave behind:
      climbing past a select builder hands its candidates to the import builder, climbing
      past an import builder imports them into the operation table (or fails as that
      import fails), and climbing past the operation builder hands that table to the table
      builder. */
  twostate predicate ResetOutcome(b: Builder, target: Kind, r: Result<Builder>)
    reads if b.SB? then {b.sb, b.sb.importBuilder} else {}
    reads if Rank(KindOf(b)) >= 2 then {Ancestor(b, ImportKind).ib.operationBuilder.resultTable} else {}
    reads if Rank(KindOf(b)) >= 1 then {Ancestor(b, OperationKind).ob.tableBuilder} else {}
    reads if b.OB? then {b.ob.resultTable} else {}
  {
    (b.OB? ==> b.ob.resultTable.columns == old(b.ob.resultTable.columns)) &&
    (b.SB? && target == ImportKind ==> var ib := b.sb.importBuilder;
      ib.tables == old(b.sb.tables) && ib.resulTable == old(ib.resulTable) &&
      ib.filePath == old(ib.filePath) && ib.fromFolders == old(ib.fromFolders)) &&
    (Rank(KindOf(b)) >= 2 && Rank(target) <= 1 ==>
      var ib := Ancestor(b, ImportKind).ib;
      var candidates := if b.SB? then old(b.sb.tables) else old(ib.tables);
      var spec := ImportEndColumns(old(ib.operationBuilder.resultTable.columns), candidates, old(ib.filePath),
        old(ib.resulTable.columns));
      (r.Ok? <==> spec.Ok?) && (r.Ok? ==> ib.operationBuilder.resultTable.columns == spec.value)) &&
    (r.Ok? && Rank(KindOf(b)) >= 1 && target == TableKind ==>
      var ob := Ancestor(b, OperationKind).ob;
      ob.tableBuilder.table == ob.resultTable)
  }

  /** `reset(builder, target)`: climbs with `end()` until the builder has the target
      kind.  From a table builder towards any other kind the Java loop never ends, which
      is `Diverges` here; an import builder's `end()` on the way may fail first.  Each
      `end()` on the way does what `End` says, which `ResetOutcome` sums up. */
  method Reset(b: Builder, target: Kind) returns (r: Result<Builder>)
    modifies Objects(b)
    ensures r.Ok? ==> Rank(target) <= Rank(KindOf(b)) && r.value == Ancestor(b, target)
    ensures Rank(target) > Rank(KindOf(b)) ==> r.Err?
    ensures r.Err? ==> r.error == Diverges || r.error == RuntimeFailure
    ensures r == Err(Diverges) ==> Rank(target) > Rank(KindOf(b))
    ensures r == Err(RuntimeFailure) ==> Rank(KindOf(b)) >= 2 && target != ImportKind && target != KindOf(b)
    ensures KindOf(b) == target ==> r == Ok(b) && unchanged(old(Objects(b)))
    ensures r.Ok? ==> Objects(r.value) <= old(Objects(b))
    ensures ResetOutcome(b, target, r)
  {
    ghost var spec := if Rank(KindOf(b)) < 2 then Ok([]) else
      var ib := Ancestor(b, ImportKind).ib;
      ImportEndColumns(ib.operationBuilder.resultTable.columns, if b.SB? then b.sb.tables else ib.tables,
        ib.filePath, ib.resulTable.columns);
    var cur := b;
    while KindOf(cur) != target
      invariant Rank(KindOf(cur)) <= Rank(KindOf(b))
      invariant Rank(target) <= Rank(KindOf(b)) ==> Rank(target) <= Rank(KindOf(cur))
      invariant cur != b ==> KindOf(b) != target
      invariant KindOf(cur) == KindOf(b) ==> cur == b && unchanged(old(Objects(b)))
      invariant Objects(cur) <= old(Objects(b))
      invariant Ancestor(b, KindOf(cur)) == cur
      invariant b.SB? && cur.IB? ==> SelectHandedOver(b.sb)
      invariant Rank(KindOf(b)) >= 2 && cur.IB? ==> spec == PendingImport(cur.ib)
      invariant Rank(KindOf(b)) >= 2 && Rank(KindOf(cur)) <= 1 ==>
        spec.Ok? && Ancestor(b, ImportKind).ib.operationBuilder.resultTable.columns == spec.value
      invariant b.OB? ==> b.ob.resultTable.columns == old(b.ob.resultTable.columns)
      invariant Rank(KindOf(b)) >= 1 && cur.TB? ==>
        Ancestor(b, OperationKind).ob.tableBuilder.table == Ancestor(b, OperationKind).ob.resultTable
      decreases Rank(KindOf(cur))
    {
      if cur.TB? {
        // `end()` returns the same table builder: the loop would go on for ever
        return Err(Diverges);
      }
      AncestorStep(b, KindOf(cur));
      var e := End(cur);
      if e.Err? {
        return Err(e.error);
      }
      cur := e.value;
    }
    return Ok(cur);
  }

  /** `reset(b, TABLE)` cast to the table builder: from below the table builder it fails
      exactly when the import on the way fails, and otherwise leaves the operation table,
      now the table builder's, holding the climbed columns. */
  method ResetToTable(b: Builder) returns (r: Result<TableBuilder>)
    modifies Objects(b)
    ensures r.Err? ==> r.error == RuntimeFailure && Rank(KindOf(b)) >= 2
    ensures b.TB? ==> r == Ok(b.tb) && unchanged(old(Objects(b)))
    ensures r.Ok? ==> r.value == Ancestor(b, TableKind).tb && Objects(TB(r.value)) <= old(Objects(b))
    ensures !b.TB? ==> (r.Ok? <==> old(ClimbedColumns(b)).Ok?)
    ensures r.Ok? && !b.TB? ==> (r.value.table == Ancestor(b, OperationKind).ob.resultTable &&
      r.value.table.columns == old(ClimbedColumns(b)).value)
  {
    var c := Reset(b, TableKind);
    if c.Err? {
      return Err(c.error);
    }
    if !b.TB? {
      AncestorStep(b, OperationKind);
    }
    if Rank(KindOf(b)) >= 2 {
      AncestorStep(b, ImportKind);
    }
    r := Ok(c.value.tb);
  }

  /** One `end()` above the ancestor of kind `k` is the ancestor of the next kind. */
  lemma AncestorStep(b: Builder, k: Kind)
    requires Rank(k) <= Rank(KindOf(b)) && k != TableKind
    ensures Ancestor(b, EndKind(k)) == Parent(Ancestor(b, k))
    decreases Rank(KindOf(b))
  {
    if KindOf(b) != k {
      AncestorStep(Parent(b), k);
    }
  }

  // ---------------------------------------------------------------------------
  // The grammar's enumerations and their mappers

  datatype ExtType = ExtNull | ExtYaml | ExtXml | ExtJson
  datatype ColumnFilter = FilterNull | FilterComposite | FilterNonComposite
  datatype ColumnPosition = PositionNull | PositionLast | PositionFirst
  datatype FunctionType = FunctionNull | FunctionMax | FunctionMin
  datatype RowOperator = OpDiv | OpMul | OpSub | OpSum

  /** `getExtension(type)`. */
  function ExtensionName(t: ExtType): (r: Option<string>)
    ensures r.None? <==> t == ExtNull
  {
    match t
    case ExtNull => None
    case ExtYaml => Some("yaml")
    case ExtXml => Some("xml")
    case ExtJson => Some("json")
  }

  /** Every extension a script can name is one the file parser reads, and a file named
      with it is picked by that extension. */
  lemma ExtensionNameReadable(t: ExtType, prefix: string)
    requires t != ExtNull
    ensures FileParsing.FileParserFor(ExtensionName(t)).Ok?
    ensures GetExtension(Some(prefix + "." + ExtensionName(t).value)) == ExtensionName(t)
  {
    var e := ExtensionName(t).value;
    assert forall i :: 0 <= i < |e| ==> 'a' <= e[i] <= 'z';
    FileParsing.ExtensionOf(prefix, e);
    LowerKept(e);
  }

  lemma LowerKept(e: string)
    requires forall i :: 0 <= i < |e| ==> 'a' <= e[i] <= 'z'
    ensures ToLower(e) == e
  {
    assert forall i :: 0 <= i < |e| ==> LowerChar(e[i]) == e[i];
  }

  /** The extension names carry no quotes, so stripping quotes keeps them. */
  lemma ExtensionNameUnquoted(t: ExtType)
    ensures StripQuotes(ExtensionName(t)) == ExtensionName(t)
  {
    if t != ExtNull {
      StripQuotesBounds(ExtensionName(t).value);
    }
  }

  /** `getConstraint(type)`. */
  function ConstraintName(f: ColumnFilter): (r: Option<string>)
    ensures r.None? <==> f == FilterNull
  {
    match f
    case FilterNull => None
    case FilterComposite => Some("COMPOSITE")
    case FilterNonComposite => Some("NON-COMPOSITE")
  }

  /** Every constraint a script can name is one the selection recognises. */
  lemma ConstraintNameRecognised(f: ColumnFilter)
    requires f != FilterNull
    ensures ToUpper(ConstraintName(f).value) == ConstraintName(f).value
    ensures ConstraintName(f).value in {"COMPOSITE", "NON-COMPOSITE"}
  {
    var c := ConstraintName(f).value;
    assert forall i :: 0 <= i < |c| ==> UpperChar(c[i]) == c[i];
  }

  /** The constraint list: none, or the one constraint. */
  function Filters(f: ColumnFilter): (r: Option<seq<string>>)
    ensures r.None? <==> f == FilterNull
    ensures r.Some? ==> r.value == [ConstraintName(f).value]
  {
    match ConstraintName(f)
    case None => None
    case Some(c) => Some([c])
  }

  /** `getColumnPosition(type)`: only FIRST inserts at the start. */
  function AtStart(p: ColumnPosition): (r: bool)
    ensures r <==> p == PositionFirst
  {
    match p
    case PositionNull => false
    case PositionLast => false
    case PositionFirst => true
  }

  /** `getFunctionName(type)`. */
  function FunctionName(f: FunctionType): (r: Option<string>)
    ensures r.None? <==> f == FunctionNull
  {
    match f
    case FunctionNull => None
    case FunctionMax => Some("MAX")
    case FunctionMin => Some("MIN")
  }

  /** Every function a script can name is one the extremum selection recognises. */
  lemma FunctionNameRecognised(f: FunctionType)
    requires f != FunctionNull
    ensures ToUpper(FunctionName(f).value) == FunctionName(f).value
    ensures FunctionName(f).value in {"MAX", "MIN"}
  {
    var n := FunctionName(f).value;
    assert forall i :: 0 <= i < |n| ==> UpperChar(n[i]) == n[i];
  }

  /** The arithmetic each row operator performs. */
  function ArithOf(op: RowOperator): Aggregation.ArithOp
  {
    match op
    case OpDiv => Aggregation.Over
    case OpMul => Aggregation.Times
    case OpSub => Aggregation.Minus
    case OpSum => Aggregation.Plus
  }

  /** A table selection of "*" means every table: the path is `null`. */
  function TablePath(table: string): (r: Option<string>)
    ensures r.None? <==> table == "*"
  {
    if table == "*" then None else Some(table)
  }

  /** A quoted "*" in a script is still every table once its quotes are stripped. */
  lemma QuotedStarIsEveryTable()
    ensures TablePath(StripQuotes(Some("\"*\"")).value) == None
    ensures TablePath(StripQuotes(Some("'*'")).value) == None
  {
    StripQuotesBounds("\"*\"");
    StripQuotesBounds("'*'");
    assert StripQuotes(Some("\"*\"")).value == "*";
    assert StripQuotes(Some("'*'")).value == "*";
  }

  /** `pattern` occurs in `s` starting at index `i`. */
  predicate OccursAt(s: string, pattern: string, i: int)
  {
    0 <= i <= |s| - |pattern| && s[i..i + |pattern|] == pattern
  }

  /** `String.contains`. */
  predicate ContainsText(s: string, pattern: string)
  {
    exists i | 0 <= i <= |s| - |pattern| :: OccursAt(s, pattern, i)
  }

  /** Any row operation text with "SUM" in it sums. */
  lemma SumInText(before: string, after: string)
    ensures ContainsText(before + "SUM" + after, "SUM")
  {
    var s := before + "SUM" + after;
    var i := |before|;
    assert s[i..i + |"SUM"|] == "SUM" by {
      assert forall k :: 0 <= k < 3 ==> s[i + k] == "SUM"[k];
    }
    assert OccursAt(s, "SUM", i);
  }

  /** The summary a row operation appends: "SUM" anywhere in its text sums, anything
      else averages. */
  function RowSummary(text: string): Aggregation.Summary
  {
    if ContainsText(text, "SUM") then Aggregation.Total else Aggregation.Mean
  }

  /** The name of the n-th operation. */
  function OperationName(n: nat): string
  {
    "operation" + NatToString(n)
  }

  /** Operation names never repeat. */
  lemma OperationNamesDistinct(m: nat, n: nat)
    requires m != n
    ensures OperationName(m) != OperationName(n)
  {
    if OperationName(m) == OperationName(n) {
      var p := "operation";
      assert NatToString(m) == OperationName(m)[|p|..];
      assert NatToString(n) == OperationName(n)[|p|..];
      NatToStringInjective(m, n);
    }
  }

  // ---------------------------------------------------------------------------
  // Reading files: the file system is an input

  /** `fromFolder(directory, extension)` over the folder's listing, in listing order,
      each file with what reading it gives: a file whose name has the extension is read
      (its path is the directory followed by the name) and its table joins the
      candidates; a file without an extension fails the comparison; a `null` listing
      fails `requireNonNull`.  The result is the tables and the last path read. */
  function FolderImport(directory: string, files: seq<(string, Result<Table>)>, ext: Option<string>)
    : (r: Result<(seq<Table>, Option<string>)>)
    ensures r.Ok? ==> |r.value.0| <= |files|
    ensures r.Ok? ==> (r.value.1.None? <==> |r.value.0| == 0)
  {
    if |files| == 0 then Ok(([], None))
    else
      var front :- FolderImport(directory, files[..|files| - 1], ext);
      var f := files[|files| - 1];
      match GetExtension(Some(f.0))
      case None => Err(RuntimeFailure)
      case Some(x) =>
        if Some(x) == ext then
          match f.1
          case Err(e) => Err(e)
          case Ok(t) => Ok((front.0 + [t], Some(directory + f.0)))
        else Ok(front)
  }

  /** The listing with every file read. */
  function ReadFiles(files: seq<(string, Result<Table>)>): (r: seq<(string, Table)>)
    requires forall k :: 0 <= k < |files| ==> files[k].1.Ok?
    ensures |r| == |files|
    ensures forall k :: 0 <= k < |files| ==> r[k] == (files[k].0, files[k].1.value)
  {
    seq(|files|, k requires 0 <= k < |files| => (files[k].0, files[k].1.value))
  }

  /** When every file reads, `fromFolder` picks the same tables, in the same order, as
      `whenExtension` does from the same files. */
  lemma {:induction false} FolderImportMatches(directory: string, files: seq<(string, Result<Table>)>, ext: Option<string>)
    requires forall k :: 0 <= k < |files| ==> files[k].1.Ok?
    ensures FolderImport(directory, files, ext).Ok? <==> MatchingTables(ReadFiles(files), ext).Ok?
    ensures FolderImport(directory, files, ext).Ok? ==>
      FolderImport(directory, files, ext).value.0 == MatchingTables(ReadFiles(files), ext).value
  {
    if |files| > 0 {
      var front := files[..|files| - 1];
      FolderImportMatches(directory, front, ext);
      assert ReadFiles(files)[..|files| - 1] == ReadFiles(front);
    }
  }

  /** The name `fromFolders` gives the table of a file in a sub-folder. */
  function FolderTableName(root: string, sub: string, file: string): string
  {
    root + sub + "/" + file
  }

  /** Past the root, a sub-folder table name splits on '/' into its sub-folder and file. */
  lemma FolderTableNameSplit(root: string, sub: string, file: string)
    requires '/' !in sub && '/' !in file
    ensures |root| <= |FolderTableName(root, sub, file)|
    ensures Split(FolderTableName(root, sub, file)[|root|..], '/') == [sub, file]
  {
    var n := sub + ['/'] + file;
    assert FolderTableName(root, sub, file) == root + n;
    assert (root + n)[|root|..] == n;
    SplitAtSeparator(sub, file, '/');
    SplitPlain(file, '/');
  }

  /** Sub-folder and file names hold no '/', so two different files never get the same
      table name. */
  lemma FolderTableNamesDistinct(root: string, sub1: string, file1: string, sub2: string, file2: string)
    requires '/' !in sub1 && '/' !in file1 && '/' !in sub2 && '/' !in file2
    requires sub1 != sub2 || file1 != file2
    ensures FolderTableName(root, sub1, file1) != FolderTableName(root, sub2, file2)
  {
    FolderTableNameSplit(root, sub1, file1);
    FolderTableNameSplit(root, sub2, file2);
  }

  /** The tables of one sub-folder under their `fromFolders` names. */
  function SubFolderTables(root: string, sub: string, files: seq<(string, Table)>): (r: seq<(string, Table)>)
    ensures |r| == |files|
    ensures forall k :: 0 <= k < |files| ==>
      r[k].0 == files[k].0 && r[k].1.columns == files[k].1.columns &&
      r[k].1.name == Some(FolderTableName(root, sub, files[k].0))
  {
    seq(|files|, k requires 0 <= k < |files| =>
      (files[k].0, files[k].1.(name := Some(FolderTableName(root, sub, files[k].0)))))
  }

  /** `fromFolders(root)`: every sub-folder's files, named by `FolderTableName`. */
  function FolderTables(root: string, folders: seq<(string, seq<(string, Table)>)>)
    : (r: seq<(string, seq<(string, Table)>)>)
    ensures |r| == |folders|
    ensures forall k :: 0 <= k < |folders| ==>
      r[k].0 == folders[k].0 && r[k].1 == SubFolderTables(root, folders[k].0, folders[k].1)
  {
    seq(|folders|, k requires 0 <= k < |folders| =>
      (folders[k].0, SubFolderTables(root, folders[k].0, folders[k].1)))
  }

  // ---------------------------------------------------------------------------
  // Script nodes and the kinds they need

  /** A node of a parsed script.  The import nodes carry what reading the file system
      gives: a file's table, a folder's listing with each file's table (`None` when the
      folder cannot be listed), the sub-folders with their files' tables. */
  datatype Node =
    | Model
    | CreateTable(name: string)
    | ImportDataFolder(folderPath: string, extType: ExtType, listing: Option<seq<(string, Result<Table>)>>)
    | ImportDataFolders(foldersPath: string, folders: Result<seq<(string, seq<(string, Table)>)>>)
    | ImportDataFile(filePath: string, parsed: Result<Table>)
    | Extension(extensionType: ExtType)
    | OutputTable(outputPath: string)
    | SelectionColumn(columnName: string, columnFilter: ColumnFilter)
    | AddColumnGlobal(globalName: string, globalType: string, globalPosition: ColumnPosition)
    | AddColumnNested(nestedName: string, nestedType: string, nestedPosition: ColumnPosition)
    | SelectionTable(tableName: string, tableFilter: ColumnFilter)
    | FilterNode(targetPath: string, filterFunction: FunctionType, columns: seq<string>, targetN: int)
    | DefineSuffix(suffix: string, suffixAppliesTo: string)
    | DefinePrefix(prefix: string, prefixAppliesTo: string)
    | RowOperation(rowOperation: string)
    | RemoveColumn(removed: string)
    | RenameColumn(renamed: string, newColumnName: string)
    | OperationAtRows(operationType: RowOperator, column1: string, column2: string, columnFinal: string)
    | Unrecognised(description: string)

  /** The kind a node's handler resets the builder to (the extension handler on a select
      builder in extension mode climbs one step by hand, to the same kind). */
  function Target(n: Node): Option<Kind>
  {
    match n
    case Model => None
    case Unrecognised(_) => None
    case CreateTable(_) => Some(TableKind)
    case OutputTable(_) => Some(TableKind)
    case ImportDataFolder(_, _, _) => Some(TableKind)
    case ImportDataFolders(_, _) => Some(TableKind)
    case ImportDataFile(_, _) => Some(TableKind)
    case AddColumnGlobal(_, _, _) => Some(TableKind)
    case Extension(_) => Some(ImportKind)
    case SelectionColumn(_, _) => Some(ImportKind)
    case SelectionTable(_, _) => Some(ImportKind)
    case FilterNode(_, _, _, _) => Some(ImportKind)
    case AddColumnNested(_, _, _) => Some(SelectKind)
    case DefineSuffix(_, _) => Some(OperationKind)
    case DefinePrefix(_, _) => Some(OperationKind)
    case RowOperation(_) => Some(OperationKind)
    case RemoveColumn(_) => Some(OperationKind)
    case RenameColumn(_, _) => Some(OperationKind)
    case OperationAtRows(_, _, _, _) => Some(OperationKind)
  }

  /** The kind of builder a node's handler returns. */
  function After(n: Node, k: Kind): Kind
  {
    match n
    case CreateTable(_) => TableKind
    case OutputTable(_) => TableKind
    case ImportDataFolder(_, _, _) => ImportKind
    case ImportDataFolders(_, _) => ImportKind
    case ImportDataFile(_, _) => ImportKind
    case Extension(_) => ImportKind
    case AddColumnGlobal(_, _, _) => OperationKind
    case SelectionColumn(_, _) => SelectKind
    case SelectionTable(_, _) => SelectKind
    case FilterNode(_, _, _, _) => SelectKind
    case AddColumnNested(_, _, _) => SelectKind
    case DefineSuffix(_, _) => OperationKind
    case DefinePrefix(_, _) => OperationKind
    case RowOperation(_) => OperationKind
    case RemoveColumn(_) => OperationKind
    case RenameColumn(_, _) => OperationKind
    case OperationAtRows(_, _, _, _) => OperationKind
    case _ => k
  }

  /** The error an unknown node throws inside the dispatch. */
  function NotImplemented(description: string): Error
  {
    DslError(GenericError("Node not implemented: " + description))
  }

  /** One node at the level of kinds: an unknown node fails, a node that needs a deeper
      builder than the current one never finishes, any other node moves to its kind. */
  function Step(n: Node, k: Kind): (r: Result<Kind>)
    ensures r.Err? ==> r.error == Diverges || n.Unrecognised?
  {
    if n.Unrecognised? then Err(NotImplemented(n.description))
    else if Target(n).Some? && Rank(Target(n).value) > Rank(k) then Err(Diverges)
    else Ok(After(n, k))
  }

  /** A script at the level of kinds, from the builder kind `k`. */
  function Trace(nodes: seq<Node>, k: Kind): Result<Kind>
  {
    if |nodes| == 0 then Ok(k)
    else match Trace(nodes[..|nodes| - 1], k)
      case Err(e) => Err(e)
      case Ok(j) => Step(nodes[|nodes| - 1], j)
  }

  /** Once a script fails at the level of kinds, every longer script fails the same way. */
  lemma {:induction false} TracePrefixErr(nodes: seq<Node>, k: Kind, i: nat)
    requires i <= |nodes| && Trace(nodes[..i], k).Err?
    ensures Trace(nodes, k) == Trace(nodes[..i], k)
    decreases |nodes| - i
  {
    if i < |nodes| {
      assert nodes[..i + 1][..i] == nodes[..i];
      TracePrefixErr(nodes, k, i + 1);
    } else {
      assert nodes[..i] == nodes;
    }
  }

  /** A script whose builder is back at the table builder never finishes if its next
      node needs any other builder, whatever follows. */
  lemma TableThenDeeperDiverges(front: seq<Node>, n: Node, rest: seq<Node>)
    requires Trace(front, TableKind) == Ok(TableKind)
    requires Target(n).Some? && Target(n).value != TableKind
    ensures Trace(front + [n] + rest, TableKind) == Err(Diverges)
  {
    var s := front + [n] + rest;
    assert s[..|front| + 1][..|front|] == front;
    assert s[..|front| + 1][|front|] == n;
    assert Trace(s[..|front| + 1], TableKind) == Err(Diverges);
    TracePrefixErr(s, TableKind, |front| + 1);
  }

  /** An import followed by a selection and a nested column is a script that runs at the
      level of kinds, ending on a select builder. */
  lemma ImportSelectAddRuns(file: string, parsed: Result<Table>, table: string, f: ColumnFilter,
                            name: string, typ: string, p: ColumnPosition)
    ensures Trace([ImportDataFile(file, parsed), SelectionTable(table, f), AddColumnNested(name, typ, p)], TableKind)
      == Ok(SelectKind)
  {
    var s := [ImportDataFile(file, parsed), SelectionTable(table, f), AddColumnNested(name, typ, p)];
    assert s[..1][..0] == [];
    assert Trace(s[..1], TableKind) == Ok(ImportKind);
    assert s[..2][..1] == s[..1];
    assert Trace(s[..2], TableKind) == Ok(SelectKind);
    assert s[..3] == s;
  }

  /** Nodes that ask for a new operation name. */
  function OperationsIn(nodes: seq<Node>): nat
  {
    if |nodes| == 0 then 0
    else OperationsIn(nodes[..|nodes| - 1]) + (if CreatesOperation(nodes[|nodes| - 1]) then 1 else 0)
  }

  predicate CreatesOperation(n: Node)
  {
    n.ImportDataFolder? || n.ImportDataFolders? || n.ImportDataFile? || n.AddColumnGlobal?
  }

  /** Whether a script turns on the extension mode. */
  function ExtensionIn(nodes: seq<Node>): bool
  {
    if |nodes| == 0 then false
    else ExtensionIn(nodes[..|nodes| - 1]) || nodes[|nodes| - 1].Extension?
  }

  lemma {:induction false} ExtensionInExists(nodes: seq<Node>)
    ensures ExtensionIn(nodes) <==> exists k :: 0 <= k < |nodes| && nodes[k].Extension?
  {
    if |nodes| > 0 {
      var front := nodes[..|nodes| - 1];
      ExtensionInExists(front);
      if ExtensionIn(front) {
        var k :| 0 <= k < |front| && front[k].Extension?;
        assert nodes[k] == front[k];
      }
      if exists k :: 0 <= k < |nodes| && nodes[k].Extension? {
        var k :| 0 <= k < |nodes| && nodes[k].Extension?;
        if k < |front| {
          assert front[k] == nodes[k];
        }
      }
    }
  }

  /** Nodes that export the table. */
  function OutputsIn(nodes: seq<Node>): nat
  {
    if |nodes| == 0 then 0
    else OutputsIn(nodes[..|nodes| - 1]) + (if nodes[|nodes| - 1].OutputTable? then 1 else 0)
  }

  // ---------------------------------------------------------------------------
  // The parser

  /** What every handler promises at the level of kinds: it cannot finish when the
      builder it needs is deeper than the current one, it never finishes only then, and
      on success the builder has the handler's kind.  `hangs` says that `reset` never
      returns; when it starts below an import builder nothing can fail before. */
  predicate Reached(b: Builder, target: Kind, r: Result<Builder>, hangs: bool, after: Kind)
  {
    (Rank(target) > Rank(KindOf(b)) ==> r.Err?) &&
    (Rank(target) > Rank(KindOf(b)) && Rank(KindOf(b)) < 2 ==> hangs) &&
    (hangs ==> r.Err? && Rank(target) > Rank(KindOf(b))) &&
    (r.Ok? ==> KindOf(r.value) == after)
  }

  /** A handler's promise at the level of kinds, read as one step of the trace. */
  lemma StepFromReached(n: Node, b: Builder, r: Result<Builder>, hangs: bool)
    requires Target(n).Some? && !n.Unrecognised?
    requires Reached(b, Target(n).value, r, hangs, After(n, KindOf(b)))
    ensures r.Ok? ==> Step(n, KindOf(b)) == Ok(KindOf(r.value))
    ensures hangs ==> r.Err? && Step(n, KindOf(b)) == Err(Diverges)
    ensures Step(n, KindOf(b)) == Err(Diverges) && Rank(KindOf(b)) < 2 ==> hangs
    ensures Step(n, KindOf(b)).Err? ==> r.Err?
  {
  }

  /** The output node's step, read from what its handler reached. */
  lemma OutputStep(n: Node, b: Builder, r: Result<Builder>, hangs: bool)
    requires n.OutputTable? && Reached(b, TableKind, r, hangs, TableKind)
    ensures r.Ok? ==> Step(n, KindOf(b)) == Ok(KindOf(r.value))
    ensures hangs ==> r.Err? && Step(n, KindOf(b)) == Err(Diverges)
    ensures Step(n, KindOf(b)) == Err(Diverges) && Rank(KindOf(b)) < 2 ==> hangs
    ensures Step(n, KindOf(b)).Err? ==> r.Err?
  {
    assert Target(n) == Some(TableKind) && After(n, KindOf(b)) == TableKind;
    StepFromReached(n, b, r, hangs);
  }

  class DslParser {
    var operationCounter: nat
    var whenExtensionMode: bool

    constructor()
      ensures operationCounter == 0 && !whenExtensionMode
    {
      operationCounter := 0;
      whenExtensionMode := false;
    }

    /** `getOperationName()`: the counter goes up first, so the names are "operation1",
        "operation2", and so on. */
    method GetOperationName() returns (name: string)
      modifies this`operationCounter
      ensures operationCounter == old(operationCounter) + 1
      ensures name == OperationName(operationCounter)
    {
      operationCounter := operationCounter + 1;
      name := OperationName(operationCounter);
    }

    /** The parser is none of the builders' objects, so a builder's changes leave its
        counters alone. */
    lemma Apart(b: Builder)
      ensures this !in Objects(b)
    {
    }

    /** `createTableParser`: back to the table builder, which takes the unquoted name;
        its columns stay as they were. */
    method CreateTableNode(name: string, b: Builder) returns (r: Result<Builder>, hangs: bool)
      modifies Objects(b)
      ensures operationCounter == old(operationCounter) && whenExtensionMode == old(whenExtensionMode)
      ensures Reached(b, TableKind, r, hangs, TableKind)
      ensures r.Ok? ==> r.value == Ancestor(b, TableKind) && r.value.tb.table.name == StripQuotes(Some(name))
      ensures r.Ok? ==> Objects(r.value) <= old(Objects(b))
      ensures b.TB? ==> r.Ok? && r.value.tb.table.columns == old(b.tb.table.columns)
    {
      Apart(b);
      hangs := false;
      r := Reset(b, TableKind);
      if r.Err? {
        hangs := r.error == Diverges;
        return;
      }
      var tb := r.value.tb.WithName(StripQuotes(Some(name)));
    }

    /** `outputTableParser`: back to the table builder and export of its table to the
        unquoted path; the page is the one `Assembled` describes, and a failed export fails
        the node. */
    method OutputTableNode(path: string, b: Builder, fmt: real -> string) returns (r: Result<Builder>, hangs: bool, out: seq<Exported>)
      modifies Objects(b)
      ensures operationCounter == old(operationCounter) && whenExtensionMode == old(whenExtensionMode)
      ensures Reached(b, TableKind, r, hangs, TableKind)
      ensures r.Ok? ==> (r.value == Ancestor(b, TableKind) &&
        var a := Assembled(r.value.tb.table.Value(), StripQuotes(Some(path)), fmt);
        a.Ok? && out == [a.value])
      ensures r.Err? ==> out == []
      ensures b.TB? ==> (r.Ok? <==> Assembled(old(b.tb.table.Value()), StripQuotes(Some(path)), fmt).Ok?)
      ensures r.Ok? ==> Objects(r.value) <= old(Objects(b))
    {
      Apart(b);
      out := [];
      hangs := false;
      r := Reset(b, TableKind);
      if r.Err? {
        hangs := r.error == Diverges;
        return;
      }
      var a := r.value.tb.Assemble(StripQuotes(Some(path)), fmt);
      if a.Err? {
        return Err(a.error), false, [];
      }
      out := [a.value.1];
    }

    /** The start of every import: back to the table builder, a new operation builder
        under the next operation name, and a new import builder on it. */
    method NewImport(b: Builder) returns (r: Result<ImportBuilder>)
      modifies this`operationCounter, Objects(b)
      ensures r.Err? ==> r.error == RuntimeFailure && Rank(KindOf(b)) >= 2
      ensures b.TB? ==> r.Ok?
      ensures r.Ok? ==> fresh(r.value) && r.value.operationBuilder.tableBuilder == Ancestor(b, TableKind).tb
      ensures r.Ok? ==> r.value.tables == [] && r.value.fromFolders == [] && r.value.filePath == None
      ensures r.Ok? ==> r.value.operationBuilder.resultTable == Ancestor(b, TableKind).tb.table
      ensures r.Ok? ==> r.value.operationBuilder.shared.name == Some("Import")
      ensures r.Ok? ==> operationCounter == old(operationCounter) + 1
      ensures r.Ok? ==> forall o :: o in Objects(IB(r.value)) ==> o in old(Objects(b)) || fresh(o)
    {
      var c := NewOperation(b);
      if c.Err? {
        return Err(c.error);
      }
      var ib := c.value.WithImport();
      r := Ok(ib);
    }

    /** `importDataFileParser`: the file's table becomes the only candidate and its path
        the import's file path. */
    method ImportDataFileNode(path: string, parsed: Result<Table>, b: Builder) returns (r: Result<Builder>, hangs: bool)
      modifies this`operationCounter, Objects(b)
      ensures whenExtensionMode == old(whenExtensionMode)
      ensures Reached(b, TableKind, r, hangs, ImportKind)
      ensures parsed.Err? ==> r.Err?
      ensures b.TB? && parsed.Ok? ==> r.Ok?
      ensures r.Ok? ==> (r.value.ib.operationBuilder.tableBuilder == Ancestor(b, TableKind).tb &&
        r.value.ib.tables == [parsed.value] && r.value.ib.filePath == StripQuotes(Some(path)) &&
        r.value.ib.fromFolders == [] && operationCounter == old(operationCounter) + 1)
      ensures r.Ok? ==> forall o :: o in Objects(r.value) ==> o in old(Objects(b)) || fresh(o)
    {
      Apart(b);
      hangs := false;
      var c := NewImport(b);
      if c.Err? {
        return Err(c.error), false;
      }
      if parsed.Err? {
        return Err(parsed.error), false;
      }
      var ib := c.value;
      ib.Load([parsed.value], StripQuotes(Some(path)));
      r := Ok(IB(ib));
    }

    /** `importDataFolderParser`: the folder's files with the node's extension become the
        candidates. */
    method ImportDataFolderNode(path: string, t: ExtType, listing: Option<seq<(string, Result<Table>)>>, b: Builder)
      returns (r: Result<Builder>, hangs: bool)
      modifies this`operationCounter, Objects(b)
      ensures whenExtensionMode == old(whenExtensionMode)
      ensures Reached(b, TableKind, r, hangs, ImportKind)
      ensures b.TB? ==> (r.Ok? <==> (listing.Some? &&
        FolderImport(StripQuotes(Some(path)).value, listing.value, ExtensionName(t)).Ok?))
      ensures r.Ok? ==> (listing.Some? &&
        var f := FolderImport(StripQuotes(Some(path)).value, listing.value, ExtensionName(t));
        f.Ok? && r.value.ib.tables == f.value.0 && r.value.ib.filePath == f.value.1 &&
        r.value.ib.operationBuilder.tableBuilder == Ancestor(b, TableKind).tb &&
        operationCounter == old(operationCounter) + 1)
      ensures r.Ok? ==> forall o :: o in Objects(r.value) ==> o in old(Objects(b)) || fresh(o)
    {
      Apart(b);
      hangs := false;
      var c := NewImport(b);
      if c.Err? {
        return Err(c.error), false;
      }
      if listing.None? {
        return Err(RuntimeFailure), false;
      }
      var f := FolderImport(StripQuotes(Some(path)).value, listing.value, ExtensionName(t));
      if f.Err? {
        return Err(f.error), false;
      }
      var ib := c.value;
      ib.Load(f.value.0, f.value.1);
      r := Ok(IB(ib));
    }

    /** `importDataFoldersParser`: the sub-folders' tables are recorded for later
        extension filters; there are no candidates yet. */
    method ImportDataFoldersNode(path: string, folders: Result<seq<(string, seq<(string, Table)>)>>, b: Builder)
      returns (r: Result<Builder>, hangs: bool)
      modifies this`operationCounter, Objects(b)
      ensures whenExtensionMode == old(whenExtensionMode)
      ensures Reached(b, TableKind, r, hangs, ImportKind)
      ensures folders.Err? ==> r.Err?
      ensures b.TB? && folders.Ok? ==> r.Ok?
      ensures r.Ok? ==> (folders.Ok? &&
        r.value.ib.fromFolders == FolderTables(StripQuotes(Some(path)).value, folders.value) &&
        r.value.ib.tables == [] && r.value.ib.operationBuilder.tableBuilder == Ancestor(b, TableKind).tb &&
        operationCounter == old(operationCounter) + 1)
      ensures r.Ok? ==> forall o :: o in Objects(r.value) ==> o in old(Objects(b)) || fresh(o)
    {
      Apart(b);
      hangs := false;
      var c := NewImport(b);
      if c.Err? {
        return Err(c.error), false;
      }
      if folders.Err? {
        return Err(folders.error), false;
      }
      var ib := c.value;
      ib.LoadFolders(FolderTables(StripQuotes(Some(path)).value, folders.value));
      r := Ok(IB(ib));
    }

    /** The builder `extensionParser` works on: in extension mode a select builder hands
        its candidates back and the import builder merges them (`endWhen`); otherwise the
        builder resets to the import builder. */
    method ExtensionBuilder(b: Builder) returns (r: Result<Builder>, hangs: bool)
      modifies Objects(b)
      ensures Reached(b, ImportKind, r, hangs, ImportKind)
      ensures r.Ok? ==> r.value == Ancestor(b, ImportKind)
      ensures r.Ok? && whenExtensionMode && b.SB? ==>
        Merged(old(b.sb.tables), old(b.sb.importBuilder.filePath)).Ok? &&
        b.sb.importBuilder.operationBuilder.resultTable.columns ==
          old(b.sb.importBuilder.operationBuilder.resultTable.columns) +
          Merged(old(b.sb.tables), old(b.sb.importBuilder.filePath)).value.columns &&
        r.value.ib.tables == []
      ensures r.Ok? ==> Objects(r.value) <= old(Objects(b))
      ensures r.Ok? ==> (r.value.ib.fromFolders == old(r.value.ib.fromFolders) &&
        r.value.ib.tables == old(Handed(b, whenExtensionMode)))
    {
      if whenExtensionMode && b.SB? {
        var ib := b.sb.End();
        var o := ib.EndWhen();
        if o.Fail? {
          return Err(o.error), false;
        }
        return Ok(IB(ib)), false;
      }
      r := Reset(b, ImportKind);
      hangs := r == Err(Diverges);
    }

    /** `extensionParser`: the builder of `ExtensionBuilder`; extension mode is then on for
        good, and the sub-folder tables with the extension join the candidates. */
    method ExtensionNode(t: ExtType, b: Builder) returns (r: Result<Builder>, hangs: bool)
      modifies this`whenExtensionMode, Objects(b)
      ensures operationCounter == old(operationCounter)
      ensures Reached(b, ImportKind, r, hangs, ImportKind)
      ensures r.Ok? ==> whenExtensionMode && r.value == Ancestor(b, ImportKind)
      ensures r.Ok? ==> (var ib := r.value.ib;
        var m := MatchingTables(FolderEntries(old(ib.fromFolders)), ExtensionName(t));
        ib.fromFolders == old(ib.fromFolders) && m.Ok? && ib.tables == old(Handed(b, whenExtensionMode)) + m.value)
      ensures r.Ok? && old(whenExtensionMode) && b.SB? ==>
        Merged(old(b.sb.tables), old(b.sb.importBuilder.filePath)).Ok? &&
        b.sb.importBuilder.operationBuilder.resultTable.columns ==
          old(b.sb.importBuilder.operationBuilder.resultTable.columns) +
          Merged(old(b.sb.tables), old(b.sb.importBuilder.filePath)).value.columns
      ensures r.Ok? ==> Objects(r.value) <= old(Objects(b))
    {
      Apart(b);
      r, hangs := ExtensionBuilder(b);
      if r.Err? {
        return;
      }
      var ib := r.value.ib;
      whenExtensionMode := true;
      ExtensionNameUnquoted(t);
      var o := ib.WhenExtension(StripQuotes(ExtensionName(t)));
      if o.Fail? {
        return Err(o.error), false;
      }
    }

    /** `selectionColumnParser`: a select builder over the candidates, selected by column
        path under the node's constraint. */
    method SelectionColumnNode(columnName: string, f: ColumnFilter, b: Builder) returns (r: Result<Builder>, hangs: bool)
      modifies Objects(b)
      ensures operationCounter == old(operationCounter) && whenExtensionMode == old(whenExtensionMode)
      ensures Reached(b, ImportKind, r, hangs, SelectKind)
      ensures r.Ok? ==> (fresh(r.value.sb) && r.value.sb.importBuilder == Ancestor(b, ImportKind).ib &&
        Selection.TableSelection(r.value.sb.importBuilder.tables, StripQuotes(Some(columnName)), Filters(f), true)
          == Ok(r.value.sb.tables))
      ensures b.IB? ==> (r.Ok? <==>
        Selection.TableSelection(old(b.ib.tables), StripQuotes(Some(columnName)), Filters(f), true).Ok?)
      ensures r.Ok? ==> forall o :: o in Objects(r.value) ==> o in old(Objects(b)) || fresh(o)
    {
      Apart(b);
      var c := Reset(b, ImportKind);
      if c.Err? {
        return c, c.error == Diverges;
      }
      hangs := false;
      var s := c.value.ib.SelectByColumn(StripQuotes(Some(columnName)), Filters(f));
      if s.Err? {
        return Err(s.error), false;
      }
      r := Ok(SB(s.value));
    }

    /** `selectionTableParser`: as the column selection, by table path, where "*" is every
        table. */
    method SelectionTableNode(tableName: string, f: ColumnFilter, b: Builder) returns (r: Result<Builder>, hangs: bool)
      modifies Objects(b)
      ensures operationCounter == old(operationCounter) && whenExtensionMode == old(whenExtensionMode)
      ensures Reached(b, ImportKind, r, hangs, SelectKind)
      ensures r.Ok? ==> (fresh(r.value.sb) && r.value.sb.importBuilder == Ancestor(b, ImportKind).ib &&
        Selection.TableSelection(r.value.sb.importBuilder.tables, TablePath(StripQuotes(Some(tableName)).value),
          Filters(f), false) == Ok(r.value.sb.tables))
      ensures b.IB? ==> (r.Ok? <==>
        Selection.TableSelection(old(b.ib.tables), TablePath(StripQuotes(Some(tableName)).value), Filters(f), false).Ok?)
      ensures r.Ok? ==> forall o :: o in Objects(r.value) ==> o in old(Objects(b)) || fresh(o)
    {
      Apart(b);
      var c := Reset(b, ImportKind);
      if c.Err? {
        return c, c.error == Diverges;
      }
      hangs := false;
      var s := c.value.ib.SelectByTable(TablePath(StripQuotes(Some(tableName)).value), Filters(f));
      if s.Err? {
        return Err(s.error), false;
      }
      r := Ok(SB(s.value));
    }

    /** `filterParser`: the extremum selection; N = 1 goes through `selectByFilter`,
        which selects one, and any other N through `selectNByFilter`. */
    method FilterNodeHandler(targetPath: string, fn: FunctionType, columns: seq<string>, targetN: int, b: Builder)
      returns (r: Result<Builder>, hangs: bool)
      modifies Objects(b)
      ensures operationCounter == old(operationCounter) && whenExtensionMode == old(whenExtensionMode)
      ensures Reached(b, ImportKind, r, hangs, SelectKind)
      ensures r.Ok? ==> (fresh(r.value.sb) && r.value.sb.importBuilder == Ancestor(b, ImportKind).ib &&
        var ib := r.value.sb.importBuilder;
        Selection.FunctionSelection(ib.tables, StripQuotes(Some(targetPath)), FunctionName(fn),
          Some(ExtractSanitizedList(columns)), targetN, FolderNames(ib.fromFolders)) == Ok(r.value.sb.tables))
      ensures b.IB? ==> (r.Ok? <==>
        Selection.FunctionSelection(old(b.ib.tables), StripQuotes(Some(targetPath)), FunctionName(fn),
          Some(ExtractSanitizedList(columns)), targetN, FolderNames(old(b.ib.fromFolders))).Ok?)
      ensures r.Ok? ==> forall o :: o in Objects(r.value) ==> o in old(Objects(b)) || fresh(o)
    {
      Apart(b);
      var c := Reset(b, ImportKind);
      if c.Err? {
        return c, c.error == Diverges;
      }
      hangs := false;
      var ib := c.value.ib;
      var target := StripQuotes(Some(targetPath));
      var cols := Some(ExtractSanitizedList(columns));
      var s := SelectExtremum(ib, target, FunctionName(fn), cols, targetN);
      if s.Err? {
        return Err(s.error), false;
      }
      r := Ok(SB(s.value));
    }

    /** The call `filterParser` makes: `selectByFilter` for N = 1, otherwise
        `selectNByFilter`. */
    static method SelectExtremum(ib: ImportBuilder, target: Option<string>, fn: Option<string>,
                                 cols: Option<seq<string>>, targetN: int)
      returns (s: Result<SelectBuilder>)
      ensures var spec := Selection.FunctionSelection(ib.tables, target, fn, cols, targetN, FolderNames(ib.fromFolders));
        (s.Ok? <==> spec.Ok?) && (s.Err? ==> s.error == spec.error) &&
        (s.Ok? ==> fresh(s.value) && s.value.importBuilder == ib && s.value.tables == spec.value)
    {
      if targetN == 1 {
        s := ib.SelectByFilter(target, fn, cols);
      } else {
        s := ib.SelectNByFilter(target, fn, cols, targetN);
      }
    }

    /** `addNestedColumnParser`: a column named after the node is added to every
        candidate, its cell built from the type text as `withColumn` builds it: the text
        is not stored as it stands but names the candidate's folder (FOLDERNAME) or the
        candidate itself (any other word). */
    method AddColumnNestedNode(name: string, typ: string, p: ColumnPosition, b: Builder) returns (r: Result<Builder>, hangs: bool)
      modifies Objects(b)
      ensures operationCounter == old(operationCounter) && whenExtensionMode == old(whenExtensionMode)
      ensures Reached(b, SelectKind, r, hangs, SelectKind)
      ensures r.Ok? ==> r.value == b
      ensures b.SB? ==> var spec := Selection.WithColumn(old(b.sb.tables), StripQuotes(Some(name)), Str(typ), AtStart(p));
        (r.Ok? <==> spec.Ok?) && (r.Ok? ==> b.sb.tables == spec.value) && (r.Err? ==> r.error == spec.error)
      ensures r.Ok? ==> Objects(r.value) <= old(Objects(b))
    {
      Apart(b);
      hangs := false;
      r := Reset(b, SelectKind);
      if r.Err? {
        hangs := r.error == Diverges;
        return;
      }
      var o := b.sb.AddColumnAt(StripQuotes(Some(name)), Str(typ), AtStart(p));
      if o.Fail? {
        return Err(o.error), false;
      }
    }

    /** `performOperation(getOperationName())` on a table builder. */
    method StartOperation(tb: TableBuilder) returns (ob: OperationBuilder)
      modifies this`operationCounter, tb.shared
      ensures fresh(ob) && ob.tableBuilder == tb && ob.resultTable == tb.table && ob.shared == tb.shared
      ensures operationCounter == old(operationCounter) + 1 && tb.shared.name == Some(OperationName(operationCounter))
    {
      var opName := GetOperationName();
      ob := tb.PerformOperation(opName);
    }

    /** The fresh operation builder `addGlobalColumnParser` adds its column with: the
        builder resets to the table builder, which starts the next named operation. */
    method NewOperation(b: Builder) returns (r: Result<OperationBuilder>)
      modifies this`operationCounter, Objects(b)
      ensures r.Err? ==> r.error == RuntimeFailure && Rank(KindOf(b)) >= 2
      ensures b.TB? ==> r.Ok?
      ensures r.Ok? ==> (fresh(r.value) && r.value.tableBuilder == Ancestor(b, TableKind).tb &&
        r.value.resultTable == Ancestor(b, TableKind).tb.table &&
        r.value.shared.name == Some(OperationName(operationCounter)) &&
        operationCounter == old(operationCounter) + 1)
      ensures r.Ok? && b.TB? ==> b.tb.table.columns == old(b.tb.table.columns)
      ensures !b.TB? ==> (r.Ok? <==> old(ClimbedColumns(b)).Ok?)
      ensures r.Ok? && !b.TB? ==> (r.value.resultTable == Ancestor(b, OperationKind).ob.resultTable &&
        r.value.resultTable.columns == old(ClimbedColumns(b)).value)
      ensures r.Ok? ==> forall o :: o in Objects(OB(r.value)) ==> o in old(Objects(b)) || fresh(o)
    {
      var c := ResetToTable(b);
      if c.Err? {
        return Err(c.error);
      }
      var ob := StartOperation(c.value);
      r := Ok(ob);
    }

    /** `addGlobalColumnParser`: a new operation builder adds a one-cell column holding
        the type text to the table the climb to the table builder leaves there: from an
        operation builder its own table, from an import or select builder the operation
        table after the import builder's `end()`. */
    method AddColumnGlobalNode(name: string, typ: string, p: ColumnPosition, b: Builder) returns (r: Result<Builder>, hangs: bool)
      modifies this`operationCounter, Objects(b)
      ensures whenExtensionMode == old(whenExtensionMode)
      ensures Reached(b, TableKind, r, hangs, OperationKind)
      ensures b.TB? ==> r.Ok?
      ensures r.Ok? ==> (fresh(r.value.ob) && r.value.ob.tableBuilder == Ancestor(b, TableKind).tb &&
        r.value.ob.shared.name == Some(OperationName(operationCounter)) &&
        operationCounter == old(operationCounter) + 1)
      ensures r.Ok? && b.TB? ==> (r.value.ob.resultTable == b.tb.table &&
        b.tb.table.columns == AddedColumn(old(b.tb.table.columns), Column(StripQuotes(Some(name)).value, [Str(typ)]), AtStart(p)))
      ensures !b.TB? ==> (r.Ok? <==> old(ClimbedColumns(b)).Ok?)
      ensures r.Ok? && !b.TB? ==> (r.value.ob.resultTable == Ancestor(b, OperationKind).ob.resultTable &&
        r.value.ob.resultTable.columns ==
          AddedColumn(old(ClimbedColumns(b)).value, Column(StripQuotes(Some(name)).value, [Str(typ)]), AtStart(p)))
      ensures r.Ok? ==> forall o :: o in Objects(r.value) ==> o in old(Objects(b)) || fresh(o)
    {
      Apart(b);
      hangs := false;
      var c := NewOperation(b);
      if c.Err? {
        return Err(c.error), false;
      }
      var ob := c.value;
      // the value is never null, so the column is always added
      var o := ob.AddColumnAt(StripQuotes(Some(name)).value, Str(typ), AtStart(p));
      r := Ok(OB(ob));
    }

    /** `suffixParser`: the first column of that name becomes "name suffix". */
    method DefineSuffixNode(suffix: string, appliesTo: string, b: Builder) returns (r: Result<Builder>, hangs: bool)
      modifies Objects(b)
      ensures Reached(b, OperationKind, r, hangs, OperationKind)
      ensures r.Ok? ==> r.value == Ancestor(b, OperationKind)
      ensures b.OB? ==> var cols := old(b.ob.resultTable.columns);
        var c := StripQuotes(Some(appliesTo)).value;
        (r.Ok? <==> FindColumn(cols, c).Some?) &&
        (r.Ok? ==> (b.ob.resultTable.columns ==
          RenamedColumn(cols, FindColumn(cols, c).value, c + " " + StripQuotes(Some(suffix)).value)))
      ensures r.Ok? ==> Objects(r.value) <= old(Objects(b))
    {
      hangs := false;
      r := Reset(b, OperationKind);
      if r.Err? {
        hangs := r.error == Diverges;
        return;
      }
      var o := r.value.ob.AddSuffix(StripQuotes(Some(suffix)).value, StripQuotes(Some(appliesTo)).value);
      if o.Fail? {
        return Err(o.error), false;
      }
    }

    /** `prefixParser`: the first column of that name becomes "prefix name". */
    method DefinePrefixNode(prefix: string, appliesTo: string, b: Builder) returns (r: Result<Builder>, hangs: bool)
      modifies Objects(b)
      ensures Reached(b, OperationKind, r, hangs, OperationKind)
      ensures r.Ok? ==> r.value == Ancestor(b, OperationKind)
      ensures b.OB? ==> var cols := old(b.ob.resultTable.columns);
        var c := StripQuotes(Some(appliesTo)).value;
        (r.Ok? <==> FindColumn(cols, c).Some?) &&
        (r.Ok? ==> (b.ob.resultTable.columns ==
          RenamedColumn(cols, FindColumn(cols, c).value, StripQuotes(Some(prefix)).value + " " + c)))
      ensures r.Ok? ==> Objects(r.value) <= old(Objects(b))
    {
      hangs := false;
      r := Reset(b, OperationKind);
      if r.Err? {
        hangs := r.error == Diverges;
        return;
      }
      var o := r.value.ob.AddPrefix(StripQuotes(Some(prefix)).value, StripQuotes(Some(appliesTo)).value);
      if o.Fail? {
        return Err(o.error), false;
      }
    }

    /** `rowOperationParser`: a summary row, the sum when the text says "SUM" and the
        average otherwise. */
    method RowOperationNode(text: string, b: Builder) returns (r: Result<Builder>, hangs: bool)
      modifies Objects(b)
      ensures Reached(b, OperationKind, r, hangs, OperationKind)
      ensures r.Ok? ==> r.value == Ancestor(b, OperationKind)
      ensures b.OB? ==> var spec := Aggregation.Summaries(old(b.ob.resultTable.columns), old(b.ob.addedRows), RowSummary(text));
        (r.Ok? <==> spec.Ok?) &&
        (r.Ok? ==> b.ob.resultTable.columns == spec.value && b.ob.addedRows == old(b.ob.addedRows) + 1)
      ensures r.Ok? ==> Objects(r.value) <= old(Objects(b))
    {
      hangs := false;
      r := Reset(b, OperationKind);
      if r.Err? {
        hangs := r.error == Diverges;
        return;
      }
      var o;
      if ContainsText(text, "SUM") {
        o := r.value.ob.Sum();
      } else {
        o := r.value.ob.Average();
      }
      if o.Fail? {
        return Err(o.error), false;
      }
    }

    /** `removeColumnOperationParser`: the column name is used as written. */
    method RemoveColumnNode(name: string, b: Builder) returns (r: Result<Builder>, hangs: bool)
      modifies Objects(b)
      ensures Reached(b, OperationKind, r, hangs, OperationKind)
      ensures r.Ok? ==> r.value == Ancestor(b, OperationKind)
      ensures b.OB? ==> var cols := old(b.ob.resultTable.columns);
        (r.Ok? <==> FindColumn(cols, name).Some?) &&
        (r.Ok? ==> b.ob.resultTable.columns == RemovedColumn(cols, FindColumn(cols, name).value)) &&
        (r.Err? ==> r.error == OperationError("Column " + name + " doesn't exist"))
      ensures r.Ok? ==> Objects(r.value) <= old(Objects(b))
    {
      hangs := false;
      r := Reset(b, OperationKind);
      if r.Err? {
        hangs := r.error == Diverges;
        return;
      }
      var o := r.value.ob.Remove(name);
      if o.Fail? {
        return Err(o.error), false;
      }
    }

    /** `renameColumnOperationParser`: both names are used as written. */
    method RenameColumnNode(oldName: string, newName: string, b: Builder) returns (r: Result<Builder>, hangs: bool)
      modifies Objects(b)
      ensures Reached(b, OperationKind, r, hangs, OperationKind)
      ensures r.Ok? ==> r.value == Ancestor(b, OperationKind)
      ensures b.OB? ==> var cols := old(b.ob.resultTable.columns);
        (r.Ok? <==> FindColumn(cols, oldName).Some?) &&
        (r.Ok? ==> b.ob.resultTable.columns == RenamedColumn(cols, FindColumn(cols, oldName).value, newName)) &&
        (r.Err? ==> r.error == OperationError("Column " + oldName + " doesn't exist"))
      ensures r.Ok? ==> Objects(r.value) <= old(Objects(b))
    {
      hangs := false;
      r := Reset(b, OperationKind);
      if r.Err? {
        hangs := r.error == Diverges;
        return;
      }
      var o := r.value.ob.Rename(oldName, newName);
      if o.Fail? {
        return Err(o.error), false;
      }
    }

    /** `operationAtRowsParser`: the row-by-row arithmetic the operator names. */
    method OperationAtRowsNode(op: RowOperator, c1: string, c2: string, result: string, b: Builder)
      returns (r: Result<Builder>, hangs: bool)
      modifies Objects(b)
      ensures Reached(b, OperationKind, r, hangs, OperationKind)
      ensures r.Ok? ==> r.value == Ancestor(b, OperationKind)
      ensures b.OB? ==> (r.Ok? <==> Aggregation.Operate(old(b.ob.resultTable.columns), c1, c2, result, ArithOf(op)).Ok?)
      ensures b.OB? && r.Ok? ==>
        b.ob.resultTable.columns == Aggregation.Operate(old(b.ob.resultTable.columns), c1, c2, result, ArithOf(op)).value
      ensures b.OB? && r.Err? ==> r.error == Aggregation.Operate(old(b.ob.resultTable.columns), c1, c2, result, ArithOf(op)).error
      ensures r.Ok? ==> Objects(r.value) <= old(Objects(b))
    {
      hangs := false;
      r := Reset(b, OperationKind);
      if r.Err? {
        hangs := r.error == Diverges;
        return;
      }
      var ob := r.value.ob;
      var o;
      match op {
        case OpDiv => o := ob.DivColumns(c1, c2, result);
        case OpMul => o := ob.MulColumns(c1, c2, result);
        case OpSub => o := ob.SubColumns(c1, c2, result);
        case OpSum => o := ob.SumColumns(c1, c2, result);
      }
      if o.Fail? {
        return Err(o.error), false;
      }
    }

    /** The nodes that import: each resets to the table builder and starts an import. */
    method ApplyImport(n: Node, b: Builder) returns (r: Result<Builder>, hangs: bool)
      requires n.ImportDataFolder? || n.ImportDataFolders? || n.ImportDataFile?
      modifies this, Objects(b)
      ensures r.Ok? ==> Step(n, KindOf(b)) == Ok(KindOf(r.value))
      ensures hangs ==> r.Err? && Step(n, KindOf(b)) == Err(Diverges)
      ensures Step(n, KindOf(b)) == Err(Diverges) && Rank(KindOf(b)) < 2 ==> hangs
      ensures Step(n, KindOf(b)).Err? ==> r.Err?
      ensures r.Ok? ==> operationCounter == old(operationCounter) + (if CreatesOperation(n) then 1 else 0)
      ensures r.Ok? ==> whenExtensionMode == (old(whenExtensionMode) || n.Extension?)
      ensures r.Ok? ==> forall o :: o in Objects(r.value) ==> o in old(Objects(b)) || fresh(o)
      ensures r.Ok? ==> r.value.IB? && r.value.ib.operationBuilder.tableBuilder == Ancestor(b, TableKind).tb
      ensures n.ImportDataFile? && r.Ok? ==> (n.parsed.Ok? && r.value.ib.tables == [n.parsed.value] &&
        r.value.ib.filePath == StripQuotes(Some(n.filePath)) && r.value.ib.fromFolders == [])
      ensures n.ImportDataFolder? && r.Ok? ==> (n.listing.Some? &&
        var f := FolderImport(StripQuotes(Some(n.folderPath)).value, n.listing.value, ExtensionName(n.extType));
        f.Ok? && r.value.ib.tables == f.value.0 && r.value.ib.filePath == f.value.1)
      ensures n.ImportDataFolders? && r.Ok? ==> (n.folders.Ok? && r.value.ib.tables == [] &&
        r.value.ib.fromFolders == FolderTables(StripQuotes(Some(n.foldersPath)).value, n.folders.value))
    {
      match n {
        case ImportDataFolder(path, t, listing) =>
          r, hangs := ImportDataFolderNode(path, t, listing, b);
          StepFromReached(n, b, r, hangs);
        case ImportDataFolders(path, folders) =>
          r, hangs := ImportDataFoldersNode(path, folders, b);
          StepFromReached(n, b, r, hangs);
        case ImportDataFile(path, parsed) =>
          r, hangs := ImportDataFileNode(path, parsed, b);
          StepFromReached(n, b, r, hangs);
      }
    }

    /** The other nodes that reset to the table builder and export nothing. */
    method ApplyAtTable(n: Node, b: Builder) returns (r: Result<Builder>, hangs: bool)
      requires n.CreateTable? || n.AddColumnGlobal?
      modifies this, Objects(b)
      ensures r.Ok? ==> Step(n, KindOf(b)) == Ok(KindOf(r.value))
      ensures hangs ==> r.Err? && Step(n, KindOf(b)) == Err(Diverges)
      ensures Step(n, KindOf(b)) == Err(Diverges) && Rank(KindOf(b)) < 2 ==> hangs
      ensures Step(n, KindOf(b)).Err? ==> r.Err?
      ensures r.Ok? ==> operationCounter == old(operationCounter) + (if CreatesOperation(n) then 1 else 0)
      ensures r.Ok? ==> whenExtensionMode == (old(whenExtensionMode) || n.Extension?)
      ensures r.Ok? ==> forall o :: o in Objects(r.value) ==> o in old(Objects(b)) || fresh(o)
    {
      match n {
        case CreateTable(name) =>
          r, hangs := CreateTableNode(name, b);
          StepFromReached(n, b, r, hangs);
        case AddColumnGlobal(name, typ, p) =>
          r, hangs := AddColumnGlobalNode(name, typ, p, b);
          StepFromReached(n, b, r, hangs);
      }
    }

    /** The nodes that reset to the import builder and stay there or open a select builder. */
    method ApplyAtImport(n: Node, b: Builder) returns (r: Result<Builder>, hangs: bool)
      requires n.Extension? || n.SelectionColumn? || n.SelectionTable?
      modifies this, Objects(b)
      ensures r.Ok? ==> Step(n, KindOf(b)) == Ok(KindOf(r.value))
      ensures hangs ==> r.Err? && Step(n, KindOf(b)) == Err(Diverges)
      ensures Step(n, KindOf(b)) == Err(Diverges) && Rank(KindOf(b)) < 2 ==> hangs
      ensures Step(n, KindOf(b)).Err? ==> r.Err?
      ensures r.Ok? ==> operationCounter == old(operationCounter)
      ensures r.Ok? ==> whenExtensionMode == (old(whenExtensionMode) || n.Extension?)
      ensures r.Ok? ==> forall o :: o in Objects(r.value) ==> o in old(Objects(b)) || fresh(o)
    {
      match n {
        case Extension(t) =>
          r, hangs := ExtensionNode(t, b);
          StepFromReached(n, b, r, hangs);
        case SelectionColumn(name, f) =>
          r, hangs := SelectionColumnNode(name, f, b);
          StepFromReached(n, b, r, hangs);
        case SelectionTable(name, f) =>
          r, hangs := SelectionTableNode(name, f, b);
          StepFromReached(n, b, r, hangs);
      }
    }

    /** The filter, which resets to the import builder, and the nested column, which resets
        to the select builder. */
    method ApplyOnSelection(n: Node, b: Builder) returns (r: Result<Builder>, hangs: bool)
      requires n.FilterNode? || n.AddColumnNested?
      modifies this, Objects(b)
      ensures r.Ok? ==> Step(n, KindOf(b)) == Ok(KindOf(r.value))
      ensures hangs ==> r.Err? && Step(n, KindOf(b)) == Err(Diverges)
      ensures Step(n, KindOf(b)) == Err(Diverges) && Rank(KindOf(b)) < 2 ==> hangs
      ensures Step(n, KindOf(b)).Err? ==> r.Err?
      ensures r.Ok? ==> operationCounter == old(operationCounter)
      ensures r.Ok? ==> whenExtensionMode == (old(whenExtensionMode) || n.Extension?)
      ensures r.Ok? ==> forall o :: o in Objects(r.value) ==> o in old(Objects(b)) || fresh(o)
    {
      match n {
        case AddColumnNested(name, typ, p) =>
          r, hangs := AddColumnNestedNode(name, typ, p, b);
          StepFromReached(n, b, r, hangs);
        case FilterNode(path, fn, columns, targetN) =>
          r, hangs := FilterNodeHandler(path, fn, columns, targetN, b);
          StepFromReached(n, b, r, hangs);
      }
    }

    /** The nodes that reset to the operation builder. */
    method ApplyAtOperation(n: Node, b: Builder) returns (r: Result<Builder>, hangs: bool)
      requires Target(n) == Some(OperationKind)
      modifies Objects(b)
      ensures r.Ok? ==> Step(n, KindOf(b)) == Ok(KindOf(r.value))
      ensures hangs ==> r.Err? && Step(n, KindOf(b)) == Err(Diverges)
      ensures Step(n, KindOf(b)) == Err(Diverges) && Rank(KindOf(b)) < 2 ==> hangs
      ensures Step(n, KindOf(b)).Err? ==> r.Err?
      ensures r.Ok? ==> Objects(r.value) <= old(Objects(b))
    {
      match n {
        case DefineSuffix(suffix, appliesTo) =>
          r, hangs := DefineSuffixNode(suffix, appliesTo, b);
          StepFromReached(n, b, r, hangs);
        case DefinePrefix(prefix, appliesTo) =>
          r, hangs := DefinePrefixNode(prefix, appliesTo, b);
          StepFromReached(n, b, r, hangs);
        case RowOperation(text) =>
          r, hangs := RowOperationNode(text, b);
          StepFromReached(n, b, r, hangs);
        case RemoveColumn(name) =>
          r, hangs := RemoveColumnNode(name, b);
          StepFromReached(n, b, r, hangs);
        case RenameColumn(oldName, newName) =>
          r, hangs := RenameColumnNode(oldName, newName, b);
          StepFromReached(n, b, r, hangs);
        case OperationAtRows(op, c1, c2, result) =>
          r, hangs := OperationAtRowsNode(op, c1, c2, result, b);
          StepFromReached(n, b, r, hangs);
      }
    }

    /** The nodes that change builders without exporting. */
    method ApplyChange(n: Node, b: Builder) returns (r: Result<Builder>, hangs: bool)
      requires !n.Model? && !n.Unrecognised? && !n.OutputTable?
      modifies this, Objects(b)
      ensures r.Ok? ==> Step(n, KindOf(b)) == Ok(KindOf(r.value))
      ensures hangs ==> r.Err? && Step(n, KindOf(b)) == Err(Diverges)
      ensures Step(n, KindOf(b)) == Err(Diverges) && Rank(KindOf(b)) < 2 ==> hangs
      ensures Step(n, KindOf(b)).Err? ==> r.Err?
      ensures r.Ok? ==> operationCounter == old(operationCounter) + (if CreatesOperation(n) then 1 else 0)
      ensures r.Ok? ==> whenExtensionMode == (old(whenExtensionMode) || n.Extension?)
      ensures r.Ok? ==> forall o :: o in Objects(r.value) ==> o in old(Objects(b)) || fresh(o)
    {
      if n.ImportDataFolder? || n.ImportDataFolders? || n.ImportDataFile? {
        r, hangs := ApplyImport(n, b);
      } else if Target(n) == Some(TableKind) {
        r, hangs := ApplyAtTable(n, b);
      } else if n.FilterNode? || n.AddColumnNested? {
        r, hangs := ApplyOnSelection(n, b);
      } else if Target(n) == Some(ImportKind) {
        r, hangs := ApplyAtImport(n, b);
      } else {
        r, hangs := ApplyAtOperation(n, b);
      }
    }

    /** The node that exports: the step it takes and the page it exports. */
    method ApplyOutput(n: Node, b: Builder, fmt: real -> string) returns (r: Result<Builder>, hangs: bool, out: seq<Exported>)
      requires n.OutputTable?
      modifies Objects(b)
      ensures Reached(b, TableKind, r, hangs, TableKind)
      ensures r.Ok? ==> Step(n, KindOf(b)) == Ok(KindOf(r.value))
      ensures hangs ==> r.Err? && Step(n, KindOf(b)) == Err(Diverges)
      ensures Step(n, KindOf(b)) == Err(Diverges) && Rank(KindOf(b)) < 2 ==> hangs
      ensures Step(n, KindOf(b)).Err? ==> r.Err?
      ensures operationCounter == old(operationCounter) && whenExtensionMode == old(whenExtensionMode)
      ensures r.Ok? ==> |out| == 1 && Objects(r.value) <= old(Objects(b))
      ensures r.Ok? ==> (r.value == Ancestor(b, TableKind) &&
        var a := Assembled(r.value.tb.table.Value(), StripQuotes(Some(n.outputPath)), fmt); a.Ok? && out == [a.value])
      ensures r.Err? ==> out == []
    {
      r, hangs, out := OutputTableNode(n.outputPath, b, fmt);
      OutputStep(n, b, r, hangs);
    }

    /** One node of the dispatch in `parse`, before its exception is wrapped. */
    method Apply(n: Node, b: Builder, fmt: real -> string) returns (r: Result<Builder>, hangs: bool, out: seq<Exported>)
      modifies this, Objects(b)
      ensures r.Ok? ==> Step(n, KindOf(b)) == Ok(KindOf(r.value))
      ensures hangs ==> r.Err? && Step(n, KindOf(b)) == Err(Diverges)
      ensures Step(n, KindOf(b)) == Err(Diverges) && Rank(KindOf(b)) < 2 ==> hangs
      ensures Step(n, KindOf(b)).Err? ==> r.Err?
      ensures n.Unrecognised? ==> r == Err(NotImplemented(n.description))
      ensures r.Ok? ==> operationCounter == old(operationCounter) + (if CreatesOperation(n) then 1 else 0)
      ensures r.Ok? ==> whenExtensionMode == (old(whenExtensionMode) || n.Extension?)
      ensures r.Ok? ==> |out| == (if n.OutputTable? then 1 else 0)
      ensures r.Ok? ==> forall o :: o in Objects(r.value) ==> o in old(Objects(b)) || fresh(o)
    {
      out := [];
      hangs := false;
      if n.Model? {
        r := Ok(b);
      } else if n.Unrecognised? {
        r := Err(NotImplemented(n.description));
      } else if n.OutputTable? {
        r, hangs, out := ApplyOutput(n, b, fmt);
      } else {
        r, hangs := ApplyChange(n, b);
      }
    }

    /** `parse`: the nodes run in order from a new table builder, and the first failure
        ends the script as a `DSLException` wrapping it (an unknown node's own exception
        is wrapped once more); a node that needs a deeper builder than the current one
        never finishes.  The result is what the script's outputs exported, in order. */
    method Parse(nodes: seq<Node>, fmt: real -> string) returns (r: Result<seq<Exported>>)
      modifies this
      ensures r.Err? ==> r.error == Diverges || r.error.DslError?
      ensures r.Ok? ==> Trace(nodes, TableKind).Ok?
      ensures r == Err(Diverges) ==> Trace(nodes, TableKind) == Err(Diverges)
      ensures Trace(nodes, TableKind).Err? ==> r.Err?
      ensures r.Ok? ==> |r.value| == OutputsIn(nodes)
      ensures r.Ok? ==> operationCounter == old(operationCounter) + OperationsIn(nodes)
      ensures r.Ok? ==> whenExtensionMode == (old(whenExtensionMode) || exists k :: 0 <= k < |nodes| && nodes[k].Extension?)
    {
      var shared := new BuilderName();
      var tb := new TableBuilder(shared);
      var b := TB(tb);
      var exported := [];
      var i := 0;
      while i < |nodes|
        invariant 0 <= i <= |nodes|
        invariant Trace(nodes[..i], TableKind) == Ok(KindOf(b))
        invariant |exported| == OutputsIn(nodes[..i])
        invariant operationCounter == old(operationCounter) + OperationsIn(nodes[..i])
        invariant whenExtensionMode == (old(whenExtensionMode) || ExtensionIn(nodes[..i]))
        invariant forall o :: o in Objects(b) ==> fresh(o)
      {
        assert nodes[..i + 1][..i] == nodes[..i];
        var step, hangs, out := Apply(nodes[i], b, fmt);
        if step.Err? {
          assert Trace(nodes[..i + 1], TableKind) == Step(nodes[i], KindOf(b));
          if hangs {
            TracePrefixErr(nodes, TableKind, i + 1);
            return Err(Diverges);
          }
          if Step(nodes[i], KindOf(b)).Err? {
            TracePrefixErr(nodes, TableKind, i + 1);
          }
          return Err(DslError(step.error));
        }
        b := step.value;
        exported := exported + out;
        i := i + 1;
      }
      assert nodes[..i] == nodes;
      ExtensionInExists(nodes);
      r := Ok(exported);
    }
  }
}
