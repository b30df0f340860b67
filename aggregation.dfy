/** The arithmetic of the operation step: pairwise column arithmetic and the `sum()` and
    `average()` summary rows.  Numbers are exact reals; rounding to two decimals is
    written out as Java's `Math.round(x * 100) / 100`. */
module Aggregation {
  import opened Wrappers
  import opened Tables
  import opened Utils
  import opened Folds

  // ---------------------------------------------------------------------------
  // Rounding to two decimals

  /** `Math.round(x * 100) / 100`: `Math.round` rounds half up. */
  function Round2(x: real): (r: real)
    ensures x - 0.005 < r <= x + 0.005
  {
    ((x * 100.0 + 0.5).Floor as real) / 100.0
  }

  /** A value already rounded to two decimals is left as it is. */
  lemma Round2Idempotent(x: real)
    ensures Round2(Round2(x)) == Round2(x)
  {
    var k := (x * 100.0 + 0.5).Floor;
    assert Round2(x) * 100.0 + 0.5 == k as real + 0.5;
    assert (k as real + 0.5).Floor == k;
  }

  /** Rounding keeps the order of its arguments. */
  lemma Round2Monotone(x: real, y: real)
    requires x <= y
    ensures Round2(x) <= Round2(y)
  {
    assert (x * 100.0 + 0.5).Floor <= (y * 100.0 + 0.5).Floor;
  }

  // ---------------------------------------------------------------------------
  // Pairwise column arithmetic

  /** The four lambdas passed to `operate` by `sum`, `sub`, `mul` and `div`. */
  datatype ArithOp = Plus | Minus | Times | Over

  /** What a lambda returns as a double: a number, or, for a division by zero, an
      infinity of the dividend's sign or NaN when the dividend is 0 too. */
  datatype Quantity = Finite(x: real) | PosInfinity | NegInfinity | NaN

  /** The operation on two numbers. */
  function Apply(op: ArithOp, a: real, b: real): Quantity
  {
    match op
    case Plus => Finite(a + b)
    case Minus => Finite(a - b)
    case Times => Finite(a * b)
    case Over =>
      if b != 0.0 then Finite(a / b)
      else if a > 0.0 then PosInfinity
      else if a < 0.0 then NegInfinity
      else NaN
  }

  /** `Long.MAX_VALUE` and `Long.MIN_VALUE`, where `Math.round` saturates. */
  const LongMax: int := 0x7fff_ffff_ffff_ffff
  const LongMin: int := -0x8000_0000_0000_0000

  /** `Math.round(v * 100.0) / 100.0` on the lambda's result: `Math.round` takes an
      infinity to the long of its sign and NaN to 0. */
  function Rounded(v: Quantity): real
  {
    match v
    case Finite(x) => Round2(x)
    case PosInfinity => LongMax as real / 100.0
    case NegInfinity => LongMin as real / 100.0
    case NaN => 0.0
  }

  /** A division by zero is not 0: a non-zero dividend gives the largest long, or the
      smallest, over 100, and only 0 / 0 gives 0. */
  lemma DivisionByZero(a: real)
    ensures Rounded(Apply(Over, a, 0.0)) ==
      if a > 0.0 then 92233720368547758.07 else if a < 0.0 then -92233720368547758.08 else 0.0
  {
  }

  predicate AllNumbers(rows: seq<Cell>)
  {
    forall k :: 0 <= k < |rows| ==> rows[k].Num?
  }

  /** The result rows of `operate`, one per pair of source rows. */
  function Combined(a: seq<Cell>, b: seq<Cell>, op: ArithOp): (r: seq<Cell>)
    requires |a| == |b| && AllNumbers(a) && AllNumbers(b)
    ensures |r| == |a|
    ensures forall k :: 0 <= k < |r| ==>
      (r[k].Num? &&
       (Apply(op, a[k].n, b[k].n).Finite? ==>
          Apply(op, a[k].n, b[k].n).x - 0.005 < r[k].n <= Apply(op, a[k].n, b[k].n).x + 0.005) &&
       (Apply(op, a[k].n, b[k].n).NaN? ==> r[k].n == 0.0) &&
       (Apply(op, a[k].n, b[k].n).PosInfinity? ==> r[k].n == LongMax as real / 100.0) &&
       (Apply(op, a[k].n, b[k].n).NegInfinity? ==> r[k].n == LongMin as real / 100.0))
  {
    if |a| == 0 then []
    else Combined(a[..|a| - 1], b[..|b| - 1], op) + [Num(Rounded(Apply(op, a[|a| - 1].n, b[|b| - 1].n)))]
  }

  lemma CombinedStep(a: seq<Cell>, b: seq<Cell>, op: ArithOp, i: nat)
    requires |a| == |b| && AllNumbers(a) && AllNumbers(b) && i < |a|
    ensures Combined(a[..i + 1], b[..i + 1], op) ==
      Combined(a[..i], b[..i], op) + [Num(Rounded(Apply(op, a[i].n, b[i].n)))]
  {
    assert a[..i + 1][..i] == a[..i];
    assert b[..i + 1][..i] == b[..i];
  }

  /** `operate(c1, c2, result, op)`: checks that both columns exist, have equal sizes and
      hold only numbers, then appends the column of rounded results. */
  function Operate(cols: seq<Column>, c1: string, c2: string, result: string, op: ArithOp): (r: Result<seq<Column>>)
    ensures r.Ok? ==> |r.value| == |cols| + 1 && r.value[..|cols|] == cols && r.value[|cols|].name == result
    ensures r.Err? ==> r.error.OperationError?
  {
    match FindColumn(cols, c1)
    case None => Err(OperationError("Column " + c1 + " doesn't exist"))
    case Some(i) =>
      match FindColumn(cols, c2)
      case None => Err(OperationError("Column " + c2 + " doesn't exist"))
      case Some(j) =>
        var a := cols[i].rows;
        var b := cols[j].rows;
        if |a| != |b| then Err(OperationError("Cannot operate on columns with different sizes"))
        else if !(AllNumbers(a) && AllNumbers(b)) then Err(OperationError("Cannot operate on columns with non-numbers"))
        else Ok(cols + [Column(result, Combined(a, b, op))])
  }

  /** `operate` succeeds exactly when both columns exist, have the same number of rows and
      hold only numbers; the new column then has one cell per source row, each the rounded
      result of the operation on the first columns of those names. */
  lemma OperateSucceeds(cols: seq<Column>, c1: string, c2: string, result: string, op: ArithOp)
    ensures var r := Operate(cols, c1, c2, result, op);
      r.Ok? <==> (FindColumn(cols, c1).Some? && FindColumn(cols, c2).Some? &&
        var a := cols[FindColumn(cols, c1).value].rows;
        var b := cols[FindColumn(cols, c2).value].rows;
        |a| == |b| && AllNumbers(a) && AllNumbers(b))
    ensures var r := Operate(cols, c1, c2, result, op);
      r.Ok? ==>
        var a := cols[FindColumn(cols, c1).value].rows;
        var b := cols[FindColumn(cols, c2).value].rows;
        var rows := r.value[|cols|].rows;
        |rows| == |a| &&
        forall k :: 0 <= k < |rows| ==> rows[k] == Num(Rounded(Apply(op, a[k].n, b[k].n)))
  {
    var r := Operate(cols, c1, c2, result, op);
    if r.Ok? {
      var a := cols[FindColumn(cols, c1).value].rows;
      var b := cols[FindColumn(cols, c2).value].rows;
      CombinedAt(a, b, op);
    }
  }

  lemma {:induction false} CombinedAt(a: seq<Cell>, b: seq<Cell>, op: ArithOp)
    requires |a| == |b| && AllNumbers(a) && AllNumbers(b)
    ensures forall k :: 0 <= k < |a| ==> Combined(a, b, op)[k] == Num(Rounded(Apply(op, a[k].n, b[k].n)))
  {
    if |a| > 0 {
      CombinedAt(a[..|a| - 1], b[..|b| - 1], op);
    }
  }

  /** The failures of `operate`, in the order the Java code checks them. */
  lemma OperateFailures(cols: seq<Column>, c1: string, c2: string, result: string, op: ArithOp)
    ensures FindColumn(cols, c1).None? ==>
      Operate(cols, c1, c2, result, op) == Err(OperationError("Column " + c1 + " doesn't exist"))
    ensures FindColumn(cols, c1).Some? && FindColumn(cols, c2).None? ==>
      Operate(cols, c1, c2, result, op) == Err(OperationError("Column " + c2 + " doesn't exist"))
    ensures (FindColumn(cols, c1).Some? && FindColumn(cols, c2).Some? &&
      |cols[FindColumn(cols, c1).value].rows| != |cols[FindColumn(cols, c2).value].rows|) ==>
      Operate(cols, c1, c2, result, op) == Err(OperationError("Cannot operate on columns with different sizes"))
  {
  }

  /** The loop of `operate` that fills the result rows. */
  method CombineRows(a: seq<Cell>, b: seq<Cell>, op: ArithOp) returns (rows: seq<Cell>)
    requires |a| == |b| && AllNumbers(a) && AllNumbers(b)
    ensures rows == Combined(a, b, op)
  {
    rows := [];
    var i := 0;
    while i < |a|
      invariant 0 <= i <= |a|
      invariant rows == Combined(a[..i], b[..i], op)
    {
      CombinedStep(a, b, op, i);
      rows := rows + [Num(Rounded(Apply(op, a[i].n, b[i].n)))];
      i := i + 1;
    }
    assert a[..i] == a && b[..i] == b;
  }

  // ---------------------------------------------------------------------------
  // Reading numbers from text

  function DigitValue(c: char): nat
    requires '0' <= c <= '9'
  {
    c as int - '0' as int
  }

  predicate AllDigits(s: string)
  {
    forall k :: 0 <= k < |s| ==> '0' <= s[k] <= '9'
  }

  function DigitsValue(s: string): nat
    requires AllDigits(s)
  {
    if |s| == 0 then 0 else 10 * DigitsValue(s[..|s| - 1]) + DigitValue(s[|s| - 1])
  }

  function Pow10(n: nat): (r: nat)
    ensures r >= 1
  {
    if n == 0 then 1 else 10 * Pow10(n - 1)
  }

  /** Digits with at most one point, and at least one digit. */
  function UnsignedDecimal(s: string): Option<real>
  {
    if '.' in s then
      var i := IndexOf(s, '.');
      var whole := s[..i];
      var fraction := s[i + 1..];
      if AllDigits(whole) && AllDigits(fraction) && |whole| + |fraction| > 0 then
        Some(DigitsValue(whole) as real + DigitsValue(fraction) as real / Pow10(|fraction|) as real)
      else None
    else if |s| > 0 && AllDigits(s) then Some(DigitsValue(s) as real)
    else None
  }

  /** `Double.parseDouble` on decimal text: surrounding blanks are trimmed, then an
      optional sign, digits and an optional fraction; anything else is a
      `NumberFormatException`, `None` here. */
  function ParseDecimal(s: string): (r: Option<real>)
    ensures r.Some? ==> |Trim(s)| > 0
  {
    var t := Trim(s);
    if |t| > 0 && (t[0] == '-' || t[0] == '+') then
      match UnsignedDecimal(t[1..])
      case None => None
      case Some(v) => Some(if t[0] == '-' then -v else v)
    else UnsignedDecimal(t)
  }

  lemma {:induction false} DigitsOfNat(n: nat)
    ensures AllDigits(NatToString(n)) && DigitsValue(NatToString(n)) == n
  {
    var s := NatToString(n);
    if n >= 10 {
      DigitsOfNat(n / 10);
      assert s[..|s| - 1] == NatToString(n / 10);
    }
  }

  lemma {:induction false} DigitsAreKept(s: string)
    requires AllDigits(s)
    ensures Trim(s) == s
  {
    if |s| > 0 {
      assert !IsTrimmed(s[0]) && !IsTrimmed(s[|s| - 1]);
    }
  }

  /** Text written by `NatToString` reads back as the same number. */
  lemma ParseNatToString(n: nat)
    ensures ParseDecimal(NatToString(n)) == Some(n as real)
  {
    var s := NatToString(n);
    DigitsOfNat(n);
    DigitsAreKept(s);
    assert '.' !in s;
  }

  /** A leading minus sign negates the value. */
  lemma ParseNegated(n: nat)
    ensures ParseDecimal("-" + NatToString(n)) == Some(-(n as real))
  {
    var s := NatToString(n);
    var t := "-" + s;
    DigitsOfNat(n);
    DigitsAreKept(s);
    assert Trim(t) == t by {
      assert !IsTrimmed(t[0]) && !IsTrimmed(t[|t| - 1]);
    }
    assert t[1..] == s;
    ParseNatToString(n);
  }

  // ---------------------------------------------------------------------------
  // The summary rows of `sum()` and `average()`

  datatype Summary = Total | Mean

  /** The sum of the cells, or a runtime failure at a cell that is not a number (a failed
      cast, or `doubleValue()` on `null`). */
  function NumberTotal(rows: seq<Cell>): (r: Result<real>)
    ensures r.Ok? <==> AllNumbers(rows)
    ensures r.Err? ==> r.error == RuntimeFailure
  {
    if |rows| == 0 then Ok(0.0)
    else match NumberTotal(rows[..|rows| - 1])
      case Err(e) => Err(e)
      case Ok(t) =>
        if rows[|rows| - 1].Num? then Ok(t + rows[|rows| - 1].n) else Err(RuntimeFailure)
  }

  /** The string branch: every cell is cast to a string and parsed, in row order.  The
      first text that is not a number stops the loop (`Ok(None)`, the "N/A" row); a cell
      that is not a string fails the cast, and `null` fails inside `parseDouble`. */
  function TextTotal(rows: seq<Cell>): (r: Result<Option<real>>)
    ensures r.Err? ==> r.error == RuntimeFailure
  {
    if |rows| == 0 then Ok(Some(0.0))
    else match TextTotal(rows[..|rows| - 1])
      case Err(e) => Err(e)
      case Ok(None) => Ok(None)
      case Ok(Some(t)) =>
        var last := rows[|rows| - 1];
        if !last.Str? then Err(RuntimeFailure)
        else match ParseDecimal(last.s)
          case None => Ok(None)
          case Some(v) => Ok(Some(t + v))
  }

  /** The value appended: the rounded total, or the rounded mean of `count` rows.  A mean
      over no rows is NaN in Java, and `Math.round(NaN)` is 0. */
  function Finish(total: real, count: int, kind: Summary): real
  {
    match kind
    case Total => Round2(total)
    case Mean => if count <= 0 then 0.0 else Round2(total / count as real)
  }

  /** The rows a summary reads: all but the `added` synthetic rows at the end. */
  function DataRows(rows: seq<Cell>, added: nat): (r: seq<Cell>)
    ensures |r| == if |rows| >= added then |rows| - added else 0
    ensures r == rows[..|r|]
  {
    if |rows| >= added then rows[..|rows| - added] else []
  }

  /** The cell `sum()` or `average()` appends to one column.  The first cell decides: a
      number sums the data rows; a string, outside the column named "Folder", parses
      them; anything else, and a text that does not parse, gives "N/A".  An empty column
      fails at `getFirst`. */
  function SummaryCell(c: Column, added: nat, kind: Summary): (r: Result<Cell>)
    ensures r.Err? ==> r.error == RuntimeFailure
    ensures r.Err? ==> |c.rows| == 0 || (!AllNumbers(DataRows(c.rows, added)) && (c.rows[0].Num? || c.rows[0].Str?))
    ensures r.Ok? ==> r.value.Num? || r.value == Str("N/A")
  {
    if |c.rows| == 0 then Err(RuntimeFailure)
    else
      var data := DataRows(c.rows, added);
      var count := |c.rows| - added;
      if c.rows[0].Num? then
        match NumberTotal(data)
        case Err(e) => Err(e)
        case Ok(t) => Ok(Num(Finish(t, count, kind)))
      else if c.rows[0].Str? && c.name != "Folder" then
        match TextTotal(data)
        case Err(e) => Err(e)
        case Ok(None) => Ok(Str("N/A"))
        case Ok(Some(t)) => Ok(Num(Finish(t, count, kind)))
      else Ok(Str("N/A"))
  }

  /** The column with its summary cell appended. */
  function Summarised(c: Column, added: nat, kind: Summary): (r: Result<Column>)
    ensures r.Ok? ==> r.value.name == c.name && |r.value.rows| == |c.rows| + 1 && r.value.rows[..|c.rows|] == c.rows
  {
    match SummaryCell(c, added, kind)
    case Err(e) => Err(e)
    case Ok(v) => Ok(Column(c.name, c.rows + [v]))
  }

  /** `sum()` and `average()` on a whole table: every column, in order. */
  function Summaries(cols: seq<Column>, added: nat, kind: Summary): (r: Result<seq<Column>>)
  {
    MapResult(cols, c => Summarised(c, added, kind))
  }

  /** What a summary walk that fails part way leaves: the first `k` columns summarised and
      the rest as they were. */
  predicate PartlySummarised(cols: seq<Column>, now: seq<Column>, added: nat, kind: Summary)
  {
    exists k :: 0 <= k < |cols| && Summaries(cols[..k], added, kind).Ok? &&
      now == Summaries(cols[..k], added, kind).value + cols[k..]
  }

  /** A summary appends exactly one trailing cell to every column and changes nothing else;
      it fails only at an empty column or a column whose data rows do not match its first
      cell's kind. */
  lemma SummariesShape(cols: seq<Column>, added: nat, kind: Summary)
    ensures var r := Summaries(cols, added, kind);
      r.Ok? ==> (|r.value| == |cols| &&
        forall k :: 0 <= k < |cols| ==>
          r.value[k].name == cols[k].name && r.value[k].rows == cols[k].rows + [SummaryCell(cols[k], added, kind).value])
    ensures Summaries(cols, added, kind).Err? <==> exists k :: 0 <= k < |cols| && SummaryCell(cols[k], added, kind).Err?
  {
    var f := c => Summarised(c, added, kind);
    var r := Summaries(cols, added, kind);
    if r.Ok? {
      forall k | 0 <= k < |cols|
        ensures SummaryCell(cols[k], added, kind).Ok?
        ensures r.value[k].name == cols[k].name && r.value[k].rows == cols[k].rows + [SummaryCell(cols[k], added, kind).value]
      {
        assert f(cols[k]) == Ok(r.value[k]);
      }
    } else {
      var k :| 0 <= k < |cols| && f(cols[k]) == Err(r.error);
      assert SummaryCell(cols[k], added, kind).Err?;
    }
  }

  /** One step of the in-place walk, the first `i` columns summarised into `done`: a
      failing cell leaves the list partly summarised and fails the whole summary, a good
      one summarises one column more. */
  lemma SummariesAdvance(cols: seq<Column>, added: nat, kind: Summary, i: nat, done: seq<Column>)
    requires i < |cols| && Summaries(cols[..i], added, kind) == Ok(done)
    ensures SummaryCell(cols[i], added, kind).Err? ==>
      Summaries(cols, added, kind) == Err(SummaryCell(cols[i], added, kind).error) && PartlySummarised(cols, done + cols[i..], added, kind)
    ensures SummaryCell(cols[i], added, kind).Ok? ==>
      var next := Column(cols[i].name, cols[i].rows + [SummaryCell(cols[i], added, kind).value]);
      Summaries(cols[..i + 1], added, kind) == Ok(done + [next]) &&
      (done + cols[i..])[i := next] == (done + [next]) + cols[i + 1..]
  {
    MapResultStep(cols, c => Summarised(c, added, kind), i);
    var cell := SummaryCell(cols[i], added, kind);
    if cell.Err? {
      MapResultPrefixErr(cols, c => Summarised(c, added, kind), i + 1);
    } else {
      var next := Column(cols[i].name, cols[i].rows + [cell.value]);
      assert |done| == i;
      assert (done + cols[i..])[i := next] == (done + [next]) + cols[i + 1..];
    }
  }

  /** A later summary reads the same data as an earlier one: with the synthetic row of the
      earlier summary appended and the counter raised by one, the cell is unchanged. */
  lemma SummaryIgnoresSyntheticRow(c: Column, added: nat, kind: Summary, synthetic: Cell)
    requires |c.rows| > 0
    ensures SummaryCell(Column(c.name, c.rows + [synthetic]), added + 1, kind) == SummaryCell(c, added, kind)
  {
    var rows := c.rows + [synthetic];
    assert rows[0] == c.rows[0];
    assert DataRows(rows, added + 1) == DataRows(c.rows, added);
  }

  /** A summary never reads the synthetic rows of the earlier ones: what they hold does
      not matter. */
  lemma SummaryIgnoresSyntheticRows(c: Column, added: nat, kind: Summary, extra: seq<Cell>)
    requires |c.rows| > 0
    ensures SummaryCell(Column(c.name, c.rows + extra), added + |extra|, kind) == SummaryCell(c, added, kind)
  {
    var rows := c.rows + extra;
    assert rows[0] == c.rows[0];
    assert DataRows(rows, added + |extra|) == DataRows(c.rows, added);
  }

  /** The column named "Folder" never gets a number, and neither does a column whose first
      cell is neither a number nor a string. */
  lemma SummaryOfLabels(c: Column, added: nat, kind: Summary)
    requires |c.rows| > 0
    requires (c.rows[0].Str? && c.name == "Folder") || !(c.rows[0].Num? || c.rows[0].Str?)
    ensures SummaryCell(c, added, kind) == Ok(Str("N/A"))
  {
  }

  lemma {:induction false} NumberTotalConstant(rows: seq<Cell>, v: real)
    requires forall k :: 0 <= k < |rows| ==> rows[k] == Num(v)
    ensures NumberTotal(rows).Ok? && NumberTotal(rows).value == |rows| as real * v
  {
    if |rows| > 0 {
      var front := rows[..|rows| - 1];
      NumberTotalConstant(front, v);
      var t := NumberTotal(front).value;
      assert NumberTotal(rows).value == t + v;
      MulSucc(|front|, v);
    }
  }

  lemma MulSucc(n: nat, v: real)
    ensures n as real * v + v == (n + 1) as real * v
  {
  }

  /** The average of a column of one repeated number, with no synthetic rows, is that
      number rounded; its sum is the number times the row count, rounded. */
  lemma SummaryOfConstantColumn(name: string, rows: seq<Cell>, v: real)
    requires |rows| > 0 && forall k :: 0 <= k < |rows| ==> rows[k] == Num(v)
    ensures SummaryCell(Column(name, rows), 0, Mean) == Ok(Num(Round2(v)))
    ensures SummaryCell(Column(name, rows), 0, Total) == Ok(Num(Round2(|rows| as real * v)))
  {
    assert DataRows(rows, 0) == rows;
    NumberTotalConstant(rows, v);
    assert (|rows| as real * v) / |rows| as real == v;
  }

  /** Totals add up over consecutive runs of rows. */
  lemma {:induction false} NumberTotalAppend(a: seq<Cell>, b: seq<Cell>)
    requires AllNumbers(a) && AllNumbers(b)
    ensures NumberTotal(a + b) == Ok(NumberTotal(a).value + NumberTotal(b).value)
    decreases |b|
  {
    if |b| == 0 {
      assert a + b == a;
    } else {
      var c := a + b;
      assert c[..|c| - 1] == a + b[..|b| - 1];
      NumberTotalAppend(a, b[..|b| - 1]);
    }
  }

  /** The inner loop of `sum()` and `average()` on the number branch. */
  method SumNumbers(rows: seq<Cell>, count: int) returns (r: Result<real>)
    requires count <= |rows|
    ensures r == NumberTotal(if count <= 0 then [] else rows[..count])
  {
    var total := 0.0;
    var i := 0;
    while i < count
      invariant 0 <= i <= if count <= 0 then 0 else count
      invariant NumberTotal(rows[..i]) == Ok(total)
    {
      assert rows[..i + 1][..i] == rows[..i];
      if !rows[i].Num? {
        NumberTotalErrs(rows[..i + 1], rows[..count]);
        return Err(RuntimeFailure);
      }
      total := total + rows[i].n;
      i := i + 1;
    }
    if count > 0 {
      assert rows[..i] == rows[..count];
    }
    return Ok(total);
  }

  lemma NumberTotalErrs(prefix: seq<Cell>, rows: seq<Cell>)
    requires prefix <= rows && NumberTotal(prefix).Err?
    ensures NumberTotal(rows).Err?
  {
    var k :| 0 <= k < |prefix| && !prefix[k].Num?;
    assert rows[k] == prefix[k];
  }

  /** The inner loop of the string branch, with its `NumberFormatException` handler. */
  method SumTexts(rows: seq<Cell>, count: int) returns (r: Result<Option<real>>)
    requires count <= |rows|
    ensures r == TextTotal(if count <= 0 then [] else rows[..count])
  {
    var total := 0.0;
    var i := 0;
    var data := if count <= 0 then [] else rows[..count];
    while i < |data|
      invariant 0 <= i <= |data|
      invariant TextTotal(data[..i]) == Ok(Some(total))
    {
      assert data[..i + 1][..i] == data[..i];
      var cell := data[i];
      if !cell.Str? {
        TextTotalPrefixErr(data, i + 1);
        return Err(RuntimeFailure);
      }
      var v := ParseDecimal(cell.s);
      if v.None? {
        TextTotalPrefixStop(data, i + 1);
        return Ok(None);
      }
      total := total + v.value;
      i := i + 1;
    }
    assert data[..i] == data;
    return Ok(Some(total));
  }

  lemma {:induction false} TextTotalPrefixErr(rows: seq<Cell>, i: nat)
    requires i <= |rows| && TextTotal(rows[..i]).Err?
    ensures TextTotal(rows) == TextTotal(rows[..i])
    decreases |rows| - i
  {
    if i < |rows| {
      assert rows[..i + 1][..i] == rows[..i];
      TextTotalPrefixErr(rows, i + 1);
    } else {
      assert rows[..i] == rows;
    }
  }

  lemma {:induction false} TextTotalPrefixStop(rows: seq<Cell>, i: nat)
    requires i <= |rows| && TextTotal(rows[..i]) == Ok(None)
    ensures TextTotal(rows) == Ok(None)
    decreases |rows| - i
  {
    if i < |rows| {
      assert rows[..i + 1][..i] == rows[..i];
      TextTotalPrefixStop(rows, i + 1);
    } else {
      assert rows[..i] == rows;
    }
  }

  /** The body of the outer loop of `sum()` and `average()` for one column. */
  method ColumnSummary(c: Column, added: nat, kind: Summary) returns (r: Result<Cell>)
    ensures r == SummaryCell(c, added, kind)
  {
    if |c.rows| == 0 {
      return Err(RuntimeFailure);
    }
    var count := |c.rows| - added;
    assert DataRows(c.rows, added) == if count <= 0 then [] else c.rows[..count];
    if c.rows[0].Num? {
      var t := SumNumbers(c.rows, count);
      if t.Err? {
        return Err(t.error);
      }
      return Ok(Num(Finish(t.value, count, kind)));
    } else if c.rows[0].Str? && c.name != "Folder" {
      var t := SumTexts(c.rows, count);
      if t.Err? {
        return Err(t.error);
      }
      if t.value.None? {
        return Ok(Str("N/A"));
      }
      return Ok(Num(Finish(t.value.value, count, kind)));
    }
    return Ok(Str("N/A"));
  }
}
