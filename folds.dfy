/** Loops of the engine that walk a list and stop at the first exception, collecting what
    each element contributes. */
module Folds {
  import opened Wrappers

  /** Each element's contribution, concatenated in order; the first failing element's
      error is the result. */
  function ConcatMap<T, U>(xs: seq<T>, f: T -> Result<seq<U>>): (r: Result<seq<U>>)
    ensures r.Ok? ==> forall k :: 0 <= k < |xs| ==> f(xs[k]).Ok?
  {
    if |xs| == 0 then Ok([])
    else match ConcatMap(xs[..|xs| - 1], f)
      case Err(e) => Err(e)
      case Ok(acc) =>
        match f(xs[|xs| - 1])
        case Err(e) => Err(e)
        case Ok(s) => Ok(acc + s)
  }

  /** One more element extends the result by its own contribution. */
  lemma ConcatMapStep<T, U>(xs: seq<T>, f: T -> Result<seq<U>>, i: nat)
    requires i < |xs|
    ensures ConcatMap(xs[..i + 1], f) ==
      match ConcatMap(xs[..i], f)
      case Err(e) => Err(e)
      case Ok(acc) => (match f(xs[i]) case Err(e) => Err(e) case Ok(s) => Ok(acc + s))
  {
    assert xs[..i + 1][..i] == xs[..i];
  }

  /** The first failure is final: a failing prefix makes the whole walk fail the same way. */
  lemma {:induction false} ConcatMapPrefixErr<T, U>(xs: seq<T>, f: T -> Result<seq<U>>, i: nat)
    requires i <= |xs| && ConcatMap(xs[..i], f).Err?
    ensures ConcatMap(xs, f) == ConcatMap(xs[..i], f)
    decreases |xs| - i
  {
    if i < |xs| {
      ConcatMapStep(xs, f, i);
      ConcatMapPrefixErr(xs, f, i + 1);
    } else {
      assert xs[..i] == xs;
    }
  }

  /** Walks that succeed compose over concatenation. */
  lemma {:induction false} ConcatMapAppend<T, U>(a: seq<T>, b: seq<T>, f: T -> Result<seq<U>>)
    requires ConcatMap(a, f).Ok? && ConcatMap(b, f).Ok?
    ensures ConcatMap(a + b, f) == Ok(ConcatMap(a, f).value + ConcatMap(b, f).value)
    decreases |b|
  {
    if |b| == 0 {
      assert a + b == a;
      assert ConcatMap(b, f) == Ok([]);
      assert ConcatMap(a, f).value + [] == ConcatMap(a, f).value;
    } else {
      var c := a + b;
      assert c[..|c| - 1] == a + b[..|b| - 1];
      assert c[|c| - 1] == b[|b| - 1];
      ConcatMapAppend(a, b[..|b| - 1], f);
      var s := f(b[|b| - 1]).value;
      var A := ConcatMap(a, f).value;
      var B := ConcatMap(b[..|b| - 1], f).value;
      assert ConcatMap(b, f).value == B + s;
      assert ConcatMap(c, f) == Ok((A + B) + s);
      assert (A + B) + s == A + (B + s);
    }
  }

  /** Every collected element comes from some element's contribution. */
  lemma {:induction false} ConcatMapMember<T, U>(xs: seq<T>, f: T -> Result<seq<U>>, k: nat) returns (j: nat)
    requires ConcatMap(xs, f).Ok? && k < |ConcatMap(xs, f).value|
    ensures j < |xs| && f(xs[j]).Ok? && ConcatMap(xs, f).value[k] in f(xs[j]).value
  {
    var front := xs[..|xs| - 1];
    var acc := ConcatMap(front, f).value;
    var s := f(xs[|xs| - 1]).value;
    if k < |acc| {
      j := ConcatMapMember(front, f, k);
      assert front[j] == xs[j];
    } else {
      j := |xs| - 1;
      assert ConcatMap(xs, f).value[k] == s[k - |acc|];
    }
  }

  /** When every element contributes exactly one item, the walk maps element to item. */
  lemma {:induction false} ConcatMapSingletons<T, U>(xs: seq<T>, f: T -> Result<seq<U>>)
    requires ConcatMap(xs, f).Ok?
    requires forall k :: 0 <= k < |xs| ==> |f(xs[k]).value| == 1
    ensures |ConcatMap(xs, f).value| == |xs|
    ensures forall k :: 0 <= k < |xs| ==> ConcatMap(xs, f).value[k] == f(xs[k]).value[0]
  {
    if |xs| > 0 {
      var front := xs[..|xs| - 1];
      assert forall k :: 0 <= k < |front| ==> front[k] == xs[k];
      ConcatMapSingletons(front, f);
    }
  }

  /** When every element contributes itself, the walk is the identity. */
  lemma {:induction false} ConcatMapUnits<T>(xs: seq<T>, f: T -> Result<seq<T>>)
    requires forall k :: 0 <= k < |xs| ==> f(xs[k]) == Ok([xs[k]])
    ensures ConcatMap(xs, f) == Ok(xs)
  {
    if |xs| > 0 {
      var front := xs[..|xs| - 1];
      var last := xs[|xs| - 1];
      forall k | 0 <= k < |front|
        ensures f(front[k]) == Ok([front[k]])
      {
        assert front[k] == xs[k];
      }
      ConcatMapUnits(front, f);
      assert f(last) == Ok([last]);
      assert front + [last] == xs;
    }
  }

  /** Each element's single result, in order; the first failure is the result. */
  function MapResult<T, U>(xs: seq<T>, f: T -> Result<U>): (r: Result<seq<U>>)
    ensures r.Ok? ==> |r.value| == |xs| && forall k :: 0 <= k < |xs| ==> f(xs[k]) == Ok(r.value[k])
    ensures r.Err? ==> exists k :: 0 <= k < |xs| && f(xs[k]) == Err(r.error)
  {
    if |xs| == 0 then Ok([])
    else match MapResult(xs[..|xs| - 1], f)
      case Err(e) => Err(e)
      case Ok(acc) =>
        match f(xs[|xs| - 1])
        case Err(e) => Err(e)
        case Ok(v) => Ok(acc + [v])
  }

  lemma MapResultStep<T, U>(xs: seq<T>, f: T -> Result<U>, i: nat)
    requires i < |xs|
    ensures MapResult(xs[..i + 1], f) ==
      match MapResult(xs[..i], f)
      case Err(e) => Err(e)
      case Ok(acc) => (match f(xs[i]) case Err(e) => Err(e) case Ok(v) => Ok(acc + [v]))
  {
    assert xs[..i + 1][..i] == xs[..i];
  }

  lemma {:induction false} MapResultPrefixErr<T, U>(xs: seq<T>, f: T -> Result<U>, i: nat)
    requires i <= |xs| && MapResult(xs[..i], f).Err?
    ensures MapResult(xs, f) == MapResult(xs[..i], f)
    decreases |xs| - i
  {
    if i < |xs| {
      MapResultStep(xs, f, i);
      MapResultPrefixErr(xs, f, i + 1);
    } else {
      assert xs[..i] == xs;
    }
  }

  /** A walk in which no element fails succeeds. */
  lemma {:induction false} MapResultAllOk<T, U>(xs: seq<T>, f: T -> Result<U>)
    requires forall k :: 0 <= k < |xs| ==> f(xs[k]).Ok?
    ensures MapResult(xs, f).Ok?
  {
    if |xs| > 0 {
      var front := xs[..|xs| - 1];
      assert forall k :: 0 <= k < |front| ==> front[k] == xs[k];
      MapResultAllOk(front, f);
    }
  }

  /** The elements satisfying `p`, in order. */
  function Filter<T>(xs: seq<T>, p: T -> bool): (r: seq<T>)
    ensures |r| <= |xs|
    ensures forall k :: 0 <= k < |r| ==> r[k] in xs && p(r[k])
    ensures forall k :: 0 <= k < |xs| && p(xs[k]) ==> xs[k] in r
  {
    if |xs| == 0 then []
    else Filter(xs[..|xs| - 1], p) + (if p(xs[|xs| - 1]) then [xs[|xs| - 1]] else [])
  }

  lemma FilterStep<T>(xs: seq<T>, p: T -> bool, i: nat)
    requires i < |xs|
    ensures Filter(xs[..i + 1], p) == Filter(xs[..i], p) + (if p(xs[i]) then [xs[i]] else [])
  {
    assert xs[..i + 1][..i] == xs[..i];
  }

  /** Filtering keeps the relative order: it distributes over concatenation. */
  lemma {:induction false} FilterAppend<T>(a: seq<T>, b: seq<T>, p: T -> bool)
    ensures Filter(a + b, p) == Filter(a, p) + Filter(b, p)
    decreases |b|
  {
    if |b| == 0 {
      assert a + b == a;
    } else {
      var c := a + b;
      assert c[..|c| - 1] == a + b[..|b| - 1];
      assert c[|c| - 1] == b[|b| - 1];
      FilterAppend(a, b[..|b| - 1], p);
    }
  }

  /** A test no element passes leaves nothing. */
  lemma {:induction false} FilterNone<T>(xs: seq<T>, p: T -> bool)
    requires forall k :: 0 <= k < |xs| ==> !p(xs[k])
    ensures Filter(xs, p) == []
  {
    if |xs| > 0 {
      FilterNone(xs[..|xs| - 1], p);
    }
  }

  /** A test every element passes keeps everything. */
  lemma {:induction false} FilterAll<T>(xs: seq<T>, p: T -> bool)
    requires forall k :: 0 <= k < |xs| ==> p(xs[k])
    ensures Filter(xs, p) == xs
  {
    if |xs| > 0 {
      FilterAll(xs[..|xs| - 1], p);
      assert xs[..|xs| - 1] + [xs[|xs| - 1]] == xs;
    }
  }
}
