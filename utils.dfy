/** The static string and path helpers of the engine (`Utils`): extension handling,
    slash-path splitting, folder-name extraction, quote stripping and the sanitising of
    bracketed, comma-separated lists.  Java's `null` string is `None`. */
module Utils {
  import opened Wrappers

  // ---------------------------------------------------------------------------
  // Character classes and small sequence helpers

  predicate IsQuote(c: char) { c == '\'' || c == '"' }

  /** The characters Java's regular-expression class `\s` matches. */
  predicate IsRegexSpace(c: char)
  {
    c == ' ' || c == '\t' || c == '\n' || c == 11 as char || c == 12 as char || c == '\r'
  }

  /** `String.trim()` removes every leading and trailing character up to U+0020. */
  predicate IsTrimmed(c: char) { c as int <= 32 }

  function LowerChar(c: char): char
  {
    if 'A' <= c <= 'Z' then (c as int + 32) as char else c
  }

  function UpperChar(c: char): char
  {
    if 'a' <= c <= 'z' then (c as int - 32) as char else c
  }

  /** `toLowerCase()` on the ASCII letters. */
  function ToLower(s: string): (r: string)
    ensures |r| == |s|
    ensures forall i :: 0 <= i < |r| ==> !('A' <= r[i] <= 'Z')
  {
    seq(|s|, i requires 0 <= i < |s| => LowerChar(s[i]))
  }

  /** `toUpperCase()` on the ASCII letters. */
  function ToUpper(s: string): (r: string)
    ensures |r| == |s|
    ensures forall i :: 0 <= i < |r| ==> !('a' <= r[i] <= 'z')
  {
    seq(|s|, i requires 0 <= i < |s| => UpperChar(s[i]))
  }

  /** `s.lastIndexOf(c)`: the position of the last `c`, or -1. */
  function LastIndexOf(s: string, c: char): (i: int)
    ensures -1 <= i < |s|
    ensures i == -1 <==> c !in s
    ensures i >= 0 ==> s[i] == c && c !in s[i + 1..]
  {
    if |s| == 0 then -1
    else if s[|s| - 1] == c then |s| - 1
    else
      var k := LastIndexOf(s[..|s| - 1], c);
      assert s[..|s| - 1][k + 1..] + [s[|s| - 1]] == s[k + 1..];
      k
  }

  function DigitChar(d: nat): char
    requires d < 10
  {
    ('0' as int + d) as char
  }

  /** The decimal text of a natural number, as string concatenation writes an int. */
  function NatToString(n: nat): (s: string)
    ensures |s| >= 1
    ensures n >= 10 ==> |s| >= 2
    ensures forall k :: 0 <= k < |s| ==> '0' <= s[k] <= '9'
  {
    if n < 10 then [DigitChar(n)] else NatToString(n / 10) + [DigitChar(n % 10)]
  }

  /** Different numbers have different decimal texts. */
  lemma {:induction false} NatToStringInjective(a: nat, b: nat)
    requires NatToString(a) == NatToString(b)
    ensures a == b
  {
    var sa, sb := NatToString(a), NatToString(b);
    if a >= 10 && b >= 10 {
      assert sa[|sa| - 1] == sb[|sb| - 1];
      assert a % 10 == b % 10;
      assert sa[..|sa| - 1] == NatToString(a / 10);
      assert sb[..|sb| - 1] == NatToString(b / 10);
      NatToStringInjective(a / 10, b / 10);
    }
  }

  /** `String.join(sep, parts)`. */
  function Join(parts: seq<string>, sep: string): string
  {
    if |parts| == 0 then ""
    else if |parts| == 1 then parts[0]
    else parts[0] + sep + Join(parts[1..], sep)
  }

  /** Splitting at every occurrence of `c`, keeping empty pieces. */
  function Split(s: string, c: char): (r: seq<string>)
    ensures |r| >= 1
  {
    if |s| == 0 then [""]
    else
      var rest := Split(s[1..], c);
      if s[0] == c then [""] + rest else [[s[0]] + rest[0]] + rest[1..]
  }

  lemma {:induction false} SplitJoin(s: string, c: char)
    ensures Join(Split(s, c), [c]) == s
    ensures forall k :: 0 <= k < |Split(s, c)| ==> c !in Split(s, c)[k]
  {
    if |s| > 0 {
      var rest := Split(s[1..], c);
      SplitJoin(s[1..], c);
      if s[0] != c {
        var r := [[s[0]] + rest[0]] + rest[1..];
        assert r[1..] == rest[1..];
        if |rest| == 1 {
          assert Join(r, [c]) == [s[0]] + rest[0];
        } else {
          assert Join(rest, [c]) == rest[0] + [c] + Join(rest[1..], [c]);
          assert Join(r, [c]) == [s[0]] + rest[0] + [c] + Join(rest[1..], [c]);
        }
      }
    }
  }

  /** Splitting on a separator character undoes joining with it, when no part contains
      that character. */
  lemma {:induction false} JoinSplit(parts: seq<string>, c: char)
    requires |parts| >= 1
    requires forall k :: 0 <= k < |parts| ==> c !in parts[k]
    ensures Split(Join(parts, [c]), c) == parts
  {
    if |parts| == 1 {
      SplitPlain(parts[0], c);
    } else {
      JoinSplit(parts[1..], c);
      SplitAtSeparator(parts[0], Join(parts[1..], [c]), c);
      assert [parts[0]] + parts[1..] == parts;
    }
  }

  lemma {:induction false} SplitPlain(p: string, c: char)
    requires c !in p
    ensures Split(p, c) == [p]
  {
    if |p| > 0 {
      SplitPlain(p[1..], c);
      assert [p[0]] + p[1..] == p;
    }
  }

  lemma {:induction false} SplitAtSeparator(p: string, rest: string, c: char)
    requires c !in p
    ensures Split(p + [c] + rest, c) == [p] + Split(rest, c)
  {
    var s := p + [c] + rest;
    if |p| == 0 {
      assert s[1..] == rest;
    } else {
      assert s[1..] == p[1..] + [c] + rest;
      SplitAtSeparator(p[1..], rest, c);
      assert [p[0]] + p[1..] == p;
    }
  }

  /** Appending one more part to a non-empty join adds the separator and the part. */
  lemma {:induction false} JoinSnoc(parts: seq<string>, p: string, sep: string)
    requires |parts| >= 1
    ensures Join(parts + [p], sep) == Join(parts, sep) + sep + p
  {
    var ps := parts + [p];
    if |parts| > 1 {
      assert ps[1..] == parts[1..] + [p];
      JoinSnoc(parts[1..], p, sep);
    }
  }

  /** The parts, each followed by `sep`: what a `StringBuilder` holds after a loop that
      appends a part and then a separator. */
  function Terminated(parts: seq<string>, sep: string): string
  {
    if |parts| == 0 then "" else Terminated(parts[..|parts| - 1], sep) + parts[|parts| - 1] + sep
  }

  /** Cutting the last separator from a non-empty terminated sequence leaves the join:
      why `setLength(length() - 1)` after such a loop yields `String.join`. */
  lemma {:induction false} TerminatedJoin(parts: seq<string>, sep: string)
    ensures |parts| >= 1 ==> Terminated(parts, sep) == Join(parts, sep) + sep
  {
    if |parts| >= 1 {
      var init := parts[..|parts| - 1];
      TerminatedJoin(init, sep);
      if |init| >= 1 {
        JoinSnoc(init, parts[|parts| - 1], sep);
        assert init + [parts[|parts| - 1]] == parts;
      }
    }
  }

  /** The pieces written one after the other. */
  function Concat(pieces: seq<string>): (r: string)
  {
    if |pieces| == 0 then "" else Concat(pieces[..|pieces| - 1]) + pieces[|pieces| - 1]
  }

  lemma ConcatSnoc(pieces: seq<string>, p: string)
    ensures Concat(pieces + [p]) == Concat(pieces) + p
  {
    assert (pieces + [p])[..|pieces|] == pieces;
  }

  // ---------------------------------------------------------------------------
  // Extensions and file names

  /** `getExtension`: `null` for a null or dot-free name, otherwise the lower-cased text
      after the last dot. */
  function GetExtension(fileName: Option<string>): (r: Option<string>)
    ensures r.None? <==> (fileName.None? || '.' !in fileName.value)
    ensures r.Some? ==> '.' !in r.value
  {
    if fileName.None? || '.' !in fileName.value then None
    else Some(ToLower(fileName.value[LastIndexOf(fileName.value, '.') + 1..]))
  }

  /** `removeExtension`: the text before the last dot, or the path itself. */
  function RemoveExtension(filePath: Option<string>): (r: Option<string>)
    ensures r.None? <==> filePath.None?
  {
    if filePath.None? || '.' !in filePath.value then filePath
    else Some(filePath.value[..LastIndexOf(filePath.value, '.')])
  }

  /** The text after the last dot, before lower-casing. */
  function RawExtension(p: string): string
  {
    p[LastIndexOf(p, '.') + 1..]
  }

  /** Removing the extension and lower-casing the suffix split a dotted name at its last
      dot: the prefix, a dot and the original suffix give the name back. */
  lemma ExtensionSplit(p: string)
    requires '.' in p
    ensures RemoveExtension(Some(p)).value + "." + RawExtension(p) == p
    ensures '.' !in RawExtension(p)
    ensures GetExtension(Some(p)) == Some(ToLower(RawExtension(p)))
    ensures |RemoveExtension(Some(p)).value| < |p|
  {
    var k := LastIndexOf(p, '.');
    assert p[..k] + "." + p[k + 1..] == p[..k] + p[k..];
    assert p[..k] + p[k..] == p;
  }

  lemma NoDotKeepsPath(p: Option<string>)
    requires p.None? || '.' !in p.value
    ensures RemoveExtension(p) == p && GetExtension(p).None?
  {
  }

  /** `extractFileName`: the last segment after a slash or backslash, without its
      extension; `null` for a null or empty path. */
  function ExtractFileName(filePath: Option<string>): (r: Option<string>)
  {
    if filePath.None? || |filePath.value| == 0 then None
    else
      var s := filePath.value;
      var cut := if LastIndexOf(s, '/') < LastIndexOf(s, '\\') then LastIndexOf(s, '\\') else LastIndexOf(s, '/');
      RemoveExtension(Some(s[cut + 1..]))
  }

  lemma ExtractFileNameShape(filePath: Option<string>)
    ensures ExtractFileName(filePath).None? <==> (filePath.None? || |filePath.value| == 0)
    ensures ExtractFileName(filePath).Some? ==>
      '/' !in ExtractFileName(filePath).value && '\\' !in ExtractFileName(filePath).value
  {
    if filePath.Some? && |filePath.value| > 0 {
      var s := filePath.value;
      var cut := if LastIndexOf(s, '/') < LastIndexOf(s, '\\') then LastIndexOf(s, '\\') else LastIndexOf(s, '/');
      var last := s[cut + 1..];
      if '.' in last {
        var k := LastIndexOf(last, '.');
        assert forall i :: 0 <= i < k ==> last[..k][i] == last[i];
      }
    }
  }

  // ---------------------------------------------------------------------------
  // Slash paths

  function Trim(s: string): (r: string)
    ensures |r| <= |s|
  {
    if |s| > 0 && IsTrimmed(s[0]) then Trim(s[1..])
    else if |s| > 0 && IsTrimmed(s[|s| - 1]) then Trim(s[..|s| - 1])
    else s
  }

  predicate AllSlashes(s: string) { forall i :: 0 <= i < |s| ==> s[i] == '/' }

  function DropLeadingSlashes(s: string): (r: string)
    ensures |r| <= |s|
    ensures |r| > 0 ==> r[0] != '/'
    ensures !AllSlashes(s) ==> |r| > 0
  {
    if |s| > 0 && s[0] == '/' then DropLeadingSlashes(s[1..]) else s
  }

  function DropTrailingSlashes(s: string): (r: string)
    ensures |r| <= |s|
    ensures r == s[..|r|]
    ensures |r| > 0 ==> r[|r| - 1] != '/'
    ensures !AllSlashes(s) ==> |r| > 0
  {
    if |s| > 0 && s[|s| - 1] == '/' then DropTrailingSlashes(s[..|s| - 1]) else s
  }

  /** The path with its leading and trailing runs of slashes removed. */
  function NormalizedPath(s: string): string
  {
    DropTrailingSlashes(DropLeadingSlashes(s))
  }

  predicate IsBlankPath(path: Option<string>)
  {
    path.None? || Trim(path.value) == "" || AllSlashes(path.value)
  }

  /** `getDirectory`: the segments of a slash path, after dropping leading and trailing
      slashes; empty for a null, blank or slash-only path. */
  function GetDirectory(path: Option<string>): (r: seq<string>)
  {
    if IsBlankPath(path) then []
    else Split(NormalizedPath(path.value), '/')
  }

  /** The segments rebuild the normalised path, none contains a slash, and the first and
      last are not empty. */
  lemma GetDirectorySegments(path: Option<string>)
    ensures IsBlankPath(path) <==> |GetDirectory(path)| == 0
    ensures !IsBlankPath(path) ==> Join(GetDirectory(path), "/") == NormalizedPath(path.value)
    ensures forall k :: 0 <= k < |GetDirectory(path)| ==> '/' !in GetDirectory(path)[k]
  {
    if !IsBlankPath(path) {
      SplitJoin(NormalizedPath(path.value), '/');
    }
  }

  /** `getDirectoryPath`: every segment but the last, joined and split again; the Java
      code fails with an index error when the path has no segment. */
  function GetDirectoryPath(path: Option<string>): (r: Result<seq<string>>)
    ensures r.Err? <==> |GetDirectory(path)| == 0
  {
    var d := GetDirectory(path);
    if |d| == 0 then Err(RuntimeFailure)
    else Ok(GetDirectory(Some(Join(d[..|d| - 1], "/"))))
  }

  /** `extractFolderName`: the second-to-last segment; an index error (not the documented
      IllegalArgumentException) with fewer than two segments. */
  function ExtractFolderName(path: Option<string>): (r: Result<string>)
    ensures r.Err? <==> |GetDirectory(path)| < 2
    ensures r.Ok? ==> r == Ok(GetDirectory(path)[|GetDirectory(path)| - 2]) && '/' !in r.value
  {
    var d := GetDirectory(path);
    GetDirectorySegments(path);
    if |d| < 2 then Err(RuntimeFailure) else Ok(d[|d| - 2])
  }

  // ---------------------------------------------------------------------------
  // Quotes and lists

  /** `replaceAll("^[L]|[T]$", "")`: drops one leading character of `lead` and one trailing
      character of `trail`, independently. */
  function StripEnds(s: string, lead: set<char>, trail: set<char>): (r: string)
  {
    var a := StripStart(s, lead);
    var b := if |s| > a && s[|s| - 1] in trail then |s| - 1 else |s|;
    s[a..b]
  }

  function StripStart(s: string, lead: set<char>): nat
  {
    if |s| > 0 && s[0] in lead then 1 else 0
  }

  const Quotes: set<char> := {'\'', '"'}

  /** `stripQuotes`: null stays null; otherwise at most one leading and one trailing quote
      go. */
  function StripQuotes(input: Option<string>): (r: Option<string>)
    ensures r.None? <==> input.None?
  {
    if input.None? then None else Some(StripEnds(input.value, Quotes, Quotes))
  }

  lemma StripEndsBounds(s: string, lead: set<char>, trail: set<char>)
    ensures var r := StripEnds(s, lead, trail); var a := StripStart(s, lead);
      |s| - 2 <= |r| <= |s| && a + |r| <= |s| && r == s[a..a + |r|] &&
      (a == 1 ==> s[0] in lead) && (a + |r| < |s| ==> s[|s| - 1] in trail) &&
      |s| - (a + |r|) <= 1
  {
  }

  /** Quote stripping removes at most one character at each end and keeps the rest in
      place: an unquoted string is kept whole. */
  lemma StripQuotesBounds(input: string)
    ensures var r := StripQuotes(Some(input)).value;
      |input| - 2 <= |r| <= |input| &&
      ((|input| > 0 && !IsQuote(input[0]) && !IsQuote(input[|input| - 1])) ==> r == input)
  {
    StripEndsBounds(input, Quotes, Quotes);
  }

  function DropSpaces(s: string): (r: string)
    ensures |r| <= |s|
    ensures r == s[|s| - |r|..]
  {
    if |s| > 0 && IsRegexSpace(s[0]) then DropSpaces(s[1..]) else s
  }

  function IndexOf(s: string, c: char): (i: nat)
    requires c in s
    ensures i < |s| && s[i] == c && c !in s[..i]
  {
    if s[0] == c then 0
    else
      var k := IndexOf(s[1..], c);
      assert s[..k + 1] == [s[0]] + s[1..][..k];
      k + 1
  }

  /** The pieces `split(",\\s*")` finds before dropping trailing empty pieces. */
  function SplitCommaRaw(s: string): (r: seq<string>)
    ensures |r| >= 1
    ensures forall k :: 0 <= k < |r| ==> ',' !in r[k]
    decreases |s|
  {
    if ',' !in s then [s]
    else
      var i := IndexOf(s, ',');
      [s[..i]] + SplitCommaRaw(DropSpaces(s[i + 1..]))
  }

  function DropTrailingEmpty(ps: seq<string>): (r: seq<string>)
    ensures |r| <= |ps| && forall k :: 0 <= k < |r| ==> r[k] == ps[k]
    ensures |r| > 0 ==> r[|r| - 1] != ""
  {
    if |ps| > 0 && ps[|ps| - 1] == "" then DropTrailingEmpty(ps[..|ps| - 1]) else ps
  }

  /** `s.split(",\\s*")`: an input without a comma comes back whole (even when empty);
      otherwise trailing empty pieces are dropped. */
  function SplitComma(s: string): (r: seq<string>)
    ensures forall k :: 0 <= k < |r| ==> ',' !in r[k]
  {
    if ',' !in s then [s] else DropTrailingEmpty(SplitCommaRaw(s))
  }

  /** One item of `extractSanitizedList`: trimmed, one `[` and one `]` dropped, split at
      commas and each piece unquoted. */
  function SanitizeItem(item: string): (r: seq<string>)
  {
    UnquoteAll(SplitComma(StripEnds(Trim(item), {'['}, {']'})))
  }

  /** Quote stripping applied to every piece. */
  function UnquoteAll(pieces: seq<string>): (r: seq<string>)
    ensures |r| == |pieces|
    ensures forall k :: 0 <= k < |r| ==> r[k] == StripEnds(pieces[k], Quotes, Quotes)
  {
    if |pieces| == 0 then [] else [StripEnds(pieces[0], Quotes, Quotes)] + UnquoteAll(pieces[1..])
  }

  /** The pieces `f` gives for each item, item after item. */
  function FlatMap(f: string -> seq<string>, list: seq<string>): seq<string>
  {
    if |list| == 0 then [] else FlatMap(f, list[..|list| - 1]) + f(list[|list| - 1])
  }

  lemma {:induction false} FlatMapAppend(f: string -> seq<string>, a: seq<string>, b: seq<string>)
    ensures FlatMap(f, a + b) == FlatMap(f, a) + FlatMap(f, b)
    decreases |b|
  {
    if |b| == 0 {
      assert a + b == a;
    } else {
      var c := a + b;
      assert c[..|c| - 1] == a + b[..|b| - 1];
      FlatMapAppend(f, a, b[..|b| - 1]);
    }
  }

  /** `extractSanitizedList`: the items' pieces, item after item. */
  function ExtractSanitizedList(list: seq<string>): seq<string>
  {
    FlatMap(SanitizeItem, list)
  }

  /** Sanitising distributes over concatenation, so item order is kept. */
  lemma SanitizedListAppend(a: seq<string>, b: seq<string>)
    ensures ExtractSanitizedList(a + b) == ExtractSanitizedList(a) + ExtractSanitizedList(b)
  {
    FlatMapAppend(SanitizeItem, a, b);
  }

  /** No piece of one sanitised item contains a comma. */
  lemma SanitizeItemNoComma(item: string)
    ensures forall k :: 0 <= k < |SanitizeItem(item)| ==> ',' !in SanitizeItem(item)[k]
  {
    var pieces := SplitComma(StripEnds(Trim(item), {'['}, {']'}));
    forall k | 0 <= k < |pieces|
      ensures ',' !in StripEnds(pieces[k], Quotes, Quotes)
    {
      StripEndsBounds(pieces[k], Quotes, Quotes);
    }
  }

  /** No sanitised piece contains a comma. */
  lemma {:induction false} SanitizedListNoComma(list: seq<string>)
    ensures forall k :: 0 <= k < |ExtractSanitizedList(list)| ==> ',' !in ExtractSanitizedList(list)[k]
  {
    if |list| > 0 {
      SanitizedListNoComma(list[..|list| - 1]);
      var front := ExtractSanitizedList(list[..|list| - 1]);
      var tail := SanitizeItem(list[|list| - 1]);
      SanitizeItemNoComma(list[|list| - 1]);
      assert ExtractSanitizedList(list) == front + tail;
      NoCommaAppend(front, tail);
    }
  }

  lemma NoCommaAppend(a: seq<string>, b: seq<string>)
    requires forall k :: 0 <= k < |a| ==> ',' !in a[k]
    requires forall k :: 0 <= k < |b| ==> ',' !in b[k]
    ensures forall k :: 0 <= k < |a + b| ==> ',' !in (a + b)[k]
  {
  }

  /** A plain item (no brackets, commas, quotes or surrounding blanks) comes through as
      itself. */
  lemma PlainItemKept(item: string)
    requires |item| > 0 && !IsTrimmed(item[0]) && !IsTrimmed(item[|item| - 1])
    requires item[0] != '[' && item[|item| - 1] != ']' && ',' !in item
    requires !IsQuote(item[0]) && !IsQuote(item[|item| - 1])
    ensures SanitizeItem(item) == [item]
  {
    assert Trim(item) == item;
    assert StripEnds(item, {'['}, {']'}) == item[0..|item|];
    assert item[0..|item|] == item;
    assert StripEnds(item, Quotes, Quotes) == item[0..|item|];
  }
}
