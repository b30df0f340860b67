/** Ingestion: a document read from a JSON, YAML or XML file, already turned into nested
    maps, lists and scalars, becomes a tree of tables; the file's extension picks the
    reader. */
module FileParsing {
  import opened Wrappers
  import opened Tables
  import opened Utils

  // ---------------------------------------------------------------------------
  // `extractPairs`: a map copied into a fresh LinkedHashMap with string keys

  /** The position of key `k` among the entries, if present. */
  function KeyIndex(es: seq<(string, Value)>, k: string): (r: Option<nat>)
    ensures r.Some? ==> r.value < |es| && es[r.value].0 == k
    ensures r.None? <==> forall j :: 0 <= j < |es| ==> es[j].0 != k
  {
    if |es| == 0 then None
    else if es[|es| - 1].0 == k then Some(|es| - 1)
    else KeyIndex(es[..|es| - 1], k)
  }

  /** `LinkedHashMap.put`: a present key keeps its position and takes the new value; a new
      key goes at the end. */
  function Put(es: seq<(string, Value)>, k: string, v: Value): (r: seq<(string, Value)>)
    ensures KeyIndex(es, k).None? ==> r == es + [(k, v)]
    ensures KeyIndex(es, k).Some? ==> r == es[KeyIndex(es, k).value := (k, v)]
  {
    match KeyIndex(es, k)
    case None => es + [(k, v)]
    case Some(i) => es[i := (k, v)]
  }

  /** The copy `extractPairs` makes: every entry put in order. */
  function Pairs(es: seq<(string, Value)>): (r: seq<(string, Value)>)
    ensures |r| <= |es|
    ensures forall i :: 0 <= i < |r| ==> r[i] in es
  {
    if |es| == 0 then []
    else Put(Pairs(es[..|es| - 1]), es[|es| - 1].0, es[|es| - 1].1)
  }

  predicate DistinctKeys(es: seq<(string, Value)>)
  {
    forall i, j :: 0 <= i < j < |es| ==> es[i].0 != es[j].0
  }

  /** The copy has each key once, and it has exactly the keys of the source. */
  lemma {:induction false} PairsKeys(es: seq<(string, Value)>)
    ensures DistinctKeys(Pairs(es))
    ensures forall k :: KeyIndex(Pairs(es), k).Some? <==> KeyIndex(es, k).Some?
  {
    if |es| > 0 {
      var front := es[..|es| - 1];
      PairsKeys(front);
      forall k
        ensures KeyIndex(es, k).Some? <==> KeyIndex(front, k).Some? || k == es[|es| - 1].0
      {
      }
      var p := Pairs(front);
      var e := es[|es| - 1];
      if KeyIndex(p, e.0).None? {
        forall k
          ensures KeyIndex(p + [e], k).Some? <==> KeyIndex(p, k).Some? || k == e.0
        {
          if k != e.0 {
            assert (p + [e])[..|p|] == p;
          }
        }
      } else {
        var i := KeyIndex(p, e.0).value;
        forall k
          ensures KeyIndex(p[i := e], k).Some? <==> KeyIndex(p, k).Some?
        {
          if KeyIndex(p, k).Some? {
            var j := KeyIndex(p, k).value;
            assert p[i := e][j].0 == k;
          }
          if KeyIndex(p[i := e], k).Some? {
            var j := KeyIndex(p[i := e], k).value;
            assert p[j].0 == k;
          }
        }
      }
    }
  }

  /** A map whose keys are already distinct strings is copied unchanged. */
  lemma {:induction false} PairsOfDistinct(es: seq<(string, Value)>)
    requires DistinctKeys(es)
    ensures Pairs(es) == es
  {
    if |es| > 0 {
      var front := es[..|es| - 1];
      PairsOfDistinct(front);
      assert KeyIndex(front, es[|es| - 1].0).None?;
      assert front + [es[|es| - 1]] == es;
    }
  }

  /** The loop of `extractPairs`. */
  method ExtractPairs(es: seq<(string, Value)>) returns (r: seq<(string, Value)>)
    ensures r == Pairs(es)
  {
    r := [];
    var i := 0;
    while i < |es|
      invariant 0 <= i <= |es|
      invariant r == Pairs(es[..i])
    {
      assert es[..i + 1][..i] == es[..i];
      r := Put(r, es[i].0, es[i].1);
      i := i + 1;
    }
    assert es[..i] == es;
  }

  // ---------------------------------------------------------------------------
  // `parse`: nested values to nested tables

  /** The cell a scalar becomes. */
  function Scalar(v: Value): (c: Cell)
    requires !v.VMap? && !v.VList?
    ensures v.VNum? ==> c == Num(v.n)
    ensures v.VStr? ==> c == Str(v.s)
    ensures v.VBool? ==> c == Bool(v.b)
    ensures v.VNull? ==> c == Null
  {
    match v
    case VNum(n) => Num(n)
    case VStr(s) => Str(s)
    case VBool(b) => Bool(b)
    case VNull => Null
  }

  predicate AllMaps(items: seq<Value>)
  {
    forall k :: 0 <= k < |items| ==> items[k].VMap?
  }

  /** `parse(map, name)`: a table named `name` with one column per key, in key order. */
  function ParseMap(m: Value, name: string): (t: Table)
    requires m.VMap?
    decreases m, 1, 0
  {
    Table(Some(name), ParseColumns(m, |Pairs(m.entries)|))
  }

  /** The columns for the first `n` keys of the map. */
  function ParseColumns(m: Value, n: nat): (r: seq<Column>)
    requires m.VMap? && n <= |Pairs(m.entries)|
    ensures |r| == n
    decreases m, 0, n
  {
    if n == 0 then []
    else
      var e := Pairs(m.entries)[n - 1];
      assert e in m.entries;
      ParseColumns(m, n - 1) + [ParseColumn(e.0, e.1)]
  }

  /** The column for one key: a nested map becomes one nested table; a list of maps
      becomes one nested table per element; any other list is one cell holding the whole
      list; a scalar is one cell. */
  function ParseColumn(key: string, v: Value): (c: Column)
    ensures c.name == key
    decreases v, 2, 0
  {
    match v
    case VMap(_) => Column(key, [Tab(ParseMap(v, key))])
    case VList(items) =>
      if AllMaps(items) then Column(key, ParseList(v, key, |items|))
      else Column(key, [ListV(items)])
    case _ => Column(key, [Scalar(v)])
  }

  /** One nested table per element of a list of maps, each named after the key. */
  function ParseList(list: Value, key: string, n: nat): (r: seq<Cell>)
    requires list.VList? && AllMaps(list.items) && n <= |list.items|
    ensures |r| == n
    decreases list, 0, n
  {
    if n == 0 then []
    else ParseList(list, key, n - 1) + [Tab(ParseMap(list.items[n - 1], key))]
  }

  /** The document's root map becomes the table named after the file, one column per key,
      in key order. */
  lemma RootColumns(entries: seq<(string, Value)>, fileName: string)
    requires DistinctKeys(entries)
    ensures var t := ParseMap(VMap(entries), fileName);
      t.name == Some(fileName) && |t.columns| == |entries| &&
      forall k :: 0 <= k < |entries| ==> t.columns[k] == ParseColumn(entries[k].0, entries[k].1)
  {
    PairsOfDistinct(entries);
    ParseColumnsAt(VMap(entries), |entries|);
  }

  lemma {:induction false} ParseColumnsAt(m: Value, n: nat)
    requires m.VMap? && n <= |Pairs(m.entries)|
    ensures forall k :: 0 <= k < n ==>
      ParseColumns(m, n)[k] == ParseColumn(Pairs(m.entries)[k].0, Pairs(m.entries)[k].1)
  {
    if n > 0 {
      ParseColumnsAt(m, n - 1);
    }
  }

  /** The shapes of a column: a scalar gives exactly that one cell; a nested map gives a
      single nested table named after the key; a list of maps gives one nested table per
      element, each named after the key, in list order; any other list gives one cell
      holding the whole list, and an empty list gives no cell at all. */
  lemma ColumnShapes(key: string, v: Value)
    ensures !v.VMap? && !v.VList? ==> ParseColumn(key, v).rows == [Scalar(v)]
    ensures v.VMap? ==> ParseColumn(key, v).rows == [Tab(ParseMap(v, key))] && ParseMap(v, key).name == Some(key)
    ensures v.VList? && AllMaps(v.items) ==>
      var rows := ParseColumn(key, v).rows;
      |rows| == |v.items| &&
      forall k :: 0 <= k < |rows| ==> rows[k] == Tab(ParseMap(v.items[k], key))
    ensures v.VList? && !AllMaps(v.items) ==> ParseColumn(key, v).rows == [ListV(v.items)]
    ensures v == VList([]) ==> ParseColumn(key, v).rows == []
  {
    if v.VList? && AllMaps(v.items) {
      ParseListAt(v, key, |v.items|);
    }
  }

  lemma {:induction false} ParseListAt(list: Value, key: string, n: nat)
    requires list.VList? && AllMaps(list.items) && n <= |list.items|
    ensures forall k :: 0 <= k < n ==> ParseList(list, key, n)[k] == Tab(ParseMap(list.items[k], key))
  {
    if n > 0 {
      ParseListAt(list, key, n - 1);
    }
  }

  // ---------------------------------------------------------------------------
  // `Parser`: the reader chosen by the file's extension

  datatype Format = Json | Yaml | Xml

  /** `getFileParser(extension)`: the extension is already lower case; a missing one fails
      on `toLowerCase()`. */
  function FileParserFor(extension: Option<string>): (r: Result<Format>)
    ensures r.Ok? <==> extension.Some? && extension.value in {"json", "yaml", "xml"}
    ensures extension.None? ==> r == Err(RuntimeFailure)
    ensures extension.Some? && extension.value !in {"json", "yaml", "xml"} ==>
      r == Err(ParserError("Unknown input extension: " + extension.value))
  {
    match extension
    case None => Err(RuntimeFailure)
    case Some(e) =>
      if e == "json" then Ok(Json)
      else if e == "yaml" then Ok(Yaml)
      else if e == "xml" then Ok(Xml)
      else Err(ParserError("Unknown input extension: " + e))
  }

  /** `parseFile(file)`: the reader for the file's extension reads the root map (`read`
      stands for the Jackson readers and the file system), and the table is named after
      the file. */
  function ParseFile(fileName: string, read: Format -> Result<seq<(string, Value)>>): (r: Result<Table>)
    ensures r.Ok? ==> r.value.name == Some(fileName)
    ensures GetExtension(Some(fileName)).None? ==> r == Err(RuntimeFailure)
  {
    var format :- FileParserFor(GetExtension(Some(fileName)));
    var data :- read(format);
    Ok(ParseMap(VMap(data), fileName))
  }

  /** The extension is compared in lower case, so an upper-case ".JSON" selects the JSON
      reader ... */
  lemma UpperCaseJson(prefix: string)
    ensures FileParserFor(GetExtension(Some(prefix + ".JSON"))) == Ok(Json)
  {
    assert prefix + ".JSON" == prefix + "." + "JSON";
    ExtensionOf(prefix, "JSON");
    LowerJson();
  }

  lemma LowerJson()
    ensures ToLower("JSON") == "json"
  {
    assert ToLower("JSON")[0] == 'j' && ToLower("JSON")[1] == 's';
    assert ToLower("JSON")[2] == 'o' && ToLower("JSON")[3] == 'n';
  }

  /** ... while "yml" is not a YAML extension. */
  lemma YmlRejected(prefix: string)
    ensures FileParserFor(GetExtension(Some(prefix + ".yml"))) == Err(ParserError("Unknown input extension: yml"))
  {
    assert prefix + ".yml" == prefix + "." + "yml";
    ExtensionOf(prefix, "yml");
    LowerYml();
    YmlUnknown();
  }

  lemma LowerYml()
    ensures ToLower("yml") == "yml"
  {
    assert ToLower("yml")[0] == 'y' && ToLower("yml")[1] == 'm' && ToLower("yml")[2] == 'l';
  }

  lemma YmlUnknown()
    ensures FileParserFor(Some("yml")) == Err(ParserError("Unknown input extension: yml"))
  {
    assert "yml"[0] != "xml"[0];
    assert "Unknown input extension: " + "yml" == "Unknown input extension: yml";
  }

  lemma ExtensionOf(prefix: string, ext: string)
    requires '.' !in ext
    ensures GetExtension(Some(prefix + "." + ext)) == Some(ToLower(ext))
  {
    ExtensionSplit(prefix + "." + ext);
    LastDotIsExtension(prefix, ext);
  }

  lemma LastDotIsExtension(prefix: string, ext: string)
    requires '.' !in ext
    ensures RawExtension(prefix + "." + ext) == ext
  {
    var p := prefix + "." + ext;
    ExtensionSplit(p);
    var i := LastIndexOf(p, '.');
    assert p[|prefix|] == '.';
    assert p[|prefix| + 1..] == ext;
  }
}
