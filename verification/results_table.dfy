/** Reducing a parsed results body to the `{fields, rows, results}` object that `search` returns. */
module ResultsTable {
  import opened Basics
  import opened Text
  import opened Json
  import opened Errors

  /** The object `search` resolves to. `results` is `undefined` for a blank results body. */
  datatype Table = Table(fields: JVal, rows: seq<JVal>, results: JVal)

  /** `_getResultsArray`: the first truthy of `results`, `result` and `entry`, else `null`. */
  function ResultsArray(body: JVal): (r: JVal)
    ensures Truthy(r) || r == JNull
    ensures r != JNull ==> r in [Prop(body, "results"), Prop(body, "result"), Prop(body, "entry")]
    ensures Truthy(Prop(body, "results")) ==> r == Prop(body, "results")
    ensures !Truthy(Prop(body, "results")) && Truthy(Prop(body, "result")) ==> r == Prop(body, "result")
    ensures r == JNull <==>
      !Truthy(Prop(body, "results")) && !Truthy(Prop(body, "result")) && !Truthy(Prop(body, "entry"))
  {
    if Truthy(Prop(body, "results")) then Prop(body, "results")
    else if Truthy(Prop(body, "result")) then Prop(body, "result")
    else if Truthy(Prop(body, "entry")) then Prop(body, "entry")
    else JNull
  }

  /** The names "0" .. "n-1". */
  function IndexNames(n: nat): (r: seq<JVal>)
    ensures |r| == n
    ensures forall i :: 0 <= i < n ==> r[i] == JStr(NatToString(i))
  {
    seq(n, i requires 0 <= i => JStr(NatToString(i)))
  }

  function KeyNames(fs: seq<Field>): (r: seq<JVal>)
    ensures |r| == |fs|
    ensures forall i :: 0 <= i < |fs| ==> r[i] == JStr(fs[i].key)
  {
    seq(|fs|, i requires 0 <= i < |fs| => JStr(fs[i].key))
  }

  /** `_fieldsFromFirst`: index names for an array, own keys for an object, none otherwise. */
  function FieldsFromFirst(first: JVal): (r: JVal)
    ensures r.JArr?
    ensures first.JArr? ==> |r.items| == |first.items|
    ensures first.JArr? ==> forall i :: 0 <= i < |first.items| ==> r.items[i] == JStr(NatToString(i))
    ensures first.JObj? ==> |r.items| == |first.fields|
    ensures first.JObj? ==> forall i :: 0 <= i < |first.fields| ==> r.items[i] == JStr(first.fields[i].key)
    ensures !IsObjectLike(first) ==> r.items == []
  {
    match first
    case JArr(items) => JArr(IndexNames(|items|))
    case JObj(fs) => JArr(KeyNames(fs))
    case _ => JArr([])
  }

  /** `_normalizeFields`: `body.fields` when truthy, whatever it is; else the names read off
      the first result when `results.length` is truthy; else none. */
  function NormalizeFields(body: JVal, results: JVal): (r: JVal)
    ensures Truthy(Prop(body, "fields")) ==> r == Prop(body, "fields")
    ensures !Truthy(Prop(body, "fields")) ==> r.JArr?
    ensures !Truthy(Prop(body, "fields")) && results.JArr? ==>
      r == FieldsFromFirst(if results.items == [] then JUndef else results.items[0])
  {
    if Truthy(body) && Truthy(Prop(body, "fields")) then Prop(body, "fields")
    else if Truthy(results) && Truthy(Prop(results, "length")) then FieldsFromFirst(Index(results, 0))
    else JArr([])
  }

  /** The property `r[f]` for each field `f`, which JavaScript names by `String(f)`. */
  function Project(r: JVal, fields: seq<JVal>): (xs: seq<JVal>)
    ensures |xs| == |fields|
    ensures forall i :: 0 <= i < |fields| ==> xs[i] == Prop(r, ToStr(fields[i]))
  {
    seq(|fields|, i requires 0 <= i < |fields| => Prop(r, ToStr(fields[i])))
  }

  /** `_rowFromResult`: an array row as is, an object projected onto the fields, anything
      else wrapped in a one-element row. Projecting needs `normFields.map`, so a non-array field
      list with an object result is a `TypeError`. */
  function RowFromResult(r: JVal, fields: JVal): (row: Result<JVal, Failure>)
    ensures row.Ok? ==> row.value.JArr?
    ensures row.Err? <==> r.JObj? && !fields.JArr?
    ensures r.JArr? ==> row == Ok(r)
    ensures r.JObj? && fields.JArr? ==> row.value.items == Project(r, fields.items)
    ensures !IsObjectLike(r) ==> row == Ok(JArr([r]))
  {
    match r
    case JArr(_) => Ok(r)
    case JObj(_) =>
      if fields.JArr? then Ok(JArr(Project(r, fields.items)))
      else Err(TypeError("normFields.map is not a function"))
    case _ => Ok(JArr([r]))
  }

  /** `results.map(r => _rowFromResult(r, fields))`: one row per result, in order, or the first
      `TypeError`. */
  function RowsFromResults(results: seq<JVal>, fields: JVal): (rows: Result<seq<JVal>, Failure>)
    ensures rows.Ok? ==> |rows.value| == |results|
    ensures rows.Ok? ==> forall i :: 0 <= i < |results| ==> Ok(rows.value[i]) == RowFromResult(results[i], fields)
    ensures rows.Err? <==> exists i :: 0 <= i < |results| && RowFromResult(results[i], fields).Err?
  {
    if results == [] then Ok([])
    else
      match RowFromResult(results[0], fields)
      case Err(e) => Err(e)
      case Ok(row) =>
        match RowsFromResults(results[1..], fields)
        case Err(e) =>
          ghost var i :| 0 <= i < |results[1..]| && RowFromResult(results[1..][i], fields).Err?;
          assert RowFromResult(results[i + 1], fields).Err?;
          Err(e)
        case Ok(rest) =>
          assert forall i :: 1 <= i < |results| ==> results[i] == results[1..][i - 1];
          Ok([row] + rest)
  }

  /** `_deriveFieldsAndRows`. */
  function DeriveFieldsAndRows(body: JVal): (r: Result<Table, Failure>)
    ensures r.Ok? ==> r.value.fields == NormalizeFields(body, ResultsArray(body))
    ensures r.Ok? && ResultsArray(body).JArr? ==>
      r.value.results == ResultsArray(body) && |r.value.rows| == |ResultsArray(body).items|
    ensures !ResultsArray(body).JArr? ==> r.Ok? && r.value.rows == [] && r.value.results == JNull
    ensures ResultsArray(body).JArr? ==>
      var items := ResultsArray(body).items;
      var fields := NormalizeFields(body, ResultsArray(body));
      && (r.Err? <==> exists i :: 0 <= i < |items| && RowFromResult(items[i], fields).Err?)
      && (r.Ok? ==> forall i :: 0 <= i < |items| ==> Ok(r.value.rows[i]) == RowFromResult(items[i], fields))
  {
    var results := ResultsArray(body);
    var fields := NormalizeFields(body, results);
    if results.JArr? then
      match RowsFromResults(results.items, fields)
      case Err(e) => Err(e)
      case Ok(rows) => Ok(Table(fields, rows, results))
    else
      Ok(Table(fields, [], JNull))
  }

  // ---- properties ----

  /** With no `fields` in the body and objects as results, the fields are the first object's
      keys and the first row is that object's values, in key order. */
  lemma FirstRowIsFirstObjectsValues(body: JVal)
    requires !Truthy(Prop(body, "fields"))
    requires ResultsArray(body).JArr? && ResultsArray(body).items != []
    requires ResultsArray(body).items[0].JObj? && DistinctKeys(ResultsArray(body).items[0].fields)
    ensures DeriveFieldsAndRows(body).Ok?
    ensures
      var first := ResultsArray(body).items[0];
      var t := DeriveFieldsAndRows(body).value;
      && t.fields == JArr(KeyNames(first.fields))
      && |t.rows| >= 1
      && t.rows[0] == JArr(seq(|first.fields|, i requires 0 <= i < |first.fields| => first.fields[i].value))
  {
    var first := ResultsArray(body).items[0];
    assert NormalizeFields(body, ResultsArray(body)).JArr?;
    var t := DeriveFieldsAndRows(body).value;
    var fs := first.fields;
    var fields := KeyNames(fs);
    assert t.fields == JArr(fields);
    assert Ok(t.rows[0]) == RowFromResult(first, JArr(fields));
    var xs := t.rows[0].items;
    assert |xs| == |fs|;
    forall i | 0 <= i < |fs| ensures xs[i] == fs[i].value {
      assert ToStr(fields[i]) == fs[i].key;
      LookupDistinct(fs, i);
    }
  }

  /** With no `fields` in the body and arrays as results, the fields are "0" .. "n-1" for the
      first array's length and every array row is its result unchanged. */
  lemma ArrayResultsKeepRows(body: JVal)
    requires !Truthy(Prop(body, "fields"))
    requires ResultsArray(body).JArr? && ResultsArray(body).items != []
    requires forall i :: 0 <= i < |ResultsArray(body).items| ==> ResultsArray(body).items[i].JArr?
    ensures DeriveFieldsAndRows(body).Ok?
    ensures
      var results := ResultsArray(body).items;
      var t := DeriveFieldsAndRows(body).value;
      && t.fields == JArr(IndexNames(|results[0].items|))
      && t.rows == results
  {
    var results := ResultsArray(body).items;
    var fields := NormalizeFields(body, ResultsArray(body));
    assert RowsFromResults(results, fields).Ok?;
    var t := DeriveFieldsAndRows(body).value;
    forall i | 0 <= i < |results| ensures t.rows[i] == results[i] {
      assert Ok(t.rows[i]) == RowFromResult(results[i], fields);
    }
  }

  /** Projecting a two-key object onto its two keys gives its two values. */
  lemma ProjectPair(a: string, va: JVal, b: string, vb: JVal)
    requires a != b
    ensures Project(JObj([Field(a, va), Field(b, vb)]), [JStr(a), JStr(b)]) == [va, vb]
  {
    var fs := [Field(a, va), Field(b, vb)];
    LookupDistinct(fs, 0);
    LookupDistinct(fs, 1);
  }

  /** The body `{fields: ["a","b"], results: [{a: 1, b: 2}, {a: 3, b: 4}]}` gives the rows
      `[[1, 2], [3, 4]]` and keeps both the fields and the results. */
  lemma TwoObjectResults()
    ensures
      var r1 := JObj([Field("a", JNum(1)), Field("b", JNum(2))]);
      var r2 := JObj([Field("a", JNum(3)), Field("b", JNum(4))]);
      var fields := JArr([JStr("a"), JStr("b")]);
      var body := JObj([Field("fields", fields), Field("results", JArr([r1, r2]))]);
      DeriveFieldsAndRows(body) ==
        Ok(Table(fields, [JArr([JNum(1), JNum(2)]), JArr([JNum(3), JNum(4)])], JArr([r1, r2])))
  {
    var r1 := JObj([Field("a", JNum(1)), Field("b", JNum(2))]);
    var r2 := JObj([Field("a", JNum(3)), Field("b", JNum(4))]);
    var fields := JArr([JStr("a"), JStr("b")]);
    var body := JObj([Field("fields", fields), Field("results", JArr([r1, r2]))]);
    LookupDistinct(body.fields, 0);
    LookupDistinct(body.fields, 1);
    assert ResultsArray(body) == JArr([r1, r2]);
    assert NormalizeFields(body, JArr([r1, r2])) == fields;
    ProjectPair("a", JNum(1), "b", JNum(2));
    ProjectPair("a", JNum(3), "b", JNum(4));
    var rows := RowsFromResults([r1, r2], fields);
    assert rows.Ok?;
    assert rows.value[0] == JArr([JNum(1), JNum(2)]);
    assert rows.value[1] == JArr([JNum(3), JNum(4)]);
    assert rows.value == [JArr([JNum(1), JNum(2)]), JArr([JNum(3), JNum(4)])];
    assert DeriveFieldsAndRows(body) == Ok(Table(fields, rows.value, JArr([r1, r2])));
  }

  /** Results that are an object rather than an array give no rows, no fields and `null`. */
  lemma ObjectResultsGiveNoRows()
    ensures
      var body := JObj([Field("results", JObj([Field("a", JNum(1))]))]);
      DeriveFieldsAndRows(body) == Ok(Table(JArr([]), [], JNull))
  {
    var body := JObj([Field("results", JObj([Field("a", JNum(1))]))]);
    assert Prop(body, "fields") == JUndef;
    assert Prop(JObj([Field("a", JNum(1))]), "length") == JUndef;
  }
}
