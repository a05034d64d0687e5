/** `normalizeResults`: the search result `{fields, rows, results}` turned into a list of flat
    records for the output writers. */
module Normalize {
  import opened Basics
  import opened Text
  import opened Json

  /** One output record: its own properties in insertion order. */
  type Record = seq<Field>

  /** The value the last entry with key `k` carries, `undefined` when there is none. */
  function LastValue(es: seq<Field>, k: string): JVal
    decreases |es|
  {
    if es == [] then JUndef
    else if es[|es| - 1].key == k then es[|es| - 1].value
    else LastValue(es[..|es| - 1], k)
  }

  /** `obj[e.key] = e.value` for each entry in turn, starting from `acc`. */
  function PutAll(acc: Record, es: seq<Field>): (r: Record)
    ensures DistinctKeys(acc) ==> DistinctKeys(r)
    decreases |es|
  {
    if es == [] then acc
    else
      var prev := PutAll(acc, es[..|es| - 1]);
      var e := es[|es| - 1];
      assert DistinctKeys(prev) ==> DistinctKeys(Put(prev, e.key, e.value)) by {
        if DistinctKeys(prev) {
          PutKeepsDistinct(prev, e.key, e.value);
        }
      }
      Put(prev, e.key, e.value)
  }

  /** Reading a key after the assignments gives the last value assigned to it, or what `acc`
      held when it was never assigned. */
  lemma {:induction false} PutAllLookup(acc: Record, es: seq<Field>, k: string)
    ensures Lookup(PutAll(acc, es), k) == if k in Keys(es) then LastValue(es, k) else Lookup(acc, k)
    decreases |es|
  {
    if es != [] {
      var init := es[..|es| - 1];
      var e := es[|es| - 1];
      PutAllLookup(acc, init, k);
      PutLookup(PutAll(acc, init), e.key, e.value, k);
      KeysOfInit(es);
    }
  }

  /** The keys of a non-empty entry list are those of all but the last entry, then the last. */
  lemma KeysOfInit(es: seq<Field>)
    requires es != []
    ensures Keys(es) == Keys(es[..|es| - 1]) + [es[|es| - 1].key]
  {
    var init := es[..|es| - 1];
    var ks := Keys(init) + [es[|es| - 1].key];
    forall i | 0 <= i < |es| ensures Keys(es)[i] == ks[i] {
      if i < |init| {
        assert init[i] == es[i];
      }
    }
  }

  /** After the assignments the keys are those of `acc` and those assigned. */
  lemma {:induction false} PutAllKeys(acc: Record, es: seq<Field>, k: string)
    ensures k in Keys(PutAll(acc, es)) <==> k in Keys(acc) || k in Keys(es)
    decreases |es|
  {
    if es != [] {
      PutAllKeys(acc, es[..|es| - 1], k);
      KeysOfInit(es);
    }
  }

  /** Assigning entries with distinct keys to an empty object gives exactly those entries. */
  lemma {:induction false} PutAllDistinct(es: seq<Field>)
    requires DistinctKeys(es)
    ensures PutAll([], es) == es
    decreases |es|
  {
    if es != [] {
      var init := es[..|es| - 1];
      var e := es[|es| - 1];
      PutAllDistinct(init);
      assert e.key !in Keys(init) by {
        forall i | 0 <= i < |init| ensures Keys(init)[i] != e.key {
          assert init[i] == es[i];
        }
      }
      PutNew(init, e.key, e.value);
      assert init + [e] == es;
    }
  }

  /** The last value for a key is the value every entry with that key carries. */
  lemma {:induction false} LastValueUniform(es: seq<Field>, k: string, v: JVal)
    requires k in Keys(es)
    requires forall i :: 0 <= i < |es| && es[i].key == k ==> es[i].value == v
    ensures LastValue(es, k) == v
    decreases |es|
  {
    var init := es[..|es| - 1];
    if es[|es| - 1].key != k {
      KeysOfInit(es);
      forall i | 0 <= i < |init| && init[i].key == k
        ensures init[i].value == v
      {
        assert init[i] == es[i];
      }
      LastValueUniform(init, k, v);
    }
  }

  /** The keys of `row` that `Object.keys` lists: an object's own keys, an array's indices. */
  function OwnKeys(row: JVal): (ks: seq<string>)
    requires IsObjectLike(row)
    ensures row.JObj? ==> ks == Keys(row.fields)
    ensures row.JArr? ==> |ks| == |row.items| && forall i :: 0 <= i < |ks| ==> ks[i] == NatToString(i)
  {
    match row
    case JObj(fs) => Keys(fs)
    case JArr(items) => seq(|items|, i requires 0 <= i => NatToString(i))
  }

  /** `_normalizeValue`: `null` and `undefined` give "", an array its elements joined by ",",
      an object its JSON text, anything else its `String` form. */
  function NormalizeValue(v: JVal): (r: string)
    ensures v.JStr? ==> r == v.s
    ensures v.JNull? || v.JUndef? ==> r == ""
    ensures v.JObj? ==> Stringify(v) == Some(r)
    ensures !v.JNull? && !v.JUndef? && !v.JObj? ==> r == ToStr(v)
  {
    match v
    case JNull => ""
    case JUndef => ""
    case JArr(items) => JoinValues(items, ",")
    case JObj(_) => Stringify(v).value
    case _ => ToStr(v)
  }

  /** `_createObjectFromRow`: every own key of `row` with its value normalised to a string. */
  function CreateObjectFromRow(row: JVal): (r: Record)
    requires IsObjectLike(row)
    ensures forall k :: k in Keys(r) <==> k in OwnKeys(row)
    ensures forall k :: k in OwnKeys(row) ==> Lookup(r, k) == JStr(NormalizeValue(Prop(row, k)))
  {
    var ks := OwnKeys(row);
    var es := seq(|ks|, i requires 0 <= i < |ks| => Field(ks[i], JStr(NormalizeValue(Prop(row, ks[i])))));
    assert Keys(es) == ks;
    forall k | k in ks ensures Lookup(PutAll([], es), k) == JStr(NormalizeValue(Prop(row, k))) {
      PutAllLookup([], es, k);
      LastValueUniform(es, k, JStr(NormalizeValue(Prop(row, k))));
    }
    PutAllEmptyKeys(es);
    PutAll([], es)
  }

  /** An element of a non-empty `results` array: an array or object becomes a record of its
      normalised values, anything else `{_raw: String(x)}`. */
  function NormalizeResultItem(x: JVal): (r: Record)
    ensures IsObjectLike(x) ==> r == CreateObjectFromRow(x)
    ensures !IsObjectLike(x) ==> r == [Field("_raw", JStr(ToStr(x)))]
  {
    if IsObjectLike(x) then CreateObjectFromRow(x) else [Field("_raw", JStr(ToStr(x)))]
  }

  /** The value kept for one cell of a row matched against fields: `null`, `undefined` and
      anything whose `typeof` is "object" become "", other values stay as they are. */
  function ScalarOrBlank(v: JVal): (r: JVal)
    ensures !IsTypeofObject(r) && !r.JUndef?
    ensures r == v || r == JStr("")
    ensures r == v <==> !IsTypeofObject(v) && !v.JUndef?
  {
    if v.JNull? || v.JUndef? || IsTypeofObject(v) then JStr("") else v
  }

  /** `_convertArrayRow`: for the i-th field, `obj[fields[i]]` is the i-th element kept as a
      scalar or blanked; positions past the row's end read `undefined` and give "". */
  function ConvertArrayRow(row: seq<JVal>, fields: seq<JVal>): (r: Record)
    ensures forall k :: k in Keys(r) <==> exists i :: 0 <= i < |fields| && ToStr(fields[i]) == k
  {
    ArrayRowKeys(row, fields);
    PutAll([], ArrayRowEntries(row, fields))
  }

  /** The assignments `_convertArrayRow` makes, one per field in order. */
  function ArrayRowEntries(row: seq<JVal>, fields: seq<JVal>): seq<Field> {
    seq(|fields|, i requires 0 <= i < |fields| => Field(ToStr(fields[i]), ScalarOrBlank(Index(JArr(row), i))))
  }

  /** The record built from an array row has a key exactly for the text of each field. */
  lemma ArrayRowKeys(row: seq<JVal>, fields: seq<JVal>)
    ensures forall k :: k in Keys(PutAll([], ArrayRowEntries(row, fields))) <==>
      exists i :: 0 <= i < |fields| && ToStr(fields[i]) == k
  {
    PutAllEmptyKeys(ArrayRowEntries(row, fields));
    ArrayRowEntryKeys(row, fields);
  }

  /** Assigning entries to an empty object gives exactly the keys assigned. */
  lemma PutAllEmptyKeys(es: seq<Field>)
    ensures forall k :: k in Keys(PutAll([], es)) <==> k in Keys(es)
  {
    forall k ensures k in Keys(PutAll([], es)) <==> k in Keys(es) {
      PutAllKeys([], es, k);
    }
  }

  /** The keys `_convertArrayRow` assigns are the texts of the fields. */
  lemma ArrayRowEntryKeys(row: seq<JVal>, fields: seq<JVal>)
    ensures forall k :: k in Keys(ArrayRowEntries(row, fields)) <==> exists i :: 0 <= i < |fields| && ToStr(fields[i]) == k
  {
    var ks := Keys(ArrayRowEntries(row, fields));
    forall k ensures k in ks <==> exists i :: 0 <= i < |fields| && ToStr(fields[i]) == k {
      if k in ks {
        var i :| 0 <= i < |ks| && ks[i] == k;
        assert ToStr(fields[i]) == k;
      }
      if exists i :: 0 <= i < |fields| && ToStr(fields[i]) == k {
        var i :| 0 <= i < |fields| && ToStr(fields[i]) == k;
        assert ks[i] == k;
      }
    }
  }

  /** `_convertObjectRow`: every own key of the row, its value kept as a scalar or blanked. */
  function ConvertObjectRow(fs: seq<Field>): (r: Record)
    ensures forall k :: k in Keys(r) <==> k in Keys(fs)
    ensures forall k :: k in Keys(fs) ==> Lookup(r, k) == ScalarOrBlank(Lookup(fs, k))
  {
    var ks := Keys(fs);
    var es := ObjectRowEntries(fs);
    assert Keys(es) == ks;
    forall k | k in ks ensures Lookup(PutAll([], es), k) == ScalarOrBlank(Lookup(fs, k)) {
      PutAllLookup([], es, k);
      LastValueUniform(es, k, ScalarOrBlank(Lookup(fs, k)));
    }
    PutAllEmptyKeys(es);
    PutAll([], es)
  }

  /** The assignments `_convertObjectRow` makes, one per own key of the row in order. */
  function ObjectRowEntries(fs: seq<Field>): seq<Field> {
    var ks := Keys(fs);
    seq(|ks|, i requires 0 <= i < |ks| => Field(ks[i], ScalarOrBlank(Lookup(fs, ks[i]))))
  }

  function Raw(x: JVal): Record {
    [Field("_raw", JStr(ToStr(x)))]
  }

  /** `_convertRowWithFields`: an array row is matched against the fields, an object row keeps
      its own keys whatever the fields are, anything else becomes `{_raw: String(row)}`. */
  function ConvertRowWithFields(row: JVal, fields: seq<JVal>): (r: Record)
    ensures row.JArr? ==> r == ConvertArrayRow(row.items, fields)
    ensures row.JObj? ==> r == ConvertObjectRow(row.fields)
    ensures !IsObjectLike(row) ==> r == Raw(row)
  {
    match row
    case JArr(items) => ConvertArrayRow(items, fields)
    case JObj(fs) => ConvertObjectRow(fs)
    case _ => Raw(row)
  }

  /** `_convertRowWithoutFields`: an array row becomes `{_raw: elements joined by " "}`, an
      object row is returned as it is, anything else becomes `{_raw: String(row)}`. */
  function ConvertRowWithoutFields(row: JVal): (r: Record)
    ensures row.JArr? ==> r == [Field("_raw", JStr(JoinValues(row.items, " ")))]
    ensures row.JObj? ==> r == row.fields
    ensures !IsObjectLike(row) ==> r == Raw(row)
  {
    match row
    case JArr(items) => [Field("_raw", JStr(JoinValues(items, " ")))]
    case JObj(fs) => fs
    case _ => Raw(row)
  }

  /** Whether `fields` is a usable, non-empty field list. */
  predicate HasFields(fields: JVal) {
    fields.JArr? && fields.items != []
  }

  /** `normalizeResults({fields, rows, results})`, with `undefined` for a missing property. A
      non-empty `results` array wins and gives one record per element; otherwise `rows` must be
      an array and gives one record per row, matched against the fields when there are some. */
  function NormalizeResults(fields: JVal, rows: JVal, results: JVal): (r: seq<Record>)
    ensures results.JArr? && results.items != [] ==>
      |r| == |results.items| && forall i :: 0 <= i < |r| ==> r[i] == NormalizeResultItem(results.items[i])
    ensures !(results.JArr? && results.items != []) && !rows.JArr? ==> r == []
    ensures !(results.JArr? && results.items != []) && rows.JArr? ==>
      && |r| == |rows.items|
      && (HasFields(fields) ==> forall i :: 0 <= i < |r| ==> r[i] == ConvertRowWithFields(rows.items[i], fields.items))
      && (!HasFields(fields) ==> forall i :: 0 <= i < |r| ==> r[i] == ConvertRowWithoutFields(rows.items[i]))
  {
    if results.JArr? && results.items != [] then
      seq(|results.items|, i requires 0 <= i < |results.items| => NormalizeResultItem(results.items[i]))
    else if !rows.JArr? then []
    else if !HasFields(fields) then
      seq(|rows.items|, i requires 0 <= i < |rows.items| => ConvertRowWithoutFields(rows.items[i]))
    else
      seq(|rows.items|, i requires 0 <= i < |rows.items| => ConvertRowWithFields(rows.items[i], fields.items))
  }

  // ---- properties ----

  /** With distinct field names, an array row becomes the record whose keys are exactly the
      field names, in order: the i-th element kept as a scalar or blanked, "" past the row's end,
      elements beyond the fields dropped. */
  lemma ArrayRowMatchesFields(row: seq<JVal>, names: seq<string>)
    requires forall i, j :: 0 <= i < j < |names| ==> names[i] != names[j]
    ensures
      var fields := seq(|names|, i requires 0 <= i < |names| => JStr(names[i]));
      ConvertArrayRow(row, fields) ==
        seq(|names|, i requires 0 <= i < |names| => Field(names[i], if i < |row| then ScalarOrBlank(row[i]) else JStr("")))
  {
    var fields := seq(|names|, i requires 0 <= i < |names| => JStr(names[i]));
    var es := ArrayRowEntries(row, fields);
    var want := seq(|names|, i requires 0 <= i < |names| => Field(names[i], if i < |row| then ScalarOrBlank(row[i]) else JStr("")));
    forall i | 0 <= i < |names| ensures es[i] == want[i] {
      assert ToStr(fields[i]) == names[i];
    }
    assert es == want;
    PutAllDistinct(es);
  }

  /** With distinct keys, an object row keeps its keys in order and each value is kept as a
      scalar or blanked. */
  lemma ObjectRowKeepsOwnKeys(fs: seq<Field>)
    requires DistinctKeys(fs)
    ensures ConvertObjectRow(fs) == seq(|fs|, i requires 0 <= i < |fs| => Field(fs[i].key, ScalarOrBlank(fs[i].value)))
  {
    var es := ObjectRowEntries(fs);
    var want := seq(|fs|, i requires 0 <= i < |fs| => Field(fs[i].key, ScalarOrBlank(fs[i].value)));
    assert es == want by {
      forall i | 0 <= i < |fs| ensures es[i] == want[i] {
        LookupDistinct(fs, i);
      }
    }
    PutAllDistinct(want);
  }

  /** The index names "0", "1", … of an array are pairwise different. */
  lemma IndexNamesDistinct(n: nat)
    ensures forall i, j :: 0 <= i < j < n ==> NatToString(i) != NatToString(j)
  {
    forall i, j | 0 <= i < j < n ensures NatToString(i) != NatToString(j) {
      ParseNatToString(i);
      ParseNatToString(j);
    }
  }

  /** Reading an array at the decimal name of an index gives the element there. */
  lemma ArrayPropAtIndexName(items: seq<JVal>, i: nat)
    requires i < |items|
    ensures Prop(JArr(items), NatToString(i)) == items[i]
  {
    ParseNatToString(i);
    assert NatToString(i) != "length" by {
      assert IsDigit(NatToString(i)[0]);
    }
  }

  /** An array inside `results` is treated as an object: its keys are the indices "0", "1", …
      and its values are normalised. */
  lemma ArrayResultGetsIndexKeys(items: seq<JVal>)
    ensures NormalizeResultItem(JArr(items)) ==
      seq(|items|, i requires 0 <= i < |items| => Field(NatToString(i), JStr(NormalizeValue(items[i]))))
  {
    var row := JArr(items);
    var ks := OwnKeys(row);
    var es := seq(|ks|, i requires 0 <= i < |ks| => Field(ks[i], JStr(NormalizeValue(Prop(row, ks[i])))));
    var want := seq(|items|, i requires 0 <= i < |items| => Field(NatToString(i), JStr(NormalizeValue(items[i]))));
    assert es == want by {
      forall i | 0 <= i < |items| ensures es[i] == want[i] {
        ArrayPropAtIndexName(items, i);
      }
    }
    assert DistinctKeys(es) by {
      IndexNamesDistinct(|items|);
    }
    PutAllDistinct(es);
  }

  /** Records whose values are all strings come back unchanged from the `results` path:
      normalising a string is the identity. */
  lemma StringRecordsPassThrough(fields: JVal, rows: JVal, records: seq<Record>)
    requires records != []
    requires forall n :: 0 <= n < |records| ==> DistinctKeys(records[n])
    requires forall n, i :: 0 <= n < |records| && 0 <= i < |records[n]| ==> records[n][i].value.JStr?
    ensures
      var results := seq(|records|, n requires 0 <= n < |records| => JObj(records[n]));
      NormalizeResults(fields, rows, JArr(results)) == records
  {
    var results := seq(|records|, n requires 0 <= n < |records| => JObj(records[n]));
    var r := NormalizeResults(fields, rows, JArr(results));
    forall n | 0 <= n < |records| ensures r[n] == records[n] {
      assert r[n] == CreateObjectFromRow(JObj(records[n]));
      StringRecordPassThrough(records[n]);
    }
  }

  /** A record whose values are all strings is its own normalisation. */
  lemma StringRecordPassThrough(fs: seq<Field>)
    requires DistinctKeys(fs)
    requires forall i :: 0 <= i < |fs| ==> fs[i].value.JStr?
    ensures CreateObjectFromRow(JObj(fs)) == fs
  {
    var ks := Keys(fs);
    var es := seq(|ks|, i requires 0 <= i < |ks| => Field(ks[i], JStr(NormalizeValue(Prop(JObj(fs), ks[i])))));
    forall i | 0 <= i < |fs| ensures es[i] == fs[i] {
      LookupDistinct(fs, i);
    }
    assert es == fs;
    PutAllDistinct(es);
  }

  /** The `_raw` text of an array row without fields splits back on " " into the row, when the
      row holds strings without spaces. */
  lemma RawRowSplitsBack(words: seq<string>)
    requires words != []
    requires forall i :: 0 <= i < |words| ==> ' ' !in words[i]
    ensures
      var row := seq(|words|, i requires 0 <= i < |words| => JStr(words[i]));
      ConvertRowWithoutFields(JArr(row)) == [Field("_raw", JStr(JoinValues(row, " ")))]
      && Split(JoinValues(row, " "), ' ') == words
  {
    var row := seq(|words|, i requires 0 <= i < |words| => JStr(words[i]));
    JoinStrings(row, words, " ");
    SplitJoin(words, ' ');
  }

  /** Joining string values joins their texts. */
  lemma {:induction false} JoinStrings(row: seq<JVal>, words: seq<string>, sep: string)
    requires |row| == |words|
    requires forall i :: 0 <= i < |row| ==> row[i] == JStr(words[i])
    ensures JoinValues(row, sep) == Join(words, sep)
    decreases |row|
  {
    if |row| > 1 {
      JoinStrings(row[1..], words[1..], sep);
    }
  }

  /** `normalizeResults({results: [1, {a: 2}]})` is `[{_raw: "1"}, {a: "2"}]`. */
  lemma PrimitiveAndObjectResults()
    ensures NormalizeResults(JUndef, JUndef, JArr([JNum(1), JObj([Field("a", JNum(2))])])) ==
      [[Field("_raw", JStr("1"))], [Field("a", JStr("2"))]]
  {
    var obj := [Field("a", JNum(2))];
    var r := NormalizeResults(JUndef, JUndef, JArr([JNum(1), JObj(obj)]));
    assert r[0] == [Field("_raw", JStr("1"))];
    var es := [Field("a", JStr(NormalizeValue(Prop(JObj(obj), "a"))))];
    assert Prop(JObj(obj), "a") == JNum(2);
    assert NormalizeValue(JNum(2)) == "2";
    PutAllDistinct(es);
    assert r[1] == es;
  }

  /** `normalizeResults({fields: ["a","b"], rows: [[1, 2], [3, 4]]})` is
      `[{a: 1, b: 2}, {a: 3, b: 4}]`. */
  lemma ArrayRowsWithFields()
    ensures NormalizeResults(JArr([JStr("a"), JStr("b")]), JArr([JArr([JNum(1), JNum(2)]), JArr([JNum(3), JNum(4)])]), JUndef) ==
      [[Field("a", JNum(1)), Field("b", JNum(2))], [Field("a", JNum(3)), Field("b", JNum(4))]]
  {
    PairRows(JNum(1), JNum(2), JNum(3), JNum(4));
  }

  /** Two rows of two numbers each, matched against the fields `a` and `b`. */
  lemma PairRows(w: JVal, x: JVal, y: JVal, z: JVal)
    requires w.JNum? && x.JNum? && y.JNum? && z.JNum?
    ensures NormalizeResults(JArr([JStr("a"), JStr("b")]), JArr([JArr([w, x]), JArr([y, z])]), JUndef) ==
      [[Field("a", w), Field("b", x)], [Field("a", y), Field("b", z)]]
  {
    var fields := [JStr("a"), JStr("b")];
    var r := NormalizeResults(JArr(fields), JArr([JArr([w, x]), JArr([y, z])]), JUndef);
    assert r[0] == ConvertArrayRow([w, x], fields);
    assert r[1] == ConvertArrayRow([y, z], fields);
    PairRow(w, x);
    PairRow(y, z);
  }

  /** A two-element row of numbers matched against the fields `a` and `b`. */
  lemma PairRow(x: JVal, y: JVal)
    requires x.JNum? && y.JNum?
    ensures ConvertArrayRow([x, y], [JStr("a"), JStr("b")]) == [Field("a", x), Field("b", y)]
  {
    var names := ["a", "b"];
    assert [JStr("a"), JStr("b")] == seq(|names|, i requires 0 <= i < |names| => JStr(names[i]));
    ArrayRowMatchesFields([x, y], names);
  }

  /** Without fields, `[["x","y"], {a: 1}, "raw"]` becomes `[{_raw: "x y"}, {a: 1}, {_raw: "raw"}]`:
      the object row keeps its number. */
  lemma RowsWithoutFields()
    ensures NormalizeResults(JUndef, JArr([JArr([JStr("x"), JStr("y")]), JObj([Field("a", JNum(1))]), JStr("raw")]), JUndef) ==
      [[Field("_raw", JStr("x y"))], [Field("a", JNum(1))], [Field("_raw", JStr("raw"))]]
  {
    JoinStrings([JStr("x"), JStr("y")], ["x", "y"], " ");
    assert Join(["x", "y"], " ") == "x y";
  }
}
