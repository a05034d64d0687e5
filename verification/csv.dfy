/** The text `writeCsv` writes: a header of the first record's keys, then one line per record.
    Cells are written with `JSON.stringify`, so a string cell keeps its quotes and escapes. */
module Csv {
  import opened Basics
  import opened Text
  import opened Json
  import opened Normalize

  /** One cell: `null`, `undefined`, objects and arrays give an empty cell, every other value
      its JSON text. */
  function Cell(v: JVal): (r: string)
    ensures r == [] <==> v.JNull? || v.JUndef? || IsObjectLike(v)
    ensures !(v.JNull? || v.JUndef? || IsObjectLike(v)) ==> Stringify(v) == Some(r)
    ensures v.JStr? ==> Unquote(r) == Some(v.s)
    ensures v.JNum? ==> r == IntToString(v.n)
    ensures '\n' !in r
  {
    match v
    case JNull => ""
    case JUndef => ""
    case JArr(_) => ""
    case JObj(_) => ""
    case JBool(b) => if b then "true" else "false"
    case JStr(s) =>
      QuoteRoundTrip(s);
      EscapeIsPrintable(s);
      assert forall i :: 0 <= i < |Quote(s)| ==> Quote(s)[i] != '\n' by {
        forall i | 0 <= i < |Quote(s)| ensures Quote(s)[i] != '\n' {
          if 0 < i < |Quote(s)| - 1 {
            assert Quote(s)[i] == Escape(s)[i - 1];
          }
        }
      }
      Quote(s)
    case JNum(n) =>
      assert forall i :: 0 <= i < |IntToString(n)| ==> IntToString(n)[i] != '\n' by {
        if n < 0 {
          forall i | 0 <= i < |IntToString(n)| ensures IntToString(n)[i] != '\n' {
            if i > 0 {
              assert IntToString(n)[i] == NatToString(-n)[i - 1];
            }
          }
        }
      }
      IntToString(n)
  }

  /** The cells of one record under the header keys: `o[k]` for each key, in header order. A key
      the record lacks reads `undefined`; keys the header lacks are not written. */
  function Cells(keys: seq<string>, o: Record): (r: seq<string>)
    ensures |r| == |keys|
    ensures forall i :: 0 <= i < |keys| ==> r[i] == Cell(Lookup(o, keys[i]))
  {
    seq(|keys|, i requires 0 <= i < |keys| => Cell(Lookup(o, keys[i])))
  }

  /** The lines of the file: the header, then one line per record. None for no records. */
  function Lines(objects: seq<Record>): (r: seq<string>)
    ensures objects == [] ==> r == []
    ensures objects != [] ==> |r| == |objects| + 1 && r[0] == Join(Keys(objects[0]), ",")
    ensures objects != [] ==>
      forall i :: 0 <= i < |objects| ==> r[i + 1] == Join(Cells(Keys(objects[0]), objects[i]), ",")
  {
    if objects == [] then []
    else
      var keys := Keys(objects[0]);
      var rows := RecordLines(keys, objects);
      var r := [Join(keys, ",")] + rows;
      assert forall i :: 0 <= i < |rows| ==> r[i + 1] == rows[i];
      r
  }

  /** One line per record, its cells under `keys` joined by commas. */
  function RecordLines(keys: seq<string>, objects: seq<Record>): (r: seq<string>)
    ensures |r| == |objects|
    ensures forall i :: 0 <= i < |objects| ==> r[i] == Join(Cells(keys, objects[i]), ",")
  {
    seq(|objects|, i requires 0 <= i < |objects| => Join(Cells(keys, objects[i]), ","))
  }

  /** `writeCsv`'s file content: empty for no records, else the lines joined by "\n" with no
      newline at the end. */
  function CsvText(objects: seq<Record>): (r: string)
    ensures objects == [] <==> r == []
  {
    if objects == [] then ""
    else
      var lines := Lines(objects);
      assert |lines| >= 2;
      JoinNonEmpty(lines, "\n");
      Join(lines, "\n")
  }

  /** Joining at least two parts with a non-empty separator gives non-empty text. */
  lemma JoinNonEmpty(parts: seq<string>, sep: string)
    requires |parts| >= 2 && sep != []
    ensures Join(parts, sep) != []
  {
    assert Join(parts, sep) == parts[0] + sep + Join(parts[1..], sep);
  }

  // ---- properties ----

  /** Splitting the file on "\n" gives back the header and exactly one line per record, as long
      as no header key contains a line feed: cells never do. */
  lemma CsvTextSplitsIntoLines(objects: seq<Record>)
    requires objects != []
    requires forall k :: k in Keys(objects[0]) ==> '\n' !in k
    ensures Split(CsvText(objects), '\n') == Lines(objects)
    ensures |Split(CsvText(objects), '\n')| == |objects| + 1
  {
    LinesHaveNoLineFeed(objects);
    SplitJoin(Lines(objects), '\n');
  }

  /** No line of the file holds a line feed when no header key does. */
  lemma LinesHaveNoLineFeed(objects: seq<Record>)
    requires objects != []
    requires forall k :: k in Keys(objects[0]) ==> '\n' !in k
    ensures forall i :: 0 <= i < |Lines(objects)| ==> '\n' !in Lines(objects)[i]
  {
    var lines := Lines(objects);
    var keys := Keys(objects[0]);
    forall i | 0 <= i < |lines| ensures '\n' !in lines[i] {
      if i == 0 {
        JoinExcludes(keys, ",", '\n');
      } else {
        RecordLineHasNoLineFeed(keys, objects[i - 1]);
      }
    }
  }

  /** A record's line holds no line feed: none of its cells does. */
  lemma RecordLineHasNoLineFeed(keys: seq<string>, o: Record)
    ensures '\n' !in Join(Cells(keys, o), ",")
  {
    JoinExcludes(Cells(keys, o), ",", '\n');
  }

  /** A data line splits on "," into its cells, one per header key, when no cell contains a
      comma. */
  lemma LineSplitsIntoCells(keys: seq<string>, o: Record)
    requires keys != []
    requires forall i :: 0 <= i < |keys| ==> ',' !in Cell(Lookup(o, keys[i]))
    ensures Split(Join(Cells(keys, o), ","), ',') == Cells(keys, o)
  {
    SplitJoin(Cells(keys, o), ',');
  }

  /** The file for `[{a: 1, b: "x"}]` starts with the line `a,b` and its data line is `1,"x"`. */
  lemma OneRecordFile()
    ensures Lines([[Field("a", JNum(1)), Field("b", JStr("x"))]]) == ["a,b", "1,\"x\""]
  {
    var o := [Field("a", JNum(1)), Field("b", JStr("x"))];
    assert Keys(o) == ["a", "b"];
    assert Lookup(o, "a") == JNum(1);
    assert Lookup(o, "b") == JStr("x");
    assert Cell(JNum(1)) == "1";
    assert Cell(JStr("x")) == "\"x\"";
    assert Cells(["a", "b"], o) == ["1", "\"x\""];
    assert Join(["a", "b"], ",") == "a,b";
    assert Join(["1", "\"x\""], ",") == "1,\"x\"";
  }
}
