/** What the console writers print with `console.log`, one string per call: the table of
    `writeConsole` and the key/value listing of `writeConsoleSimple`. The log lines of the
    logger around them are not part of this. */
module ConsoleLayout {
  import opened Text
  import opened Json
  import opened Normalize

  /** The narrowest a column is drawn. */
  const MinWidth: nat := 8

  /** `String(v || '')`: the text of a truthy value, "" for a falsy one. */
  function Rendered(v: JVal): (r: string)
    ensures Truthy(v) ==> r == ToStr(v)
    ensures !Truthy(v) ==> r == ""
  {
    if Truthy(v) then ToStr(v) else ""
  }

  /** The length of the cell of `o` under `field`. */
  function CellLength(o: Record, field: string): nat {
    Utf16Length(Rendered(Lookup(o, field)))
  }

  /** `Math.max(...objects.map(obj => String(obj[field] || '').length))`. */
  function MaxCellLength(field: string, objects: seq<Record>): (m: nat)
    requires objects != []
    ensures forall i :: 0 <= i < |objects| ==> CellLength(objects[i], field) <= m
    ensures exists i :: 0 <= i < |objects| && CellLength(objects[i], field) == m
    decreases |objects|
  {
    var here := CellLength(objects[0], field);
    if |objects| == 1 then here
    else
      var rest := MaxCellLength(field, objects[1..]);
      assert forall i :: 1 <= i < |objects| ==> objects[i] == objects[1..][i - 1];
      if here >= rest then here
      else
        ghost var j :| 0 <= j < |objects[1..]| && CellLength(objects[1..][j], field) == rest;
        assert CellLength(objects[j + 1], field) == rest;
        rest
  }

  /** The width of a column: the widest of the key, every cell and `MinWidth`. */
  function Width(field: string, objects: seq<Record>): (w: nat)
    requires objects != []
    ensures w >= MinWidth && w >= Utf16Length(field)
    ensures forall i :: 0 <= i < |objects| ==> CellLength(objects[i], field) <= w
    ensures || w == MinWidth || w == Utf16Length(field)
            || exists i :: 0 <= i < |objects| && CellLength(objects[i], field) == w
  {
    Max(Max(Utf16Length(field), MaxCellLength(field, objects)), MinWidth)
  }

  function Widths(fields: seq<string>, objects: seq<Record>): (ws: seq<nat>)
    requires objects != []
    ensures |ws| == |fields|
    ensures forall i :: 0 <= i < |fields| ==> ws[i] == Width(fields[i], objects)
  {
    seq(|fields|, i requires 0 <= i < |fields| => Width(fields[i], objects))
  }

  /** The column names, each padded to its width, joined by " | ". */
  function HeaderLine(fields: seq<string>, ws: seq<nat>): string
    requires |fields| == |ws|
  {
    Join(seq(|fields|, i requires 0 <= i < |fields| => PadEnd(fields[i], ws[i])), " | ")
  }

  /** One run of `-` per column, as wide as the column, joined by "-+-". */
  function SeparatorLine(ws: seq<nat>): string {
    Join(seq(|ws|, i requires 0 <= i < |ws| => Repeat('-', ws[i])), "-+-")
  }

  /** The cells of one record, each padded to its column's width, joined by " | ". */
  function DataLine(fields: seq<string>, ws: seq<nat>, o: Record): string
    requires |fields| == |ws|
  {
    Join(seq(|fields|, i requires 0 <= i < |fields| => PadEnd(Rendered(Lookup(o, fields[i])), ws[i])), " | ")
  }

  /** The data line of every record, in order. */
  function DataLines(fields: seq<string>, ws: seq<nat>, objects: seq<Record>): (rows: seq<string>)
    requires |fields| == |ws|
    ensures |rows| == |objects|
    ensures forall k :: 0 <= k < |objects| ==> rows[k] == DataLine(fields, ws, objects[k])
  {
    seq(|objects|, k requires 0 <= k < |objects| => DataLine(fields, ws, objects[k]))
  }

  /** A blank line follows the row at index `i` of `n` when it is a tenth row and not the last. */
  predicate BlankAfter(i: nat, n: nat) {
    (i + 1) % 10 == 0 && i + 1 < n
  }

  /** The data lines from row `i` on, each followed by a blank line where `BlankAfter` says so. */
  function DataFrom(rows: seq<string>, i: nat): seq<string>
    decreases |rows| - i
  {
    if i >= |rows| then []
    else [rows[i]] + (if BlankAfter(i, |rows|) then [""] else []) + DataFrom(rows, i + 1)
  }

  /** `writeConsole`: nothing for no records; otherwise the header, the separator, the data lines
      with their blank lines, and a closing blank line. The columns are the first record's keys. */
  function TableLines(objects: seq<Record>): (r: seq<string>)
    ensures objects == [] <==> r == []
  {
    if objects == [] then []
    else
      var fields := Keys(objects[0]);
      var ws := Widths(fields, objects);
      [HeaderLine(fields, ws), SeparatorLine(ws)] + DataFrom(DataLines(fields, ws, objects), 0) + [""]
  }

  /** The heading line of the record at index `k`: its 1-based number in brackets, after a
      line break. */
  function Heading(k: nat): string {
    "\n[" + NatToString(k + 1) + "]"
  }

  /** The lines `writeConsoleSimple` prints for the record at index `k`: `\n[k+1]`, then
      `  key: value` for each own property in order. */
  function SimpleBlock(k: nat, o: Record): (r: seq<string>)
    ensures |r| == 1 + |o|
    ensures r[0] == Heading(k)
  {
    var ks := Keys(o);
    [Heading(k)] + seq(|ks|, j requires 0 <= j < |ks| => "  " + ks[j] + ": " + ToStr(Lookup(o, ks[j])))
  }

  /** Every record's block, in record order. */
  function SimpleBlocks(objects: seq<Record>): (bs: seq<seq<string>>)
    ensures |bs| == |objects|
    ensures forall k :: 0 <= k < |objects| ==> bs[k] == SimpleBlock(k, objects[k])
  {
    seq(|objects|, k requires 0 <= k < |objects| => SimpleBlock(k, objects[k]))
  }

  /** The lines of all blocks, one block after the other. */
  function Concat(bs: seq<seq<string>>): seq<string>
  {
    if bs == [] then [] else bs[0] + Concat(bs[1..])
  }

  /** `writeConsoleSimple`: nothing for no records; otherwise each record's block and a closing
      blank line. */
  function SimpleLines(objects: seq<Record>): (r: seq<string>)
    ensures objects == [] <==> r == []
    ensures objects != [] ==> r[|r| - 1] == ""
  {
    if objects == [] then [] else Concat(SimpleBlocks(objects)) + [""]
  }

  // ---- properties ----

  function Sum(ws: seq<nat>): nat {
    if ws == [] then 0 else ws[0] + Sum(ws[1..])
  }

  /** The length of every line of a table with these column widths: the widths and a
      three-character separator between neighbouring columns. */
  function LineWidth(ws: seq<nat>): nat {
    if ws == [] then 0 else Sum(ws) + 3 * (|ws| - 1)
  }

  /** Parts of the given widths joined by a three-unit separator make a line of `LineWidth`. */
  lemma {:induction false} JoinWidth(parts: seq<string>, ws: seq<nat>, sep: string)
    requires |parts| == |ws|
    requires forall i :: 0 <= i < |parts| ==> Utf16Length(parts[i]) == ws[i]
    requires Utf16Length(sep) == 3
    ensures Utf16Length(Join(parts, sep)) == LineWidth(ws)
    decreases |parts|
  {
    if |parts| > 1 {
      JoinWidth(parts[1..], ws[1..], sep);
      assert Join(parts, sep) == (parts[0] + sep) + Join(parts[1..], sep);
      Utf16LengthAppend(parts[0] + sep, Join(parts[1..], sep));
      Utf16LengthAppend(parts[0], sep);
      assert Sum(ws) == ws[0] + Sum(ws[1..]);
    } else if |parts| == 1 {
      assert Sum(ws) == ws[0] + Sum(ws[1..]);
      assert Sum(ws[1..]) == 0;
    }
  }

  lemma SeparatorsAreThreeUnits()
    ensures Utf16Length(" | ") == 3 && Utf16Length("-+-") == 3
  {
    assert " | "[1..] == "| " && "| "[1..] == " " && " "[1..] == "";
    assert "-+-"[1..] == "+-" && "+-"[1..] == "-" && "-"[1..] == "";
  }

  /** The header, the separator and every data line of a table have the same length: the sum of
      the column widths plus three for each gap between columns. */
  lemma TableLinesEqualWidth(objects: seq<Record>)
    requires objects != []
    ensures
      var fields := Keys(objects[0]);
      var ws := Widths(fields, objects);
      && Utf16Length(HeaderLine(fields, ws)) == LineWidth(ws)
      && Utf16Length(SeparatorLine(ws)) == LineWidth(ws)
      && forall i :: 0 <= i < |objects| ==> Utf16Length(DataLine(fields, ws, objects[i])) == LineWidth(ws)
  {
    var fields := Keys(objects[0]);
    var ws := Widths(fields, objects);
    SeparatorsAreThreeUnits();
    var head := seq(|fields|, i requires 0 <= i < |fields| => PadEnd(fields[i], ws[i]));
    JoinWidth(head, ws, " | ");
    var dashes := seq(|ws|, i requires 0 <= i < |ws| => Repeat('-', ws[i]));
    forall i | 0 <= i < |ws| ensures Utf16Length(dashes[i]) == ws[i] {
      Utf16LengthOfBmpRun('-', ws[i]);
    }
    JoinWidth(dashes, ws, "-+-");
    forall k | 0 <= k < |objects| ensures Utf16Length(DataLine(fields, ws, objects[k])) == LineWidth(ws) {
      var cells := seq(|fields|, i requires 0 <= i < |fields| => PadEnd(Rendered(Lookup(objects[k], fields[i])), ws[i]));
      forall i | 0 <= i < |fields| ensures Utf16Length(cells[i]) == ws[i] {
        assert CellLength(objects[k], fields[i]) <= ws[i];
      }
      JoinWidth(cells, ws, " | ");
    }
  }

  /** One more row crosses a multiple of ten exactly when the next row number is one. */
  lemma DivTenStep(s: nat)
    ensures (s + 1) / 10 == s / 10 + (if (s + 1) % 10 == 0 then 1 else 0)
  {
  }

  /** The number of lines from row `s` on: the rows and one blank line per multiple of ten
      passed before the last row. */
  lemma {:induction false} DataFromLength(rows: seq<string>, s: nat)
    requires s < |rows|
    ensures |DataFrom(rows, s)| == (|rows| - s) + ((|rows| - 1) / 10 - s / 10)
    decreases |rows| - s
  {
    DivTenStep(s);
    if s + 1 < |rows| {
      DataFromLength(rows, s + 1);
    }
  }

  /** Row `i` lands after the rows before it and the blank lines between them, and a blank line
      follows it exactly where `BlankAfter` says so. */
  lemma {:induction false} DataFromRowAt(rows: seq<string>, s: nat, i: nat)
    requires s <= i < |rows|
    ensures
      var d := DataFrom(rows, s);
      var p := (i - s) + (i / 10 - s / 10);
      && p + (if BlankAfter(i, |rows|) then 1 else 0) < |d|
      && d[p] == rows[i]
      && (BlankAfter(i, |rows|) ==> d[p + 1] == "")
    decreases i - s
  {
    var d := DataFrom(rows, s);
    var blank := if BlankAfter(s, |rows|) then [""] else [];
    var rest := DataFrom(rows, s + 1);
    assert d == [rows[s]] + blank + rest;
    if i > s {
      DataFromRowAt(rows, s + 1, i);
      DivTenStep(s);
      assert (s + 1) / 10 == s / 10 + |blank|;
      var q := (i - (s + 1)) + (i / 10 - (s + 1) / 10);
      assert (i - s) + (i / 10 - s / 10) == 1 + |blank| + q;
    }
  }

  /** Where the lines from row `s` on land: row `i` after the rows before it and the blank lines
      between, a blank line right after each row that `BlankAfter` marks. */
  lemma DataFromLayout(rows: seq<string>, s: nat)
    requires s < |rows|
    ensures |DataFrom(rows, s)| == (|rows| - s) + ((|rows| - 1) / 10 - s / 10)
    ensures forall i :: s <= i < |rows| ==> DataFrom(rows, s)[(i - s) + (i / 10 - s / 10)] == rows[i]
    ensures forall i :: s <= i < |rows| && BlankAfter(i, |rows|) ==>
      DataFrom(rows, s)[(i - s) + (i / 10 - s / 10) + 1] == ""
  {
    DataFromLength(rows, s);
    forall i | s <= i < |rows| ensures DataFrom(rows, s)[(i - s) + (i / 10 - s / 10)] == rows[i] {
      DataFromRowAt(rows, s, i);
    }
    forall i | s <= i < |rows| && BlankAfter(i, |rows|)
      ensures DataFrom(rows, s)[(i - s) + (i / 10 - s / 10) + 1] == ""
    {
      DataFromRowAt(rows, s, i);
    }
  }

  /** Two heading lines, the data lines from the first row on and a closing blank line make
      `3 + n + (n - 1) / 10` lines, with row `i` at `2 + i + i / 10`. */
  lemma FramedLayout(h: string, sep: string, rows: seq<string>)
    requires rows != []
    ensures
      var n := |rows|;
      var r := [h, sep] + DataFrom(rows, 0) + [""];
      && |r| == 3 + n + (n - 1) / 10
      && r[0] == h && r[1] == sep && r[|r| - 1] == ""
      && (forall i :: 0 <= i < n ==> r[2 + i + i / 10] == rows[i])
      && (forall i :: 0 <= i < n && BlankAfter(i, n) ==> r[3 + i + i / 10] == "")
  {
    var n := |rows|;
    var d := DataFrom(rows, 0);
    var r := [h, sep] + d + [""];
    DataFromLength(rows, 0);
    forall i | 0 <= i < n ensures r[2 + i + i / 10] == rows[i] {
      DataFromRowAt(rows, 0, i);
      assert r[2 + i + i / 10] == d[i + i / 10];
    }
    forall i | 0 <= i < n && BlankAfter(i, n) ensures r[3 + i + i / 10] == "" {
      DataFromRowAt(rows, 0, i);
      assert r[3 + i + i / 10] == d[i + i / 10 + 1];
    }
  }

  /** The table of n records has `3 + n + (n - 1) / 10` lines: the header, the separator, the
      rows, a blank line after every tenth row but the last, and the closing blank line. */
  lemma TableLinesLayout(objects: seq<Record>)
    requires objects != []
    ensures
      var n := |objects|;
      var fields := Keys(objects[0]);
      var ws := Widths(fields, objects);
      var r := TableLines(objects);
      && |r| == 3 + n + (n - 1) / 10
      && r[0] == HeaderLine(fields, ws) && r[1] == SeparatorLine(ws) && r[|r| - 1] == ""
      && (forall i :: 0 <= i < n ==> r[2 + i + i / 10] == DataLine(fields, ws, objects[i]))
      && (forall i :: 0 <= i < n && BlankAfter(i, n) ==> r[3 + i + i / 10] == "")
  {
    var fields := Keys(objects[0]);
    var ws := Widths(fields, objects);
    var rows := DataLines(fields, ws, objects);
    FramedLayout(HeaderLine(fields, ws), SeparatorLine(ws), rows);
  }

  /** Twelve records give sixteen lines, the thirteenth of them the blank line after the tenth row. */
  lemma TwelveRowsHaveInnerBlank(objects: seq<Record>)
    requires |objects| == 12
    ensures |TableLines(objects)| == 16 && TableLines(objects)[12] == ""
  {
    TableLinesLayout(objects);
    assert BlankAfter(9, 12);
  }

  /** With distinct keys, a record's block lists its properties in order as `  key: value`. */
  lemma SimpleBlockEntries(k: nat, o: Record)
    requires DistinctKeys(o)
    ensures forall j :: 0 <= j < |o| ==> SimpleBlock(k, o)[j + 1] == "  " + o[j].key + ": " + ToStr(o[j].value)
  {
    forall j | 0 <= j < |o| ensures SimpleBlock(k, o)[j + 1] == "  " + o[j].key + ": " + ToStr(o[j].value) {
      LookupDistinct(o, j);
    }
  }

  /** The line count of each block. */
  function Lengths(bs: seq<seq<string>>): (ns: seq<nat>)
    ensures |ns| == |bs|
    ensures forall i :: 0 <= i < |bs| ==> ns[i] == |bs[i]|
  {
    seq(|bs|, i requires 0 <= i < |bs| => |bs[i]|)
  }

  /** Joining blocks gives as many lines as the blocks hold together. */
  lemma {:induction false} ConcatLength(bs: seq<seq<string>>)
    ensures |Concat(bs)| == Sum(Lengths(bs))
  {
    if bs != [] {
      ConcatLength(bs[1..]);
      assert Lengths(bs)[1..] == Lengths(bs[1..]);
    }
  }

  /** The simple listing has one heading line per record, one line per property and a closing
      blank line. */
  lemma SimpleLinesCount(objects: seq<Record>)
    requires objects != []
    ensures |SimpleLines(objects)| == 1 + Sum(seq(|objects|, j requires 0 <= j < |objects| => 1 + |objects[j]|))
  {
    var bs := SimpleBlocks(objects);
    ConcatLength(bs);
    assert Lengths(bs) == seq(|objects|, j requires 0 <= j < |objects| => 1 + |objects[j]|);
  }

  /** Where block `k` starts once the blocks are joined: after the blocks before it. */
  function Offset(bs: seq<seq<string>>, k: nat): nat
    requires k <= |bs|
  {
    if k == 0 then 0 else Offset(bs, k - 1) + |bs[k - 1]|
  }

  lemma {:induction false} OffsetTail(bs: seq<seq<string>>, k: nat)
    requires 1 <= k <= |bs|
    ensures Offset(bs, k) == |bs[0]| + Offset(bs[1..], k - 1)
  {
    if k > 1 {
      OffsetTail(bs, k - 1);
      assert bs[1..][k - 2] == bs[k - 1];
    }
  }

  lemma SliceOfLeft(a: seq<string>, b: seq<string>, off: nat, m: nat)
    requires off + m <= |a|
    ensures (a + b)[off..off + m] == a[off..off + m]
  {
  }

  lemma SliceOfRight(a: seq<string>, b: seq<string>, off: nat, m: nat)
    requires off + m <= |b|
    ensures (a + b)[|a| + off..|a| + off + m] == b[off..off + m]
  {
  }

  /** Block `k` is found, whole, at its offset in the joined blocks. */
  lemma {:induction false} ConcatAt(bs: seq<seq<string>>, k: nat)
    requires k < |bs|
    ensures Offset(bs, k) + |bs[k]| <= |Concat(bs)|
    ensures Concat(bs)[Offset(bs, k)..Offset(bs, k) + |bs[k]|] == bs[k]
  {
    var rest := Concat(bs[1..]);
    assert Concat(bs) == bs[0] + rest;
    if k == 0 {
      SliceOfLeft(bs[0], rest, 0, |bs[0]|);
      assert bs[0][0..|bs[0]|] == bs[0];
    } else {
      ConcatAt(bs[1..], k - 1);
      OffsetTail(bs, k);
      assert bs[1..][k - 1] == bs[k];
      SliceOfRight(bs[0], rest, Offset(bs[1..], k - 1), |bs[k]|);
    }
  }

  /** The joined blocks end where the last block does. */
  lemma {:induction false} ConcatEnd(bs: seq<seq<string>>)
    ensures |Concat(bs)| == Offset(bs, |bs|)
  {
    if bs != [] {
      ConcatEnd(bs[1..]);
      OffsetTail(bs, |bs|);
    }
  }

  /** `b` occurs in `r` starting at index `off`. */
  predicate BlockAt(r: seq<string>, off: nat, b: seq<string>) {
    off + |b| <= |r| && r[off..off + |b|] == b
  }

  /** The listing is the records' blocks one after the other, record `k`'s block starting with
      its heading `\n[k+1]`, and then one blank line. */
  lemma SimpleLinesLayout(objects: seq<Record>)
    requires objects != []
    ensures |SimpleLines(objects)| == Offset(SimpleBlocks(objects), |objects|) + 1
    ensures SimpleLines(objects)[|SimpleLines(objects)| - 1] == ""
    ensures forall k :: 0 <= k < |objects| ==>
      BlockAt(SimpleLines(objects), Offset(SimpleBlocks(objects), k), SimpleBlock(k, objects[k]))
    ensures forall k :: 0 <= k < |objects| ==>
      Offset(SimpleBlocks(objects), k) < |SimpleLines(objects)| &&
      SimpleLines(objects)[Offset(SimpleBlocks(objects), k)] == Heading(k)
  {
    ConcatEnd(SimpleBlocks(objects));
    forall k | 0 <= k < |objects|
      ensures BlockAt(SimpleLines(objects), Offset(SimpleBlocks(objects), k), SimpleBlock(k, objects[k]))
      ensures Offset(SimpleBlocks(objects), k) < |SimpleLines(objects)|
      ensures SimpleLines(objects)[Offset(SimpleBlocks(objects), k)] == Heading(k)
    {
      RecordBlockInListing(objects, k);
    }
  }

  /** Record `k`'s block, heading first, at its offset in the listing. */
  lemma RecordBlockInListing(objects: seq<Record>, k: nat)
    requires k < |objects|
    ensures BlockAt(SimpleLines(objects), Offset(SimpleBlocks(objects), k), SimpleBlock(k, objects[k]))
    ensures Offset(SimpleBlocks(objects), k) < |SimpleLines(objects)|
    ensures SimpleLines(objects)[Offset(SimpleBlocks(objects), k)] == Heading(k)
  {
    var bs := SimpleBlocks(objects);
    var b := SimpleBlock(k, objects[k]);
    assert SimpleLines(objects) == Concat(bs) + [""];
    assert bs[k] == b;
    BlockInListing(bs, k);
  }

  /** One block of the joined blocks followed by the closing blank line. */
  lemma BlockInListing(bs: seq<seq<string>>, k: nat)
    requires k < |bs| && bs[k] != []
    ensures BlockAt(Concat(bs) + [""], Offset(bs, k), bs[k])
    ensures (Concat(bs) + [""])[Offset(bs, k)] == bs[k][0]
  {
    ConcatAt(bs, k);
    SliceOfLeft(Concat(bs), [""], Offset(bs, k), |bs[k]|);
  }

  /** `[{foo: "bar", num: 3}]` is listed as `\n[1]`, `  foo: bar`, `  num: 3` and a blank line. */
  lemma SimpleListingExample()
    ensures SimpleLines([[Field("foo", JStr("bar")), Field("num", JNum(3))]]) ==
      ["\n[1]", "  foo: bar", "  num: 3", ""]
  {
    var o := [Field("foo", JStr("bar")), Field("num", JNum(3))];
    SimpleBlockEntries(0, o);
    assert NatToString(1) == "1";
    assert ToStr(JNum(3)) == "3";
    assert ToStr(JStr("bar")) == "bar";
    assert "\n[" + "1" + "]" == "\n[1]";
    assert "  " + "foo" + ": " + "bar" == "  foo: bar";
    assert "  " + "num" + ": " + "3" == "  num: 3";
    assert SimpleBlock(0, o) == ["\n[1]", "  foo: bar", "  num: 3"];
    assert SimpleBlocks([o]) == [SimpleBlock(0, o)];
    assert Concat([SimpleBlock(0, o)]) == SimpleBlock(0, o) + Concat([]);
  }
}
