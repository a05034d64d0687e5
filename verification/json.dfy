/** JavaScript values as they arrive from `JSON.parse` or from a response object, together with
    the runtime operations the modelled code applies to them: truthiness, `typeof`, property
    access, `String(v)`, `Array.prototype.join` and `JSON.stringify`. Numbers are integers. */
module Json {
  import opened Basics
  import opened Text

  datatype JVal =
    | JNull
    | JUndef
    | JBool(b: bool)
    | JNum(n: int)
    | JStr(s: string)
    | JArr(items: seq<JVal>)
    | JObj(fields: seq<Field>)

  /** One own property of an object. The fields of an object keep their insertion order. */
  datatype Field = Field(key: string, value: JVal)

  /** JavaScript truthiness: `null`, `undefined`, `false`, `0` and `""` are falsy; every array
      and every object, empty or not, is truthy. */
  predicate Truthy(v: JVal) {
    match v
    case JNull => false
    case JUndef => false
    case JBool(b) => b
    case JNum(n) => n != 0
    case JStr(s) => s != []
    case JArr(_) => true
    case JObj(_) => true
  }

  /** `typeof v === 'object'`, which also holds for `null` and for arrays. */
  predicate IsTypeofObject(v: JVal) {
    v.JNull? || v.JArr? || v.JObj?
  }

  /** `v && typeof v === 'object'`: an array or an object. */
  predicate IsObjectLike(v: JVal) {
    v.JArr? || v.JObj?
  }

  /** `Object.keys` of an object. */
  function Keys(fs: seq<Field>): (r: seq<string>)
    ensures |r| == |fs|
    ensures forall i :: 0 <= i < |fs| ==> r[i] == fs[i].key
  {
    seq(|fs|, i requires 0 <= i < |fs| => fs[i].key)
  }

  /** The keys of a non-empty object are its first key, then the keys of the rest. */
  lemma KeysCons(fs: seq<Field>)
    requires fs != []
    ensures Keys(fs) == [fs[0].key] + Keys(fs[1..])
  {
    var ks := [fs[0].key] + Keys(fs[1..]);
    forall i | 0 <= i < |fs| ensures Keys(fs)[i] == ks[i] {
      if i > 0 {
        assert fs[1..][i - 1] == fs[i];
      }
    }
  }

  /** The keys of a JavaScript object are pairwise distinct. */
  predicate DistinctKeys(fs: seq<Field>) {
    forall i, j :: 0 <= i < j < |fs| ==> fs[i].key != fs[j].key
  }

  /** The value of own property `key`, or `undefined`. */
  function Lookup(fs: seq<Field>, key: string): (r: JVal)
    ensures key !in Keys(fs) ==> r == JUndef
  {
    if fs == [] then JUndef
    else if fs[0].key == key then fs[0].value
    else Lookup(fs[1..], key)
  }

  /** In an object with distinct keys, looking up the i-th key gives the i-th value. */
  lemma {:induction false} LookupDistinct(fs: seq<Field>, i: nat)
    requires DistinctKeys(fs)
    requires i < |fs|
    ensures Lookup(fs, fs[i].key) == fs[i].value
  {
    if i > 0 {
      assert fs[0].key != fs[i].key;
      assert fs[1..][i - 1] == fs[i];
      LookupDistinct(fs[1..], i - 1);
    }
  }

  /** `obj[key] = value`: an existing key keeps its place and takes the new value, a new key is
      appended. */
  function Put(fs: seq<Field>, key: string, value: JVal): (r: seq<Field>)
    ensures Keys(r) == if key in Keys(fs) then Keys(fs) else Keys(fs) + [key]
  {
    if fs == [] then [Field(key, value)]
    else if fs[0].key == key then
      var r := [Field(key, value)] + fs[1..];
      assert r[1..] == fs[1..];
      KeysCons(fs);
      KeysCons(r);
      r
    else
      var rest := Put(fs[1..], key, value);
      var r := [fs[0]] + rest;
      assert r[1..] == rest;
      KeysCons(fs);
      KeysCons(r);
      assert key in Keys(fs) <==> key in Keys(fs[1..]);
      r
  }

  /** A key absent from an object is not its first key and is absent from the rest. */
  lemma AbsentKeyCons(fs: seq<Field>, key: string)
    requires fs != [] && key !in Keys(fs)
    ensures key != fs[0].key && key !in Keys(fs[1..])
  {
    KeysCons(fs);
  }

  /** Putting a new key appends it with its value. */
  lemma {:induction false} PutNew(fs: seq<Field>, key: string, value: JVal)
    requires key !in Keys(fs)
    ensures Put(fs, key, value) == fs + [Field(key, value)]
  {
    if fs != [] {
      AbsentKeyCons(fs, key);
      PutNew(fs[1..], key, value);
      var rest := Put(fs[1..], key, value);
      assert Put(fs, key, value) == [fs[0]] + rest;
      ConsAppend(fs, Field(key, value));
    }
  }

  /** After `obj[key] = value`, reading `key` gives `value` and every other key reads as before. */
  lemma {:induction false} PutLookup(fs: seq<Field>, key: string, value: JVal, k: string)
    ensures Lookup(Put(fs, key, value), k) == if k == key then value else Lookup(fs, k)
  {
    if fs != [] && fs[0].key != key {
      PutLookup(fs[1..], key, value, k);
      assert Put(fs, key, value)[1..] == Put(fs[1..], key, value);
    }
  }

  /** Putting keeps the keys of an object distinct. */
  lemma PutKeepsDistinct(fs: seq<Field>, key: string, value: JVal)
    requires DistinctKeys(fs)
    ensures DistinctKeys(Put(fs, key, value))
  {
    var r := Put(fs, key, value);
    var ks := Keys(r);
    forall i, j | 0 <= i < j < |r| ensures r[i].key != r[j].key {
      assert ks[i] == r[i].key && ks[j] == r[j].key;
      if key in Keys(fs) {
        assert ks == Keys(fs);
      } else {
        assert ks == Keys(fs) + [key];
      }
    }
  }

  /** Property access `v[key]`: own properties of objects, `length` and index properties of
      arrays and strings, `undefined` everywhere else. */
  function Prop(v: JVal, key: string): JVal {
    match v
    case JObj(fs) => Lookup(fs, key)
    case JArr(items) =>
      if key == "length" then JNum(|items|)
      else (match ParseCanonicalNat(key)
            case Some(i) => if i < |items| then items[i] else JUndef
            case None => JUndef)
    case JStr(s) =>
      if key == "length" then JNum(Utf16Length(s))
      else (match ParseCanonicalNat(key)
            case Some(i) => if i < |s| then JStr([s[i]]) else JUndef
            case None => JUndef)
    case _ => JUndef
  }

  /** `v[i]` for a numeric index `i`. */
  function Index(v: JVal, i: nat): (r: JVal)
    ensures v.JArr? ==> r == if i < |v.items| then v.items[i] else JUndef
    ensures v.JObj? ==> r == Lookup(v.fields, NatToString(i))
    ensures v.JStr? ==> r == if i < |v.s| then JStr([v.s[i]]) else JUndef
    ensures !IsObjectLike(v) && !v.JStr? ==> r == JUndef
  {
    ParseNatToString(i);
    assert NatToString(i) != "length" by {
      assert IsDigit(NatToString(i)[0]);
    }
    Prop(v, NatToString(i))
  }

  /** `String(v)`. */
  function ToStr(v: JVal): string
    decreases v
  {
    match v
    case JNull => "null"
    case JUndef => "undefined"
    case JBool(b) => if b then "true" else "false"
    case JNum(n) => IntToString(n)
    case JStr(s) => s
    case JArr(items) => JoinValues(items, ",")
    case JObj(_) => "[object Object]"
  }

  /** `items.join(sep)`: `null` and `undefined` elements contribute empty text, every other
      element its `String` form. */
  function JoinValues(items: seq<JVal>, sep: string): (r: string)
    decreases items
  {
    if items == [] then ""
    else
      var first := if items[0].JNull? || items[0].JUndef? then "" else ToStr(items[0]);
      if |items| == 1 then first else first + sep + JoinValues(items[1..], sep)
  }

  /** `JSON.stringify(v)`; `None` is the `undefined` it returns for `undefined`. */
  function Stringify(v: JVal): (r: Option<string>)
    ensures r.None? <==> v.JUndef?
    decreases v
  {
    match v
    case JUndef => None
    case JNull => Some("null")
    case JBool(b) => Some(if b then "true" else "false")
    case JNum(n) => Some(IntToString(n))
    case JStr(s) => Some(Quote(s))
    case JArr(items) => Some("[" + Join(StringifyItems(items), ",") + "]")
    case JObj(fs) => Some("{" + Join(StringifyMembers(fs), ",") + "}")
  }

  /** Array elements: `undefined` is written as `null`. */
  function StringifyItems(items: seq<JVal>): (r: seq<string>)
    ensures |r| == |items|
    decreases items
  {
    if items == [] then []
    else [Stringify(items[0]).GetOr("null")] + StringifyItems(items[1..])
  }

  /** Object members: a member whose value is `undefined` is skipped. */
  function StringifyMembers(fs: seq<Field>): seq<string>
    decreases fs
  {
    if fs == [] then []
    else
      match Stringify(fs[0].value)
      case None => StringifyMembers(fs[1..])
      case Some(t) => [Quote(fs[0].key) + ":" + t] + StringifyMembers(fs[1..])
  }

  function HexDigit(d: nat): char
    requires d < 16
  {
    if d < 10 then ('0' as int + d) as char else ('a' as int + d - 10) as char
  }

  /** How `JSON.stringify` writes one character inside a string literal. */
  function EscapeChar(c: char): string {
    if c == '"' then "\\\""
    else if c == '\\' then "\\\\"
    else if c as int == 0x08 then "\\b"
    else if c as int == 0x0C then "\\f"
    else if c == '\n' then "\\n"
    else if c == '\r' then "\\r"
    else if c == '\t' then "\\t"
    else if c as int < 0x20 then "\\u00" + [HexDigit(c as int / 16), HexDigit(c as int % 16)]
    else [c]
  }

  function Escape(s: string): string {
    if s == [] then "" else EscapeChar(s[0]) + Escape(s[1..])
  }

  /** `JSON.stringify` of a string: double quotes around the escaped text. */
  function Quote(s: string): string {
    "\"" + Escape(s) + "\""
  }

  /** No raw control character, line feed included, survives escaping. */
  lemma {:induction false} EscapeIsPrintable(s: string)
    ensures forall i :: 0 <= i < |Escape(s)| ==> Escape(s)[i] as int >= 0x20
  {
    if s != [] {
      EscapeIsPrintable(s[1..]);
      var e := EscapeChar(s[0]);
      var rest := Escape(s[1..]);
      assert Escape(s) == e + rest;
      forall i | 0 <= i < |Escape(s)|
        ensures Escape(s)[i] as int >= 0x20
      {
        if i >= |e| {
          assert Escape(s)[i] == rest[i - |e|];
        }
      }
    }
  }

  // ---- decoding JSON string literals, the inverse of Quote ----

  predicate IsHexDigit(c: char) {
    ('0' <= c <= '9') || ('a' <= c <= 'f') || ('A' <= c <= 'F')
  }

  function HexValue(c: char): nat
    requires IsHexDigit(c)
  {
    if '0' <= c <= '9' then c as int - '0' as int
    else if 'a' <= c <= 'f' then c as int - 'a' as int + 10
    else c as int - 'A' as int + 10
  }

  /** The code unit written as four hex digits after `\u` at position `i`. */
  function CodeUnitAt(t: string, i: nat): Option<nat>
  {
    if i + 4 <= |t| && IsHexDigit(t[i]) && IsHexDigit(t[i + 1]) && IsHexDigit(t[i + 2]) && IsHexDigit(t[i + 3])
    then Some(((HexValue(t[i]) * 16 + HexValue(t[i + 1])) * 16 + HexValue(t[i + 2])) * 16 + HexValue(t[i + 3]))
    else None
  }

  function Prepend(c: char, o: Option<string>): Option<string> {
    match o
    case None => None
    case Some(x) => Some([c] + x)
  }

  /** Decodes the body of a JSON string literal (the text between the quotes), as `JSON.parse`
      reads it. A `\u` escape of a lone surrogate, which has no counterpart among Unicode scalar
      values, is refused. */
  function Unescape(t: string): Option<string>
    decreases |t|
  {
    if t == [] then Some([])
    else if t[0] == '"' || t[0] as int < 0x20 then None
    else if t[0] != '\\' then Prepend(t[0], Unescape(t[1..]))
    else if |t| < 2 then None
    else
      var e := t[1];
      if e == '"' || e == '\\' || e == '/' then Prepend(e, Unescape(t[2..]))
      else if e == 'b' then Prepend(0x08 as char, Unescape(t[2..]))
      else if e == 'f' then Prepend(0x0C as char, Unescape(t[2..]))
      else if e == 'n' then Prepend('\n', Unescape(t[2..]))
      else if e == 'r' then Prepend('\r', Unescape(t[2..]))
      else if e == 't' then Prepend('\t', Unescape(t[2..]))
      else if e == 'u' then
        match CodeUnitAt(t, 2)
        case None => None
        case Some(u) =>
          if u < 0xD800 || 0xE000 <= u then Prepend(u as char, Unescape(t[6..]))
          else if u < 0xDC00 && |t| >= 8 && t[6] == '\\' && t[7] == 'u' then
            match CodeUnitAt(t, 8)
            case None => None
            case Some(lo) =>
              if 0xDC00 <= lo < 0xE000
              then Prepend((0x10000 + (u - 0xD800) * 0x400 + (lo - 0xDC00)) as char, Unescape(t[12..]))
              else None
          else None
      else None
  }

  /** Reads a JSON string literal back to the string it denotes. */
  function Unquote(t: string): Option<string> {
    if |t| >= 2 && t[0] == '"' && t[|t| - 1] == '"' then Unescape(t[1..|t| - 1]) else None
  }

  lemma HexDigitValue(d: nat)
    requires d < 16
    ensures IsHexDigit(HexDigit(d)) && HexValue(HexDigit(d)) == d
  {
  }

  /** Decoding one escaped character and then the rest. */
  lemma UnescapeEscapeChar(c: char, rest: string)
    ensures Unescape(EscapeChar(c) + rest) == Prepend(c, Unescape(rest))
  {
    var t := EscapeChar(c) + rest;
    var n := c as int;
    if c == '"' || c == '\\' || n == 0x08 || n == 0x0C || c == '\n' || c == '\r' || c == '\t' {
      assert t[2..] == rest;
    } else if n < 0x20 {
      HexDigitValue(n / 16);
      HexDigitValue(n % 16);
      assert t[0] == '\\' && t[1] == 'u';
      assert t[2] == '0' && t[3] == '0' && t[4] == HexDigit(n / 16) && t[5] == HexDigit(n % 16);
      assert CodeUnitAt(t, 2) == Some(n);
      assert (n as char) == c;
      assert t[6..] == rest;
    } else {
      assert t[0] == c;
      assert t[1..] == rest;
    }
  }

  /** Decoding the escaped text gives back the original string. */
  lemma {:induction false} UnescapeEscape(s: string)
    ensures Unescape(Escape(s)) == Some(s)
  {
    if s != [] {
      UnescapeEscape(s[1..]);
      UnescapeEscapeChar(s[0], Escape(s[1..]));
      assert [s[0]] + s[1..] == s;
    }
  }

  /** `JSON.stringify` of a string is a JSON string literal that reads back as that string. */
  lemma QuoteRoundTrip(s: string)
    ensures Unquote(Quote(s)) == Some(s)
  {
    var q := Quote(s);
    assert q[1..|q| - 1] == Escape(s);
    UnescapeEscape(s);
  }
}
