/** String operations of the JavaScript runtime that the modelled code relies on:
    `trim`, `join`, `split`, `padEnd`, `repeat`, `length` in UTF-16 code units,
    decimal number text and ASCII upper-casing. */
module Text {
  import opened Basics

  /** The WhiteSpace and LineTerminator code points of ECMAScript: what
      `String.prototype.trim` strips and what the regular-expression class `\s` matches. */
  predicate IsJsSpace(c: char) {
    var n := c as int;
    || (0x09 <= n <= 0x0D)
    || n == 0x20 || n == 0xA0 || n == 0x1680
    || (0x2000 <= n <= 0x200A)
    || n == 0x2028 || n == 0x2029 || n == 0x202F || n == 0x205F
    || n == 0x3000 || n == 0xFEFF
  }

  predicate AllSpace(s: string) {
    forall i :: 0 <= i < |s| ==> IsJsSpace(s[i])
  }

  /** Removes leading white space. */
  function TrimStart(s: string): (r: string)
    ensures |r| <= |s| && r == s[|s| - |r|..]
    ensures AllSpace(s[..|s| - |r|])
    ensures r != [] ==> !IsJsSpace(r[0])
  {
    if s != [] && IsJsSpace(s[0]) then
      var r := TrimStart(s[1..]);
      assert s[..|s| - |r|] == [s[0]] + s[1..][..|s| - 1 - |r|];
      r
    else s
  }

  /** Removes trailing white space. */
  function TrimEnd(s: string): (r: string)
    ensures |r| <= |s| && r == s[..|r|]
    ensures AllSpace(s[|r|..])
    ensures r != [] ==> !IsJsSpace(r[|r| - 1])
  {
    if s != [] && IsJsSpace(s[|s| - 1]) then
      var r := TrimEnd(s[..|s| - 1]);
      assert s[|r|..] == s[..|s| - 1][|r|..] + [s[|s| - 1]];
      r
    else s
  }

  /** `String.prototype.trim`. */
  function Trim(s: string): (r: string)
    ensures r == [] <==> AllSpace(s)
    ensures r != [] ==> !IsJsSpace(r[0]) && !IsJsSpace(r[|r| - 1])
    ensures |r| <= |s|
  {
    var a := TrimStart(s);
    var r := TrimEnd(a);
    StrippedBlankIffAllSpace(s, a, r);
    r
  }

  /** The trimming argument on the trimmed pieces alone: white space dropped in front, the
      kept part `a` starting with non-space, and `r` a prefix of `a` followed only by spaces. */
  lemma StrippedBlankIffAllSpace(s: string, a: string, r: string)
    requires |a| <= |s| && a == s[|s| - |a|..] && AllSpace(s[..|s| - |a|])
    requires a != [] ==> !IsJsSpace(a[0])
    requires |r| <= |a| && r == a[..|r|] && AllSpace(a[|r|..])
    ensures r == [] <==> AllSpace(s)
    ensures r != [] ==> r[0] == a[0]
  {
    var k := |s| - |a|;
    if r == [] {
      assert a[|r|..] == a;
      assert s == s[..k] + a;
    } else {
      assert !IsJsSpace(s[k]);
    }
  }

  /** Text with no white space at either end is its own trim. */
  lemma TrimUnpadded(s: string)
    requires s != [] ==> !IsJsSpace(s[0]) && !IsJsSpace(s[|s| - 1])
    ensures Trim(s) == s
  {
    if s != [] {
      assert TrimStart(s) == s;
      assert TrimEnd(s) == s;
    }
  }

  /** JavaScript's "non-blank" test `text && text.trim()` on a string. */
  predicate HasText(s: string) {
    Trim(s) != []
  }

  /** `Array.prototype.join` on strings. */
  function Join(parts: seq<string>, sep: string): string
  {
    if parts == [] then []
    else if |parts| == 1 then parts[0]
    else parts[0] + sep + Join(parts[1..], sep)
  }

  /** A character absent from every part and from the separator is absent from the joined text. */
  lemma {:induction false} JoinExcludes(parts: seq<string>, sep: string, c: char)
    requires c !in sep
    requires forall i :: 0 <= i < |parts| ==> c !in parts[i]
    ensures c !in Join(parts, sep)
  {
    if |parts| > 1 {
      JoinExcludes(parts[1..], sep, c);
    }
  }

  /** The index of the first occurrence of `c`. */
  function IndexOfChar(s: string, c: char): (r: Option<nat>)
    ensures r.Some? ==> r.value < |s| && s[r.value] == c && c !in s[..r.value]
    ensures r.None? ==> c !in s
  {
    if s == [] then None
    else if s[0] == c then Some(0)
    else
      match IndexOfChar(s[1..], c)
      case None => None
      case Some(i) =>
        assert s[..i + 1] == [s[0]] + s[1..][..i];
        Some(i + 1)
  }

  /** `String.prototype.split` with a one-character separator. */
  function Split(s: string, c: char): (r: seq<string>)
    ensures |r| >= 1
    ensures forall i :: 0 <= i < |r| ==> c !in r[i]
    ensures Join(r, [c]) == s
    decreases |s|
  {
    match IndexOfChar(s, c)
    case None => [s]
    case Some(i) =>
      var rest := Split(s[i + 1..], c);
      assert s == s[..i] + [c] + s[i + 1..];
      [s[..i]] + rest
  }

  /** The first separator of `p + [c] + q` is the one after `p` when `p` has none. */
  lemma {:induction false} IndexOfCharAfterPrefix(p: string, c: char, q: string)
    requires c !in p
    ensures IndexOfChar(p + [c] + q, c) == Some(|p|)
  {
    if p != [] {
      assert (p + [c] + q)[1..] == p[1..] + [c] + q;
      IndexOfCharAfterPrefix(p[1..], c, q);
    }
  }

  /** Splitting undoes joining whenever no part contains the separator. */
  lemma {:induction false} SplitJoin(parts: seq<string>, c: char)
    requires |parts| >= 1
    requires forall i :: 0 <= i < |parts| ==> c !in parts[i]
    ensures Split(Join(parts, [c]), c) == parts
  {
    if |parts| > 1 {
      var p := parts[0];
      var q := Join(parts[1..], [c]);
      var s := Join(parts, [c]);
      assert s == p + [c] + q;
      IndexOfCharAfterPrefix(p, c, q);
      assert s[..|p|] == p;
      assert s[|p| + 1..] == q;
      SplitJoin(parts[1..], c);
    }
  }

  /** The number of UTF-16 code units JavaScript uses for a character. */
  function CodeUnits(c: char): nat {
    if c as int >= 0x10000 then 2 else 1
  }

  /** JavaScript's `length` of a string: its count of UTF-16 code units. */
  function Utf16Length(s: string): nat
  {
    if s == [] then 0 else CodeUnits(s[0]) + Utf16Length(s[1..])
  }

  lemma {:induction false} Utf16LengthAppend(a: string, b: string)
    ensures Utf16Length(a + b) == Utf16Length(a) + Utf16Length(b)
  {
    if a != [] {
      assert (a + b)[0] == a[0];
      assert (a + b)[1..] == a[1..] + b;
      Utf16LengthAppend(a[1..], b);
    } else {
      assert a + b == b;
    }
  }

  /** `n` copies of one element; for a character, `c.repeat(n)`. */
  function Repeat<T>(c: T, n: nat): (r: seq<T>)
    ensures |r| == n
    ensures forall i :: 0 <= i < n ==> r[i] == c
  {
    seq(n, _ => c)
  }

  /** A run of characters below U+10000 has one code unit per character. */
  lemma {:induction false} Utf16LengthOfBmpRun(c: char, n: nat)
    requires c as int < 0x10000
    ensures Utf16Length(Repeat(c, n)) == n
  {
    if n > 0 {
      assert Repeat(c, n)[1..] == Repeat(c, n - 1);
      Utf16LengthOfBmpRun(c, n - 1);
    }
  }

  function Max(a: int, b: int): int {
    if a >= b then a else b
  }

  /** `s.padEnd(w)`: `s` followed by spaces up to `w` code units; never shortens `s`. */
  function PadEnd(s: string, w: nat): (r: string)
    ensures Utf16Length(r) == Max(w, Utf16Length(s))
    ensures |s| <= |r| && r[..|s|] == s
    ensures forall i :: |s| <= i < |r| ==> r[i] == ' '
  {
    var n := Utf16Length(s);
    if w <= n then s
    else
      var pad := Repeat(' ', w - n);
      Utf16LengthAppend(s, pad);
      Utf16LengthOfBmpRun(' ', w - n);
      s + pad
  }

  function DigitChar(d: nat): char
    requires d < 10
  {
    ('0' as int + d) as char
  }

  predicate IsDigit(c: char) {
    '0' <= c <= '9'
  }

  function DigitValue(c: char): nat
    requires IsDigit(c)
  {
    c as int - '0' as int
  }

  /** The decimal text of a natural number, as `String(n)` writes it. */
  function NatToString(n: nat): (r: string)
    ensures r != []
    ensures forall i :: 0 <= i < |r| ==> IsDigit(r[i])
    ensures r[0] == '0' ==> n == 0 && r == "0"
  {
    if n < 10 then [DigitChar(n)] else NatToString(n / 10) + [DigitChar(n % 10)]
  }

  /** The decimal text of an integer, with a leading `-` when negative. */
  function IntToString(i: int): string {
    if i < 0 then "-" + NatToString(-i) else NatToString(i)
  }

  function DigitsValue(s: string): nat
    requires forall i :: 0 <= i < |s| ==> IsDigit(s[i])
  {
    if s == [] then 0 else DigitsValue(s[..|s| - 1]) * 10 + DigitValue(s[|s| - 1])
  }

  /** Reads canonical decimal text (digits only, no leading zero except "0"):
      the form JavaScript requires of an array-index property name. */
  function ParseCanonicalNat(s: string): (r: Option<nat>)
    ensures r.Some? ==> s != [] && (s[0] == '0' ==> s == "0")
  {
    if s != [] && (forall i :: 0 <= i < |s| ==> IsDigit(s[i])) && (s[0] != '0' || |s| == 1)
    then Some(DigitsValue(s))
    else None
  }

  /** Reading back the decimal text of a number gives the number. */
  lemma {:induction false} ParseNatToString(n: nat)
    ensures ParseCanonicalNat(NatToString(n)) == Some(n)
  {
    var s := NatToString(n);
    if n >= 10 {
      ParseNatToString(n / 10);
      assert s[..|s| - 1] == NatToString(n / 10);
      assert DigitValue(s[|s| - 1]) == n % 10;
    } else {
      assert s == [DigitChar(n)];
      assert s[..0] == [];
      assert DigitsValue(s[..0]) == 0;
      assert DigitValue(s[0]) == n;
      assert DigitsValue(s) == n;
    }
  }

  function AsciiUpperChar(c: char): char {
    if 'a' <= c <= 'z' then (c as int - 32) as char else c
  }

  /** Upper-cases the ASCII letters of `s` and keeps every other character. */
  function AsciiUpper(s: string): (r: string)
    ensures |r| == |s|
    ensures forall i :: 0 <= i < |s| ==> r[i] == AsciiUpperChar(s[i])
  {
    seq(|s|, i requires 0 <= i < |s| => AsciiUpperChar(s[i]))
  }

  /** `s.includes(t)`. */
  predicate HasInfix(s: string, t: string) {
    exists i :: 0 <= i <= |s| - |t| && InfixAt(s, t, i)
  }

  predicate InfixAt(s: string, t: string, i: int) {
    0 <= i <= |s| - |t| && s[i..i + |t|] == t
  }
}
