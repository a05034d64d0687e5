/** Reading the search-job identifier (SID) out of the reply to the job-submission POST:
    the bare-text rule, the JSON rule (`sid`, then `entry[0].name`), the two XML patterns
    and, only for a blank or unreadable body, the `Location` header. */
module SidExtraction {
  import opened Basics
  import opened Text
  import opened Json

  /** How one body-reading method of a response object behaves when called. */
  datatype Reader<T> =
    | Missing                // the response object has no such method
    | Throws(unusable: bool) // the call throws; `unusable` when the message says "Body is unusable"
    | Yields(value: T)       // the call resolves to this value

  /** A fetch response as plain data. Reading a body twice gives the same outcome. */
  datatype Response = Response(
    ok: bool,
    status: JVal,
    text: Reader<string>,
    json: Reader<JVal>,
    location: Option<string>)

  /** `JSON.parse`, taken as a parameter: `None` when the text does not parse. */
  type JsonParser = string -> Option<JVal>

  /** What reading the submission body produces: a value, or an exception the caller catches. */
  datatype BodyText = Body(value: JVal) | BodyThrew

  /** `obj && (obj.sid || (obj.entry && obj.entry[0] && obj.entry[0].name))`, kept only when
      the result is truthy, which is the only way the callers use it. */
  function SidFromObject(obj: JVal): (r: Option<JVal>)
    ensures r.Some? ==> Truthy(r.value)
    ensures r.Some? && Truthy(Prop(obj, "sid")) ==> r.value == Prop(obj, "sid")
    ensures r.None? <==>
      !Truthy(obj) ||
      (!Truthy(Prop(obj, "sid")) && !Truthy(Prop(Index(Prop(obj, "entry"), 0), "name")))
  {
    if !Truthy(obj) then None
    else if Truthy(Prop(obj, "sid")) then Some(Prop(obj, "sid"))
    else
      var entry := Prop(obj, "entry");
      var first := Index(entry, 0);
      if Truthy(entry) && Truthy(first) && Truthy(Prop(first, "name")) then Some(Prop(first, "name"))
      else
        assert !Truthy(Prop(first, "name")) by {
          if !Truthy(entry) {
            assert first == JUndef;
          } else if !Truthy(first) {
            assert !IsObjectLike(first);
          }
        }
        None
  }

  /** The value `_tryGetTextFromJson` hands back in place of body text: the SID when the parsed
      reply names one, else the reply written back as JSON text; a throwing `json()` gives "". */
  function TextFromJson(json: Reader<JVal>): (r: JVal)
    requires !json.Missing?
    ensures json.Throws? ==> r == JStr("")
    ensures json.Yields? && SidFromObject(json.value).Some? ==> r == SidFromObject(json.value).value
    ensures json.Yields? && SidFromObject(json.value).None? && !json.value.JUndef? ==>
      r.JStr? && Stringify(json.value) == Some(r.s)
    ensures r == JUndef <==> json == Yields(JUndef)
  {
    match json
    case Throws(_) => JStr("")
    case Yields(obj) =>
      match SidFromObject(obj)
      case Some(sid) => sid
      case None =>
        match Stringify(obj)
        case None => JUndef
        case Some(t) => JStr(t)
  }

  /** `_getResponseBodyText`: the text when it is not blank, else the `json()` fallback when the
      response has `json()` and `text()` did not fail with "Body is unusable". */
  function ResponseBodyText(res: Response): (r: BodyText)
    ensures r == BodyThrew <==> res.text == Throws(false)
    ensures res.text == Throws(true) ==> r == Body(JStr(""))
    ensures res.text.Yields? && (HasText(res.text.value) || res.json.Missing?) ==>
      r == Body(JStr(res.text.value))
    ensures res.text.Missing? && res.json.Missing? ==> r == Body(JStr(""))
    ensures !res.json.Missing? && (res.text.Missing? || (res.text.Yields? && !HasText(res.text.value))) ==>
      r == Body(TextFromJson(res.json))
  {
    match res.text
    case Throws(unusable) => if unusable then Body(JStr("")) else BodyThrew
    case Missing => if res.json.Missing? then Body(JStr("")) else Body(TextFromJson(res.json))
    case Yields(t) =>
      if HasText(t) || res.json.Missing? then Body(JStr(t)) else Body(TextFromJson(res.json))
  }

  /** A body that is itself the SID: not blank, and without `{` or `<`. */
  predicate IsBareSid(t: string) {
    HasText(t) && '{' !in t && '<' !in t
  }

  // ---- the XML patterns ----

  /** The longest run of characters other than `c` starting at `from`. */
  function RunWithout(s: string, from: nat, c: char): (r: string)
    requires from <= |s|
    ensures from + |r| <= |s| && r == s[from..from + |r|]
    ensures c !in r
    ensures from + |r| == |s| || s[from + |r|] == c
    decreases |s| - from
  {
    if from == |s| || s[from] == c then []
    else
      var rest := RunWithout(s, from + 1, c);
      assert s[from..from + 1 + |rest|] == [s[from]] + rest;
      [s[from]] + rest
  }

  /** A run free of `c` that ends at a `c` or at the end of `s` is the longest such run. */
  lemma {:induction false} RunWithoutUnique(s: string, from: nat, c: char, x: string)
    requires from + |x| <= |s| && s[from..from + |x|] == x && c !in x
    requires from + |x| == |s| || s[from + |x|] == c
    ensures RunWithout(s, from, c) == x
    decreases |x|
  {
    if x != [] {
      assert s[from] == x[0];
      assert s[from + 1..from + 1 + |x[1..]|] == x[1..];
      RunWithoutUnique(s, from + 1, c, x[1..]);
    }
  }

  /** Every stretch free of `c` starting at `from` lies within the longest run. */
  lemma {:induction false} RunWithoutCovers(s: string, from: nat, c: char, q: nat)
    requires from <= q <= |s| && c !in s[from..q]
    ensures q <= from + |RunWithout(s, from, c)|
    decreases q - from
  {
    if from < q {
      assert s[from] == s[from..q][0];
      assert s[from + 1..q] == s[from..q][1..];
      RunWithoutCovers(s, from + 1, c, q);
    }
  }

  /** `<sid>x</sid>` starts at `i`, with `x` non-empty and free of `<`: one match of
      `/<sid>([^<]+)<\/sid>/`. */
  predicate SidElementAt(s: string, i: int, x: string) {
    && 0 <= i && i + 11 + |x| <= |s|
    && s[i..i + 5] == "<sid>"
    && x != [] && '<' !in x
    && s[i + 5..i + 5 + |x|] == x
    && s[i + 5 + |x|..i + 11 + |x|] == "</sid>"
  }

  function SidElementCapture(s: string, i: nat): Option<string> {
    if i + 5 <= |s| && s[i..i + 5] == "<sid>" then
      var x := RunWithout(s, i + 5, '<');
      var e := i + 5 + |x|;
      if x != [] && e + 6 <= |s| && s[e..e + 6] == "</sid>" then Some(x) else None
    else None
  }

  lemma SidElementCaptureSpec(s: string, i: nat, x: string)
    ensures SidElementAt(s, i, x) <==> SidElementCapture(s, i) == Some(x)
  {
    if SidElementAt(s, i, x) {
      assert s[i + 5 + |x|] == '<';
      RunWithoutUnique(s, i + 5, '<', x);
    }
  }

  /** The leftmost position at or after `from` where the `<sid>` pattern matches. */
  function FindSidElement(s: string, from: nat): (r: Option<nat>)
    ensures r.Some? ==> from <= r.value && SidElementCapture(s, r.value).Some?
    ensures r.Some? ==> forall j :: from <= j < r.value ==> SidElementCapture(s, j).None?
    ensures r.None? ==> forall j :: from <= j ==> SidElementCapture(s, j).None?
    decreases |s| - from
  {
    if from >= |s| then None
    else if SidElementCapture(s, from).Some? then Some(from)
    else FindSidElement(s, from + 1)
  }

  /** The first `<sid>…</sid>` capture of `s`, as `String.prototype.match` finds it. */
  function FirstSidElement(s: string): (r: Option<string>)
    ensures r.Some? ==>
      exists i :: SidElementAt(s, i, r.value) && forall j, y :: 0 <= j < i ==> !SidElementAt(s, j, y)
    ensures r.None? ==> forall i, y :: !SidElementAt(s, i, y)
  {
    match FindSidElement(s, 0)
    case None =>
      NoSidElement(s, 0, |s| + 1);
      None
    case Some(i) =>
      var x := SidElementCapture(s, i).value;
      SidElementCaptureSpec(s, i, x);
      NoSidElement(s, 0, i);
      Some(x)
  }

  lemma NoSidElement(s: string, lo: nat, hi: nat)
    requires forall j :: lo <= j < hi ==> SidElementCapture(s, j).None?
    requires lo == 0
    ensures forall j, y :: lo <= j < hi ==> !SidElementAt(s, j, y)
    ensures hi > |s| ==> forall j, y :: !SidElementAt(s, j, y)
  {
    forall j: int, y | lo <= j < hi ensures !SidElementAt(s, j, y) {
      SidElementCaptureSpec(s, j, y);
    }
  }

  /** `name="x"` inside an `<entry` tag: the tag starts at `i`, the attribute at `p`, no `>`
      lies between, and `x` is non-empty and free of `"`; one match of `/<entry[^>]*name="([^"]+)"/`. */
  predicate EntryNameAt(s: string, i: int, p: int, x: string) {
    && 0 <= i && i + 6 <= p && p + 7 + |x| <= |s|
    && s[i..i + 6] == "<entry"
    && '>' !in s[i + 6..p]
    && s[p..p + 6] == "name=\""
    && x != [] && '"' !in x
    && s[p + 6..p + 6 + |x|] == x
    && s[p + 6 + |x|] == '"'
  }

  /** The capture of `name="…"` at `p`, if the attribute is complete there. */
  function NameAttrCapture(s: string, p: nat): Option<string> {
    if p + 6 <= |s| && s[p..p + 6] == "name=\"" then
      var x := RunWithout(s, p + 6, '"');
      if x != [] && p + 6 + |x| < |s| then Some(x) else None
    else None
  }

  /** The attribute positions `[^>]*` can reach from the tag at `i`: up to the first `>`. */
  function TagEnd(s: string, i: nat): (g: nat)
    requires i + 6 <= |s|
    ensures i + 6 <= g <= |s|
    ensures '>' !in s[i + 6..g]
    ensures g == |s| || s[g] == '>'
  {
    i + 6 + |RunWithout(s, i + 6, '>')|
  }

  /** Greedy `[^>]*`: the last attribute position at or below `p` that completes a match. */
  function LastNameAttr(s: string, i: nat, p: int): (r: Option<nat>)
    requires i + 6 <= |s|
    ensures r.Some? ==> i + 6 <= r.value <= p && NameAttrCapture(s, r.value).Some?
    ensures r.Some? ==> forall q :: r.value < q <= p ==> NameAttrCapture(s, q).None?
    ensures r.None? ==> forall q :: i + 6 <= q <= p ==> NameAttrCapture(s, q).None?
    decreases p
  {
    if p < i + 6 then None
    else if NameAttrCapture(s, p).Some? then Some(p)
    else LastNameAttr(s, i, p - 1)
  }

  function EntryCapture(s: string, i: nat): Option<string> {
    if i + 6 <= |s| && s[i..i + 6] == "<entry" then
      match LastNameAttr(s, i, TagEnd(s, i))
      case None => None
      case Some(p) => NameAttrCapture(s, p)
    else None
  }

  lemma NameAttrCaptureSpec(s: string, p: nat, x: string)
    requires p + 7 + |x| <= |s| && s[p..p + 6] == "name=\"" && x != [] && '"' !in x
    requires s[p + 6..p + 6 + |x|] == x && s[p + 6 + |x|] == '"'
    ensures NameAttrCapture(s, p) == Some(x)
  {
    RunWithoutUnique(s, p + 6, '"', x);
  }

  /** The tag at `i` matches with attribute position `p` only if `p` is within the tag. */
  lemma EntryNameWithinTag(s: string, i: nat, p: int, x: string)
    requires EntryNameAt(s, i, p, x)
    ensures p <= TagEnd(s, i)
  {
    RunWithoutCovers(s, i + 6, '>', p);
  }

  lemma NameAttrCaptureSound(s: string, i: nat, p: nat)
    requires i + 6 <= |s| && i + 6 <= p <= TagEnd(s, i)
    requires s[i..i + 6] == "<entry"
    requires NameAttrCapture(s, p).Some?
    ensures EntryNameAt(s, i, p, NameAttrCapture(s, p).value)
  {
    var g := TagEnd(s, i);
    assert s[i + 6..p] == s[i + 6..g][..p - (i + 6)];
  }

  /** Leftmost `<entry` tag with a match; within it, the greedy (last) attribute position. */
  function FindEntryName(s: string, from: nat): (r: Option<nat>)
    ensures r.Some? ==> from <= r.value && EntryCapture(s, r.value).Some?
    ensures r.Some? ==> forall j :: from <= j < r.value ==> EntryCapture(s, j).None?
    ensures r.None? ==> forall j :: from <= j ==> EntryCapture(s, j).None?
    decreases |s| - from
  {
    if from >= |s| then None
    else if EntryCapture(s, from).Some? then Some(from)
    else FindEntryName(s, from + 1)
  }

  /** A tag position whose capture is `None` has no match at all. */
  lemma NoEntryNameAt(s: string, i: nat)
    requires EntryCapture(s, i).None?
    ensures forall p, y :: !EntryNameAt(s, i, p, y)
  {
    forall p: int, y | EntryNameAt(s, i, p, y) ensures false {
      EntryNameWithinTag(s, i, p, y);
      NameAttrCaptureSpec(s, p, y);
    }
  }

  /** The first `<entry … name="…"` capture of `s`, as `String.prototype.match` finds it. */
  function FirstEntryName(s: string): (r: Option<string>)
    ensures r.Some? ==> exists i, p ::
      && EntryNameAt(s, i, p, r.value)
      && (forall j, q, y :: 0 <= j < i ==> !EntryNameAt(s, j, q, y))
      && (forall q, y :: p < q ==> !EntryNameAt(s, i, q, y))
    ensures r.None? ==> forall i, p, y :: !EntryNameAt(s, i, p, y)
  {
    match FindEntryName(s, 0)
    case None =>
      assert forall i, p, y :: !EntryNameAt(s, i, p, y) by {
        forall i: int, p, y | EntryNameAt(s, i, p, y) ensures false {
          NoEntryNameAt(s, i);
        }
      }
      None
    case Some(i) =>
      var p := LastNameAttr(s, i, TagEnd(s, i)).value;
      var x := NameAttrCapture(s, p).value;
      NameAttrCaptureSound(s, i, p);
      assert forall j, q, y :: 0 <= j < i ==> !EntryNameAt(s, j, q, y) by {
        forall j: int, q, y | 0 <= j < i && EntryNameAt(s, j, q, y) ensures false {
          NoEntryNameAt(s, j);
        }
      }
      assert forall q, y :: p < q ==> !EntryNameAt(s, i, q, y) by {
        forall q: int, y | p < q && EntryNameAt(s, i, q, y) ensures false {
          EntryNameWithinTag(s, i, q, y);
          NameAttrCaptureSpec(s, q, y);
        }
      }
      Some(x)
  }

  /** `_trySidFromXml`: the `<sid>` element first, the `<entry name=…>` attribute second. */
  function SidFromXml(s: string): (r: Option<string>)
    ensures r.Some? ==> r.value != []
    ensures r.None? <==>
      (forall i, y :: !SidElementAt(s, i, y)) && (forall i, p, y :: !EntryNameAt(s, i, p, y))
    ensures (exists i, y :: SidElementAt(s, i, y)) ==>
      exists i :: SidElementAt(s, i, r.value) && forall j, y :: 0 <= j < i ==> !SidElementAt(s, j, y)
    ensures (forall i, y :: !SidElementAt(s, i, y)) && r.Some? ==>
      exists i, p :: EntryNameAt(s, i, p, r.value) && forall j, q, y :: 0 <= j < i ==> !EntryNameAt(s, j, q, y)
  {
    match FirstSidElement(s)
    case Some(x) => Some(x)
    case None => FirstEntryName(s)
  }

  // ---- the Location header ----

  const JobsPath: string := "/services/search/jobs/"

  /** The characters `.` does not match in a JavaScript regular expression. */
  predicate IsLineTerminator(c: char) {
    c == '\n' || c == '\r' || c as int == 0x2028 || c as int == 0x2029
  }

  /** `/\/services\/search\/jobs\/(.+)$/` matches at `i`: the path prefix is there and the
      rest of the header is non-empty and on one line. */
  predicate JobsPathAt(s: string, i: int) {
    && 0 <= i && i + |JobsPath| < |s|
    && s[i..i + |JobsPath|] == JobsPath
    && forall k :: i + |JobsPath| <= k < |s| ==> !IsLineTerminator(s[k])
  }

  function FindJobsPath(s: string, from: nat): (r: Option<nat>)
    ensures r.Some? ==> from <= r.value && JobsPathAt(s, r.value)
    ensures r.Some? ==> forall j :: from <= j < r.value ==> !JobsPathAt(s, j)
    ensures r.None? ==> forall j :: from <= j ==> !JobsPathAt(s, j)
    decreases |s| - from
  {
    if from >= |s| then None
    else if JobsPathAt(s, from) then Some(from)
    else FindJobsPath(s, from + 1)
  }

  /** `_extractSidFromHeader`: the tail of the header after the leftmost `/services/search/jobs/`
      whose tail is non-empty and holds no line terminator, as `match` finds it. */
  function SidFromHeader(location: Option<string>): (r: Option<JVal>)
    ensures r.Some? ==> r.value.JStr? && r.value.s != []
    ensures location.None? || location == Some("") ==> r.None?
    ensures r.Some? ==>
      exists i ::
        && JobsPathAt(location.value, i)
        && (forall j :: 0 <= j < i ==> !JobsPathAt(location.value, j))
        && r.value.s == location.value[i + |JobsPath|..]
    ensures location.Some? && (exists i :: JobsPathAt(location.value, i)) ==> r.Some?
  {
    match location
    case None => None
    case Some(loc) =>
      if loc == [] then None
      else
        match FindJobsPath(loc, 0)
        case None => None
        case Some(i) => Some(JStr(loc[i + |JobsPath|..]))
  }

  // ---- the cascade ----

  /** `_trySidFromJson`: the truthy SID of the parsed body, if the body parses. */
  function SidFromJsonText(t: string, parse: JsonParser): (r: Option<JVal>)
    ensures r.Some? ==> Truthy(r.value)
    ensures r.Some? <==> parse(t).Some? && SidFromObject(parse(t).value).Some?
    ensures r.Some? && Truthy(Prop(parse(t).value, "sid")) ==> r.value == Prop(parse(t).value, "sid")
  {
    match parse(t)
    case None => None
    case Some(job) => SidFromObject(job)
  }

  /** `_extractSidFromBody`: JSON first, then the XML patterns. The header is not consulted. */
  function SidFromBody(t: string, parse: JsonParser): (r: Option<JVal>)
    ensures r.Some? ==> Truthy(r.value)
    ensures SidFromJsonText(t, parse).Some? ==> r == SidFromJsonText(t, parse)
    ensures SidFromJsonText(t, parse).None? ==>
      (r.Some? <==> SidFromXml(t).Some?) && (r.Some? ==> r.value == JStr(SidFromXml(t).value))
  {
    match SidFromJsonText(t, parse)
    case Some(v) => Some(v)
    case None =>
      match SidFromXml(t)
      case None => None
      case Some(x) => Some(JStr(x))
  }

  /** `_extractSidFromBodyOrHeader`, with the header fallback that also follows when the body
      value is not a string (its missing `trim` method throws and the caller falls back). */
  function SidFromBodyOrHeader(b: JVal, location: Option<string>, parse: JsonParser): (r: Option<JVal>)
    ensures r.Some? ==> Truthy(r.value)
    ensures b.JStr? && IsBareSid(b.s) ==> r == Some(JStr(Trim(b.s)))
    ensures b.JStr? && HasText(b.s) && !IsBareSid(b.s) ==> r == SidFromBody(b.s, parse)
    ensures !(b.JStr? && HasText(b.s)) ==> r == SidFromHeader(location)
  {
    if b.JStr? && IsBareSid(b.s) then
      Some(JStr(Trim(b.s)))
    else if b.JStr? && HasText(b.s) then
      SidFromBody(b.s, parse)
    else
      SidFromHeader(location)
  }

  /** `_extractSidFromSubmit`: the SID of a submission reply, `None` for "no sid". */
  function ExtractSid(res: Response, parse: JsonParser): (r: Option<JVal>)
    ensures r.Some? ==> Truthy(r.value)
  {
    match ResponseBodyText(res)
    case BodyThrew => SidFromHeader(res.location)
    case Body(b) => SidFromBodyOrHeader(b, res.location, parse)
  }

  // ---- properties of the cascade ----

  /** A non-blank body without `{` or `<` is the SID, trimmed. */
  lemma BareTextIsSid(res: Response, parse: JsonParser)
    requires res.text.Yields? && IsBareSid(res.text.value)
    ensures ExtractSid(res, parse) == Some(JStr(Trim(res.text.value)))
  {
  }

  /** Any other non-blank body goes through JSON then XML, and the Location header is never
      consulted: replacing it does not change the outcome. */
  lemma NonBlankBodyIgnoresHeader(res: Response, parse: JsonParser, other: Option<string>)
    requires res.text.Yields? && HasText(res.text.value) && !IsBareSid(res.text.value)
    ensures ExtractSid(res, parse) == SidFromBody(res.text.value, parse)
    ensures ExtractSid(res, parse) == ExtractSid(res.(location := other), parse)
  {
  }

  /** The header is the only source when `text()` throws, or when the text is absent or blank
      and the `json()` fallback is absent, throws or gives `undefined`. */
  lemma HeaderWhenBodyUnusable(res: Response, parse: JsonParser)
    requires
      || res.text.Throws?
      || (&& (res.text.Missing? || (res.text.Yields? && !HasText(res.text.value)))
          && (res.json.Missing? || res.json.Throws? || res.json == Yields(JUndef)))
    ensures ExtractSid(res, parse) == SidFromHeader(res.location)
  {
    if res.text.Yields? {
      assert Trim(res.text.value) == [];
    }
    if res.json.Throws? {
      assert Trim("") == [];
    }
  }

  /** A blank `text()` hands over to `json()`. */
  lemma BlankTextUsesJson(res: Response)
    requires res.text == Yields("") && !res.json.Missing?
    ensures ResponseBodyText(res) == Body(TextFromJson(res.json))
  {
    assert Trim("") == [];
  }

  /** Whatever body value the reader produces is what the SID is then read from. */
  lemma SidOfBody(res: Response, parse: JsonParser, b: JVal)
    requires ResponseBodyText(res) == Body(b)
    ensures ExtractSid(res, parse) == SidFromBodyOrHeader(b, res.location, parse)
  {
  }

  /** A reply object that names a SID hands back that SID in place of body text. */
  lemma JsonSidAsText(obj: JVal)
    requires SidFromObject(obj).Some?
    ensures TextFromJson(Yields(obj)) == SidFromObject(obj).value
  {
  }

  /** A reply object that names no SID hands back its JSON text. */
  lemma JsonWithoutSidAsText(obj: JVal)
    requires SidFromObject(obj).None? && !obj.JUndef?
    ensures TextFromJson(Yields(obj)) == JStr(Stringify(obj).value)
  {
  }

  /** `{sid: x}` with a non-empty `x` names the SID `x`. */
  lemma SidField(x: string)
    requires x != []
    ensures SidFromObject(JObj([Field("sid", JStr(x))])) == Some(JStr(x))
  {
    assert Prop(JObj([Field("sid", JStr(x))]), "sid") == JStr(x);
  }

  /** Body text with no white space at either end and neither `{` nor `<` is the SID as is. */
  lemma UnpaddedBareSid(t: string, location: Option<string>, parse: JsonParser)
    requires t != [] && !IsJsSpace(t[0]) && !IsJsSpace(t[|t| - 1])
    requires '{' !in t && '<' !in t
    ensures SidFromBodyOrHeader(JStr(t), location, parse) == Some(JStr(t))
  {
    TrimUnpadded(t);
  }

  /** With a blank `text()`, a `json()` reply naming no SID is read back as its JSON text. */
  lemma BlankTextJsonText(res: Response, t: string)
    requires res.text == Yields("") && res.json.Yields? && !res.json.value.JUndef?
    requires SidFromObject(res.json.value).None? && Stringify(res.json.value) == Some(t)
    ensures ResponseBodyText(res) == Body(JStr(t))
  {
    JsonWithoutSidAsText(res.json.value);
    BlankTextUsesJson(res);
  }

  /** With a blank `text()`, a `json()` reply naming the SID `x` is read back as `x`. */
  lemma BlankTextJsonSidText(res: Response, x: string)
    requires res.text == Yields("") && res.json == Yields(JObj([Field("sid", JStr(x))])) && x != []
    ensures ResponseBodyText(res) == Body(JStr(x))
  {
    SidField(x);
    JsonSidAsText(res.json.value);
    BlankTextUsesJson(res);
  }

  /** A blank `text()` with a `json()` that yields `{sid: x}`, for an `x` that passes the
      bare-text rule unchanged: the SID is `x`. */
  lemma BlankTextJsonBareSid(res: Response, parse: JsonParser, x: string)
    requires res.text == Yields("") && res.json == Yields(JObj([Field("sid", JStr(x))]))
    requires x != [] && !IsJsSpace(x[0]) && !IsJsSpace(x[|x| - 1]) && '{' !in x && '<' !in x
    ensures ExtractSid(res, parse) == Some(JStr(x))
  {
    BlankTextJsonSidText(res, x);
    SidOfBody(res, parse, JStr(x));
    UnpaddedBareSid(x, res.location, parse);
  }

  /** A blank `text()` with a `json()` reply that names no SID and whose JSON text `t` passes
      the bare-text rule unchanged: the SID is that JSON text. */
  lemma BlankTextJsonTextAsSid(res: Response, parse: JsonParser, t: string)
    requires res.text == Yields("") && res.json.Yields? && !res.json.value.JUndef?
    requires SidFromObject(res.json.value).None? && Stringify(res.json.value) == Some(t)
    requires t != [] && !IsJsSpace(t[0]) && !IsJsSpace(t[|t| - 1]) && '{' !in t && '<' !in t
    ensures ExtractSid(res, parse) == Some(JStr(t))
  {
    BlankTextJsonText(res, t);
    SidOfBody(res, parse, JStr(t));
    UnpaddedBareSid(t, res.location, parse);
  }

  /** A blank `text()` with a `json()` that yields `{sid: "S1"}`: the SID comes back as bare
      text and is taken as is. */
  lemma BlankTextJsonSid(res: Response, parse: JsonParser)
    requires res.text == Yields("") && res.json == Yields(JObj([Field("sid", JStr("S1"))]))
    ensures ExtractSid(res, parse) == Some(JStr("S1"))
  {
    BlankTextJsonBareSid(res, parse, "S1");
  }

  /** A blank `text()` with a `json()` that yields `null` produces the SID "null": the reply is
      written back as the JSON text `null`, which passes the bare-text rule. */
  lemma BlankTextJsonNullGivesLiteralSid(res: Response, parse: JsonParser)
    requires res.text == Yields("") && res.json == Yields(JNull)
    ensures ExtractSid(res, parse) == Some(JStr("null"))
  {
    BlankTextJsonTextAsSid(res, parse, "null");
  }
}
