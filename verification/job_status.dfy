/** Deciding from one job-status reply whether the search job has finished. */
module JobStatus {
  import opened Basics
  import opened Text
  import opened Json
  import opened SidExtraction

  /** `entry[0].content` of a status body. */
  function EntryContent(body: JVal): JVal {
    Prop(Index(Prop(body, "entry"), 0), "content")
  }

  /** `_extractContent`: `entry[0].content` when truthy, else `content` when truthy, else `null`. */
  function ExtractContent(body: JVal): (r: JVal)
    ensures Truthy(r) || r == JNull
    ensures Truthy(EntryContent(body)) ==> r == EntryContent(body)
    ensures !Truthy(EntryContent(body)) && Truthy(Prop(body, "content")) ==> r == Prop(body, "content")
    ensures !Truthy(r) <==> !Truthy(EntryContent(body)) && !Truthy(Prop(body, "content"))
  {
    var entry := Prop(body, "entry");
    var first := Index(entry, 0);
    if Truthy(body) && Truthy(entry) && Truthy(first) && Truthy(Prop(first, "content")) then
      Prop(first, "content")
    else if Truthy(body) && Truthy(Prop(body, "content")) then
      Prop(body, "content")
    else
      assert !Truthy(EntryContent(body)) by {
        if !Truthy(body) {
          assert entry == JUndef;
        }
        if !Truthy(entry) {
          assert first == JUndef;
        } else if !Truthy(first) {
          assert !IsObjectLike(first);
        }
      }
      JNull
  }

  /** The `isDone` values the code accepts: `true`, `"1"` and `1`, and nothing else. */
  predicate IsDoneFlag(v: JVal) {
    v == JBool(true) || v == JStr("1") || v == JNum(1)
  }

  /** `_contentIndicatesDone`. */
  predicate ContentIndicatesDone(content: JVal) {
    var state := Prop(content, "dispatchState");
    || state == JStr("DONE")
    || IsDoneFlag(Prop(content, "isDone"))
    || (state.JStr? && HasInfix(AsciiUpper(state.s), "DONE"))
  }

  /** Reference definition: `d`, `o`, `n`, `e` in either case start at `i`. */
  predicate DoneAt(s: string, i: int) {
    && 0 <= i && i + 4 <= |s|
    && (s[i] == 'd' || s[i] == 'D')
    && (s[i + 1] == 'o' || s[i + 1] == 'O')
    && (s[i + 2] == 'n' || s[i + 2] == 'N')
    && (s[i + 3] == 'e' || s[i + 3] == 'E')
  }

  /** At one position: the upper-cased text reads `DONE` exactly where `d`, `o`, `n`, `e`
      stand in either case. */
  lemma UpperDoneAt(s: string, i: int)
    requires 0 <= i && i + 4 <= |s|
    ensures InfixAt(AsciiUpper(s), "DONE", i) <==> DoneAt(s, i)
  {
    var w := AsciiUpper(s)[i..i + 4];
    assert w[0] == AsciiUpperChar(s[i]) && w[1] == AsciiUpperChar(s[i + 1]);
    assert w[2] == AsciiUpperChar(s[i + 2]) && w[3] == AsciiUpperChar(s[i + 3]);
    assert w == [w[0], w[1], w[2], w[3]];
    assert "DONE" == ['D', 'O', 'N', 'E'];
  }

  /** Upper-casing and searching for `DONE` finds exactly the case-insensitive occurrences. */
  lemma UpperHasDoneIff(s: string)
    ensures HasInfix(AsciiUpper(s), "DONE") <==> exists i :: DoneAt(s, i)
  {
    var u := AsciiUpper(s);
    if HasInfix(u, "DONE") {
      var i :| 0 <= i <= |u| - 4 && InfixAt(u, "DONE", i);
      UpperDoneAt(s, i);
    }
    if exists i :: DoneAt(s, i) {
      var i :| DoneAt(s, i);
      UpperDoneAt(s, i);
    }
  }

  /** The job is done exactly when `dispatchState` is a string holding "done" in any letter
      case, or `isDone` is `true`, `"1"` or `1`; in particular `isDone: "true"` alone is not done. */
  lemma ContentDoneIff(content: JVal)
    ensures ContentIndicatesDone(content) <==>
      || (Prop(content, "dispatchState").JStr? && exists i :: DoneAt(Prop(content, "dispatchState").s, i))
      || Prop(content, "isDone") in {JBool(true), JStr("1"), JNum(1)}
    ensures !Prop(content, "dispatchState").JStr? && Prop(content, "isDone") == JStr("true") ==>
      !ContentIndicatesDone(content)
  {
    var state := Prop(content, "dispatchState");
    if state.JStr? {
      UpperHasDoneIff(state.s);
      if state == JStr("DONE") {
        assert DoneAt(state.s, 0);
      }
    }
  }

  /** `_isJobDone`: reads the reply as text; a missing or throwing `text()`, a blank text, a text
      that does not parse or a body without content all mean "not done yet", never an error. */
  function IsJobDone(resp: Response, parse: JsonParser): (r: bool)
    ensures r ==> resp.text.Yields? && HasText(resp.text.value) && parse(resp.text.value).Some?
  {
    match resp.text
    case Missing => false
    case Throws(_) => false
    case Yields(t) =>
      if !HasText(t) then false
      else
        match parse(t)
        case None => false
        case Some(body) =>
          var content := ExtractContent(body);
          Truthy(content) && ContentIndicatesDone(content)
  }

  /** A reply is done exactly when its text parses to a body whose content (`entry[0].content`
      first, `content` second) says done by the reference rule. */
  lemma IsJobDoneIff(resp: Response, parse: JsonParser)
    ensures IsJobDone(resp, parse) <==>
      && resp.text.Yields? && HasText(resp.text.value) && parse(resp.text.value).Some?
      && var body := parse(resp.text.value).value;
         var content := if Truthy(EntryContent(body)) then EntryContent(body) else Prop(body, "content");
         && Truthy(content)
         && (|| (Prop(content, "dispatchState").JStr? && exists i :: DoneAt(Prop(content, "dispatchState").s, i))
             || Prop(content, "isDone") in {JBool(true), JStr("1"), JNum(1)})
  {
    if resp.text.Yields? && HasText(resp.text.value) && parse(resp.text.value).Some? {
      var body := parse(resp.text.value).value;
      ContentDoneIff(ExtractContent(body));
    }
  }

  /** The content `{dispatchState: "Done"}` says done. */
  lemma DispatchStateDoneMixedCase()
    ensures ContentIndicatesDone(JObj([Field("dispatchState", JStr("Done"))]))
  {
    var content := JObj([Field("dispatchState", JStr("Done"))]);
    assert Prop(content, "dispatchState") == JStr("Done");
    assert DoneAt("Done", 0);
    ContentDoneIff(content);
  }

  /** A reply `{"entry":[{"content":{"dispatchState":"Done"}}]}` marks the job done. */
  lemma EntryContentDispatchStateDone(resp: Response, parse: JsonParser)
    requires resp.text.Yields? && HasText(resp.text.value)
    requires parse(resp.text.value) ==
      Some(JObj([Field("entry", JArr([JObj([Field("content", JObj([Field("dispatchState", JStr("Done"))]))])]))]))
    ensures IsJobDone(resp, parse)
  {
    var content := JObj([Field("dispatchState", JStr("Done"))]);
    var first := JObj([Field("content", content)]);
    var body := parse(resp.text.value).value;
    assert Prop(body, "entry") == JArr([first]);
    assert ExtractContent(body) == content;
    DispatchStateDoneMixedCase();
  }
}
