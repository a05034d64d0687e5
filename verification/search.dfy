/** The `search` operation of the service: input checks, the job submission, the SID, the
    results fetch with its fallback to polling the job status, and the final table. The
    network is a scripted server: the k-th request made gets `server(k)`. */
module Search {
  import opened Basics
  import opened Text
  import opened Json
  import opened Errors
  import opened SidExtraction
  import opened JobStatus
  import opened ResultsTable

  type Port = n: nat | n < 65536

  /** The management port used when none is configured. */
  const DefaultMgmtPort: Port := 8089

  /** The number of status requests made before giving up on a job. */
  const MaxPolls: nat := 60

  /** The service settings after the constructor's fallbacks; the empty string stands for a
      setting that is absent. */
  datatype Config = Config(baseUrl: string, token: string, username: string, password: string, mgmtPort: Port)

  /** The hostname of a URL as `new URL(u).hostname` gives it, `None` when the URL does not parse. */
  type UrlHost = string -> Option<string>

  /** The `Authorization` header. The Basic credentials are kept before Base64 encoding. */
  datatype Authorization = Bearer(token: string) | Basic(credentials: string) | NoAuthorization

  datatype FormField = FormField(name: string, value: string)

  datatype RequestKind = Submit | ResultsFetch | StatusFetch

  /** One request: the job submission is a POST with a form body, the others are GETs. */
  datatype Request = Request(kind: RequestKind, url: string, auth: Authorization, form: seq<FormField>)

  /** What the server does with one request: refuse it (the fetch rejects) or answer it. */
  datatype FetchOutcome = Refused(reason: string) | Answered(response: Response)

  type Server = nat -> FetchOutcome

  /** What `search` resolves or rejects with, and the requests it made, in order. */
  datatype Outcome = Outcome(result: Result<Table, Failure>, requests: seq<Request>)

  /** `_authHeaders`: a token wins; otherwise a user name and a password, both present, give
      Basic credentials; otherwise no header. */
  function AuthHeader(cfg: Config): (r: Authorization)
    ensures r.Bearer? <==> cfg.token != ""
    ensures r.Basic? <==> cfg.token == "" && cfg.username != "" && cfg.password != ""
    ensures r.Bearer? ==> r.token == cfg.token
  {
    if cfg.token != "" then Bearer(cfg.token)
    else if cfg.username != "" && cfg.password != "" then Basic(cfg.username + ":" + cfg.password)
    else NoAuthorization
  }

  /** A user name without `:` is recovered from the Basic credentials up to the first `:`, and
      the password is the rest, whatever it holds. */
  lemma BasicCredentialsSplit(cfg: Config)
    requires cfg.token == "" && cfg.username != "" && cfg.password != ""
    requires ':' !in cfg.username
    ensures
      var c := AuthHeader(cfg).credentials;
      && IndexOfChar(c, ':') == Some(|cfg.username|)
      && c[..|cfg.username|] == cfg.username
      && c[|cfg.username| + 1..] == cfg.password
  {
    IndexOfCharAfterPrefix(cfg.username, ':', cfg.password);
    assert cfg.username + ":" + cfg.password == cfg.username + [':'] + cfg.password;
  }

  /** `_validateInputs`: a falsy query fails first, then a missing base URL. */
  function ValidateInputs(query: Option<string>, cfg: Config): (r: Option<Failure>)
    ensures r.None? <==> query.Some? && query.value != "" && cfg.baseUrl != ""
    ensures query.None? || query == Some("") ==> r == Some(SearchError("query required", None))
    ensures query.Some? && query.value != "" && cfg.baseUrl == "" ==> r == Some(SearchError("baseUrl required", None))
    ensures r.Some? ==> r.value.SearchError? && r.value.cause.None?
  {
    if query.None? || query.value == "" then Some(SearchError("query required", None))
    else if cfg.baseUrl == "" then Some(SearchError("baseUrl required", None))
    else None
  }

  /** `/^search\s+/i` matches `t` and ends at `n`: the keyword in any letter case, then the
      whole run of white space after it. */
  predicate KeywordPrefix(t: string, n: int) {
    && 6 < n <= |t|
    && AsciiUpper(t[..6]) == "SEARCH"
    && AllSpace(t[6..n])
    && (n == |t| || !IsJsSpace(t[n]))
  }

  /** `_normalizeQuery`: trims the query and removes one leading `search` keyword with the white
      space after it. What remains is a suffix of the trimmed query that starts with no white space. */
  function NormalizeQuery(q: string): (r: string)
    ensures |r| <= |Trim(q)| && r == Trim(q)[|Trim(q)| - |r|..]
    ensures r != [] ==> !IsJsSpace(r[0])
  {
    StripKeyword(Trim(q))
  }

  /** Removes a leading `/^search\s+/i` match from trimmed text. */
  function StripKeyword(t: string): (r: string)
    requires t != [] ==> !IsJsSpace(t[0])
    ensures |r| <= |t| && r == t[|t| - |r|..]
    ensures r != [] ==> !IsJsSpace(r[0])
  {
    if |t| > 6 && AsciiUpper(t[..6]) == "SEARCH" && IsJsSpace(t[6]) then TrimStart(t[6..]) else t
  }

  /** The query is left as trimmed exactly when `/^search\s+/i` does not match it; when it does,
      the match is removed. */
  lemma NormalizeQuerySpec(q: string)
    ensures NormalizeQuery(q) == Trim(q) <==> forall n :: !KeywordPrefix(Trim(q), n)
    ensures NormalizeQuery(q) != Trim(q) ==> exists n :: KeywordPrefix(Trim(q), n) && NormalizeQuery(q) == Trim(q)[n..]
  {
    var t := Trim(q);
    if |t| > 6 && AsciiUpper(t[..6]) == "SEARCH" && IsJsSpace(t[6]) {
      KeywordStripped(t);
    } else {
      NoKeyword(t);
    }
  }

  /** When the keyword test passes, the match ends where the remaining text starts. */
  lemma KeywordStripped(t: string)
    requires |t| > 6 && AsciiUpper(t[..6]) == "SEARCH" && IsJsSpace(t[6])
    ensures KeywordPrefix(t, |t| - |StripKeyword(t)|)
    ensures StripKeyword(t) == t[|t| - |StripKeyword(t)|..] && StripKeyword(t) != t
  {
    var r := TrimStart(t[6..]);
    var n := |t| - |r|;
    assert r == t[6..][|t[6..]| - |r|..];
    assert t[6..n] == t[6..][..|t[6..]| - |r|];
    assert t[n..] == r;
  }

  /** When the keyword test fails, `/^search\s+/i` matches nowhere. */
  lemma NoKeyword(t: string)
    requires !(|t| > 6 && AsciiUpper(t[..6]) == "SEARCH" && IsJsSpace(t[6]))
    ensures forall n :: !KeywordPrefix(t, n)
  {
    forall n ensures !KeywordPrefix(t, n) {
      if 6 < n <= |t| {
        assert t[6..n][0] == t[6];
      }
    }
  }

  /** Exactly one keyword is removed: a query written as `search ` followed by a body with
      no white space at either end normalises to that body, even when the body itself starts
      with `search`. */
  lemma NormalizeQueryStripsOneKeyword(body: string)
    requires body != [] && !IsJsSpace(body[0]) && !IsJsSpace(body[|body| - 1])
    ensures NormalizeQuery("search " + body) == body
  {
    var q := "search " + body;
    assert q == "search" + ([' '] + body);
    KeywordThenBody(q, body);
  }

  lemma KeywordThenBody(q: string, body: string)
    requires body != [] && !IsJsSpace(body[0]) && !IsJsSpace(body[|body| - 1])
    requires q == "search" + ([' '] + body)
    ensures NormalizeQuery(q) == body
  {
    assert q[0] == 's';
    assert q[|q| - 1] == body[|body| - 1];
    TrimUnpadded(q);
    StripKeywordThenBody(q, body);
  }

  lemma StripKeywordThenBody(q: string, body: string)
    requires body != [] && !IsJsSpace(body[0])
    requires q == "search" + ([' '] + body)
    ensures StripKeyword(q) == body
  {
    assert q[..6] == "search";
    UpperSearch();
    var rest := q[6..];
    assert rest == [' '] + body;
    assert rest[1..] == body;
    assert TrimStart(rest) == TrimStart(body);
  }

  lemma UpperSearch()
    ensures AsciiUpper("search") == "SEARCH"
  {
    var u := AsciiUpper("search");
    assert u[0] == 'S' && u[1] == 'E' && u[2] == 'A' && u[3] == 'R' && u[4] == 'C' && u[5] == 'H';
  }

  /** The form posted to create the job. */
  function SubmitForm(qbody: string): (r: seq<FormField>)
    ensures |r| == 2 && r[0].name == "search" && r[1] == FormField("output_mode", "json")
    ensures |r[0].value| == 7 + |qbody| && r[0].value[..7] == "search " && r[0].value[7..] == qbody
  {
    [FormField("search", "search " + qbody), FormField("output_mode", "json")]
  }

  const JobsSuffix: string := "/services/search/jobs"
  const ResultsQuery: string := "/results?output_mode=json&count=100"
  const StatusQuery: string := "?output_mode=json"

  /** `_buildJobsUrl`: always HTTPS, the host name of the base URL, the management port written
      in decimal, then the jobs endpoint. */
  function JobsUrl(host: string, port: Port): (r: string)
    ensures |r| == 9 + |host| + |NatToString(port)| + |JobsSuffix|
    ensures r[..8] == "https://" && r[8..8 + |host|] == host && r[8 + |host|] == ':'
    ensures r[9 + |host|..|r| - |JobsSuffix|] == NatToString(port)
    ensures forall i :: 9 + |host| <= i < |r| - |JobsSuffix| ==> IsDigit(r[i])
    ensures r[|r| - |JobsSuffix|..] == JobsSuffix
  {
    "https://" + host + ":" + NatToString(port) + JobsSuffix
  }

  /** The `origin` of the jobs URL, which leaves out the default HTTPS port. */
  function Origin(host: string, port: Port): (r: string)
    ensures |r| >= 8 + |host|
    ensures r[..8] == "https://" && r[8..8 + |host|] == host
    ensures port == 443 <==> |r| == 8 + |host|
  {
    "https://" + host + (if port == 443 then "" else ":" + NatToString(port))
  }

  /** The origin is the jobs URL cut before its path, less the port when it is 443. */
  lemma JobsUrlOrigin(host: string, port: Port)
    ensures port != 443 ==> JobsUrl(host, port) == Origin(host, port) + JobsSuffix
    ensures port == 443 ==> JobsUrl(host, port) == Origin(host, port) + ":443" + JobsSuffix
  {
    var scheme := "https://" + host;
    if port == 443 {
      DigitsOf443();
      assert Origin(host, port) == scheme + "";
      assert JobsUrl(host, port) == scheme + ":" + "443" + JobsSuffix;
    } else {
      assert Origin(host, port) == scheme + (":" + NatToString(port));
    }
  }

  lemma DigitsOf443()
    ensures NatToString(443) == "443"
  {
    assert NatToString(4) == "4";
    assert NatToString(44) == "44";
  }

  /** The results URL of a job: the origin, the jobs path, the SID, then the JSON query for up to
      100 results. */
  function ResultsUrl(origin: string, sid: string): (r: string)
    ensures |r| == |origin| + |JobsPath| + |sid| + |ResultsQuery|
    ensures r[..|origin|] == origin && r[|origin|..|origin| + |JobsPath|] == JobsPath
    ensures r[|origin| + |JobsPath|..|origin| + |JobsPath| + |sid|] == sid
    ensures r[|origin| + |JobsPath| + |sid|..] == ResultsQuery
  {
    origin + JobsPath + sid + ResultsQuery
  }

  /** The status URL of a job: the origin, the jobs path, the SID, then the JSON query. */
  function StatusUrl(origin: string, sid: string): (r: string)
    ensures |r| == |origin| + |JobsPath| + |sid| + |StatusQuery|
    ensures r[..|origin|] == origin && r[|origin|..|origin| + |JobsPath|] == JobsPath
    ensures r[|origin| + |JobsPath|..|origin| + |JobsPath| + |sid|] == sid
    ensures r[|origin| + |JobsPath| + |sid|..] == StatusQuery
  {
    origin + JobsPath + sid + StatusQuery
  }

  /** Each job URL names exactly one job: on one origin, equal URLs mean equal SIDs. */
  lemma JobUrlsDetermineSid(origin: string, sid1: string, sid2: string)
    ensures ResultsUrl(origin, sid1) == ResultsUrl(origin, sid2) ==> sid1 == sid2
    ensures StatusUrl(origin, sid1) == StatusUrl(origin, sid2) ==> sid1 == sid2
  {
  }

  /** The body of a results reply: `text()` when present (a throwing read gives ""), else
      `json()` written back as JSON text. A reply without a body, or whose `json()` gives
      `undefined`, reads as "", which every caller treats like the `undefined` of the code. */
  function ReadResultsText(res: Response): (r: string)
    ensures res.text.Yields? ==> r == res.text.value
    ensures res.text.Throws? ==> r == ""
    ensures res.text.Missing? && !res.json.Yields? ==> r == ""
    ensures res.text.Missing? && res.json.Yields? && !res.json.value.JUndef? ==> Stringify(res.json.value) == Some(r)
    ensures res.text.Missing? && res.json == Yields(JUndef) ==> r == ""
  {
    match res.text
    case Yields(t) => t
    case Throws(_) => ""
    case Missing =>
      match res.json
      case Yields(v) => Stringify(v).GetOr("")
      case _ => ""
  }

  /** `_fetchResultsText`: a refused request propagates, a reply that is not ok fails. */
  function FetchResults(o: FetchOutcome): (r: Result<string, Failure>)
    ensures r.Ok? <==> o.Answered? && o.response.ok
    ensures o.Refused? ==> r == Err(Rejected(o.reason))
    ensures o.Answered? && !o.response.ok ==>
      r == Err(SearchError("results fetch failed: " + ToStr(o.response.status), None))
  {
    match o
    case Refused(e) => Err(Rejected(e))
    case Answered(res) =>
      if !res.ok then Err(SearchError("results fetch failed: " + ToStr(res.status), None))
      else Ok(ReadResultsText(res))
  }

  /** What one status reply means for the poll. */
  datatype StatusVerdict = StatusDone | StatusPending | StatusFailed(error: Failure)

  /** One round of `_waitJobDone`: a refused request propagates, a reply that is not ok fails,
      otherwise `_isJobDone` decides. */
  function Verdict(o: FetchOutcome, parse: JsonParser): (v: StatusVerdict)
    ensures v.StatusFailed? <==> o.Refused? || !o.response.ok
    ensures o.Refused? ==> v == StatusFailed(Rejected(o.reason))
    ensures o.Answered? && !o.response.ok ==>
      v == StatusFailed(SearchError("job status fetch failed: " + ToStr(o.response.status), None))
    ensures o.Answered? && o.response.ok ==> (v == StatusDone <==> IsJobDone(o.response, parse))
  {
    match o
    case Refused(e) => StatusFailed(Rejected(e))
    case Answered(s) =>
      if !s.ok then StatusFailed(SearchError("job status fetch failed: " + ToStr(s.status), None))
      else if IsJobDone(s, parse) then StatusDone
      else StatusPending
  }

  datatype PollResult = PollResult(outcome: Result<bool, Failure>, used: nat)

  /** `_waitJobDone` with `remaining` attempts left, where `verdict(k)` is what the reply to the
      k-th request means and the first status request is the `start`-th. It stops at the first
      reply that is done or failed, and reports `false` only after `remaining` pending replies. */
  function Poll(verdict: nat -> StatusVerdict, start: nat, remaining: nat): (r: PollResult)
    ensures r.used <= remaining
    ensures remaining > 0 ==> r.used >= 1
    ensures forall k :: start <= k < start + r.used - 1 ==> verdict(k) == StatusPending
    ensures r.outcome == Ok(false) <==> forall k :: start <= k < start + remaining ==> verdict(k) == StatusPending
    ensures r.outcome == Ok(false) ==> r.used == remaining
    ensures r.outcome == Ok(true) ==> r.used >= 1 && verdict(start + r.used - 1) == StatusDone
    ensures r.outcome.Err? ==> r.used >= 1 && verdict(start + r.used - 1) == StatusFailed(r.outcome.error)
    decreases remaining
  {
    if remaining == 0 then PollResult(Ok(false), 0)
    else
      match verdict(start)
      case StatusFailed(e) => PollResult(Err(e), 1)
      case StatusDone => PollResult(Ok(true), 1)
      case StatusPending =>
        var rest := Poll(verdict, start + 1, remaining - 1);
        PollResult(rest.outcome, rest.used + 1)
  }

  /** What fetching the results produced: the text or the failure, how many status requests
      were made, and whether the results were fetched a second time. */
  datatype Fetched = Fetched(text: Result<string, Failure>, polls: nat, refetched: bool)

  /** What the reply to each request means when read as a status reply. */
  function StatusVerdicts(server: Server, parse: JsonParser): (verdict: nat -> StatusVerdict)
    ensures forall k: nat :: verdict(k) == Verdict(server(k), parse)
  {
    (k: nat) => Verdict(server(k), parse)
  }

  /** How a poll of the status replies `verdict(2)`, `verdict(3)`, … can end after `polls`
      requests: every reply before the last was pending, a pending last reply means the poll ran
      out, and the results are fetched again exactly when the last reply says done. */
  predicate PollEnded(verdict: nat -> StatusVerdict, polls: nat, refetched: bool) {
    && 1 <= polls <= MaxPolls
    && (forall k :: 2 <= k < 1 + polls ==> verdict(k) == StatusPending)
    && (verdict(1 + polls) == StatusPending ==> polls == MaxPolls)
    && (refetched <==> verdict(1 + polls) == StatusDone)
  }

  /** The branch of `_getSearchResults` taken after a blank first results text: poll from
      `server(2)` on, where `verdict(k)` is what the k-th reply means, then, once the job is
      done, fetch the results again. */
  function PollThenRefetch(server: Server, verdict: nat -> StatusVerdict): (r: Fetched)
    ensures PollEnded(verdict, r.polls, r.refetched)
    ensures 1 <= r.polls <= MaxPolls
    ensures forall k :: 2 <= k < 1 + r.polls ==> verdict(k) == StatusPending
    ensures r.refetched <==> verdict(1 + r.polls) == StatusDone
    ensures r.refetched ==> r.text == FetchResults(server(2 + r.polls))
    ensures !r.refetched ==> r.text.Err?
    ensures !r.refetched && verdict(1 + r.polls).StatusFailed? ==> r.text == Err(verdict(1 + r.polls).error)
    ensures verdict(1 + r.polls) == StatusPending <==> forall k :: 2 <= k < 2 + MaxPolls ==> verdict(k) == StatusPending
    ensures verdict(1 + r.polls) == StatusPending ==>
      r.polls == MaxPolls && r.text == Err(SearchError("timeout waiting for job to complete", None))
  {
    var p := Poll(verdict, 2, MaxPolls);
    match p.outcome
    case Err(e) => Fetched(Err(e), p.used, false)
    case Ok(done) =>
      if !done then Fetched(Err(SearchError("timeout waiting for job to complete", None)), p.used, false)
      else Fetched(FetchResults(server(2 + p.used)), p.used, true)
  }

  /** `_getSearchResults`: fetch the results at once (`server(1)`); only when that text is blank,
      poll the job status and fetch the results a second time. */
  function GetSearchResults(server: Server, verdict: nat -> StatusVerdict): (r: Fetched)
    ensures r.polls <= MaxPolls
    ensures r.polls == 0 <==> !(FetchResults(server(1)).Ok? && !HasText(FetchResults(server(1)).value))
    ensures r.polls == 0 ==> !r.refetched && r.text == FetchResults(server(1))
    ensures r.polls > 0 ==> r == PollThenRefetch(server, verdict)
    ensures r.text.Ok? ==> r.polls == 0 || r.refetched
  {
    match FetchResults(server(1))
    case Err(e) => Fetched(Err(e), 0, false)
    case Ok(text) =>
      if HasText(text) then Fetched(Ok(text), 0, false)
      else PollThenRefetch(server, verdict)
  }

  /** The requests in the order they are made: the submission, the first results fetch, the
      status requests, and the second results fetch if there was one. */
  function JobTrace(submit: Request, results: Request, status: Request, polls: nat, refetched: bool)
    : (rs: seq<Request>)
    ensures |rs| == 2 + polls + (if refetched then 1 else 0)
    ensures rs[0] == submit && rs[1] == results
    ensures forall i :: 2 <= i < 2 + polls ==> rs[i] == status
    ensures refetched ==> rs[|rs| - 1] == results
  {
    [submit, results] + Repeat(status, polls) + (if refetched then [results] else [])
  }

  /** The table for the final results text: a blank text gives empty fields and rows and no
      results; otherwise the parsed body, with `{}` in place of a falsy or unparsable one. */
  function TableFromText(text: string, parse: JsonParser): (r: Result<Table, Failure>)
    ensures !HasText(text) ==> r == Ok(Table(JArr([]), [], JUndef))
    ensures HasText(text) && parse(text).Some? && Truthy(parse(text).value) ==>
      r == DeriveFieldsAndRows(parse(text).value)
    ensures HasText(text) && (parse(text).None? || !Truthy(parse(text).value)) ==>
      r == Ok(Table(JArr([]), [], JNull))
  {
    if !HasText(text) then Ok(Table(JArr([]), [], JUndef))
    else
      var body := match parse(text) case Some(v) => (if Truthy(v) then v else JObj([])) case None => JObj([]);
      DeriveFieldsAndRows(body)
  }

  /** The table for what fetching the results produced: a failure propagates. */
  function TableOf(text: Result<string, Failure>, parse: JsonParser): (r: Result<Table, Failure>)
    ensures text.Err? ==> r == Err(text.error)
    ensures text.Ok? ==> r == TableFromText(text.value, parse)
  {
    match text
    case Err(e) => Err(e)
    case Ok(t) => TableFromText(t, parse)
  }

  const NoSidMessage: string := "no sid returned or empty/unparsable job response"

  /** `_executeSearchJob` after the POST: a refused request is a "network error" that wraps the
      rejection, a reply that is not ok fails with its status, and a reply without a SID fails. */
  function SubmitResult(o: FetchOutcome, parse: JsonParser): (r: Result<JVal, Failure>)
    ensures o.Refused? ==> r == Err(SearchError("network error", Some(o.reason)))
    ensures o.Answered? && !o.response.ok ==>
      r == Err(SearchError("search submit failed: " + ToStr(o.response.status), None))
    ensures r.Ok? <==> o.Answered? && o.response.ok && ExtractSid(o.response, parse).Some?
    ensures r.Ok? ==> Truthy(r.value) && r == Ok(ExtractSid(o.response, parse).value)
    ensures o.Answered? && o.response.ok && ExtractSid(o.response, parse).None? ==>
      r == Err(SearchError(NoSidMessage, None))
  {
    match o
    case Refused(e) => Err(SearchError("network error", Some(e)))
    case Answered(res) =>
      if !res.ok then Err(SearchError("search submit failed: " + ToStr(res.status), None))
      else
        match ExtractSid(res, parse)
        case None => Err(SearchError(NoSidMessage, None))
        case Some(sid) => Ok(sid)
  }

  /** The order every search makes its requests in: the submission first and never again, the
      same authorization throughout, a results fetch second, and status requests between the
      second request and the last, at most `MaxPolls` of them. */
  predicate JobRequests(rs: seq<Request>, submit: Request) {
    && 1 <= |rs| <= 3 + MaxPolls
    && rs[0] == submit
    && (forall i :: 1 <= i < |rs| ==> rs[i].auth == submit.auth && rs[i].kind != Submit)
    && (|rs| >= 2 ==> rs[1].kind == ResultsFetch)
    && (forall i :: 2 <= i < |rs| - 1 ==> rs[i].kind == StatusFetch)
  }

  /** A trace built from a submission, a results request and a status request with the same
      authorization keeps the `JobRequests` order. */
  lemma JobTraceOrder(submit: Request, results: Request, status: Request, polls: nat, refetched: bool)
    requires submit.kind == Submit && results.kind == ResultsFetch && status.kind == StatusFetch
    requires results.auth == submit.auth && status.auth == submit.auth
    requires polls <= MaxPolls
    ensures JobRequests(JobTrace(submit, results, status, polls, refetched), submit)
  {
    var rs := JobTrace(submit, results, status, polls, refetched);
    forall i | 1 <= i < |rs|
      ensures rs[i].auth == submit.auth && rs[i].kind != Submit
    {
      if i == 1 {
      } else if i < 2 + polls {
        assert rs[i] == status;
      } else {
        assert rs[i] == results;
      }
    }
    forall i | 2 <= i < |rs| - 1
      ensures rs[i].kind == StatusFetch
    {
      assert rs[i] == status;
    }
  }

  /** The requests and the result once the SID is known and the results have been fetched. */
  function JobOutcome(submit: Request, origin: string, sid: JVal, f: Fetched, parse: JsonParser): (r: Outcome)
    requires submit.kind == Submit && f.polls <= MaxPolls
    requires f.text.Ok? ==> f.polls == 0 || f.refetched
    ensures |r.requests| == 2 + f.polls + (if f.refetched then 1 else 0)
    ensures JobRequests(r.requests, submit)
    ensures r.result.Ok? ==> r.requests[|r.requests| - 1].kind == ResultsFetch
    ensures f.refetched ==> r.requests[|r.requests| - 1] == r.requests[1]
    ensures r.result == TableOf(f.text, parse)
    ensures r.requests[1].url == ResultsUrl(origin, ToStr(sid))
    ensures forall i :: 2 <= i < 2 + f.polls ==> r.requests[i].url == StatusUrl(origin, ToStr(sid))
  {
    var results := Request(ResultsFetch, ResultsUrl(origin, ToStr(sid)), submit.auth, []);
    var status := Request(StatusFetch, StatusUrl(origin, ToStr(sid)), submit.auth, []);
    JobTraceOrder(submit, results, status, f.polls, f.refetched);
    Outcome(TableOf(f.text, parse), JobTrace(submit, results, status, f.polls, f.refetched))
  }

  /** The job once its submission request is built: submit, read the SID, fetch the results. */
  function RunJob(server: Server, submit: Request, origin: string, parse: JsonParser): (r: Outcome)
    requires submit.kind == Submit
    ensures SubmitResult(server(0), parse).Err? ==>
      r == Outcome(Err(SubmitResult(server(0), parse).error), [submit])
    ensures JobRequests(r.requests, submit)
    ensures r.result.Ok? ==> |r.requests| >= 2 && r.requests[|r.requests| - 1].kind == ResultsFetch
  {
    match SubmitResult(server(0), parse)
    case Err(e) => Outcome(Err(e), [submit])
    case Ok(sid) => JobAfterSubmit(server, submit, origin, sid, parse)
  }

  /** The job once its SID is known: fetch the results, polling if need be, and read the table. */
  function JobAfterSubmit(server: Server, submit: Request, origin: string, sid: JVal, parse: JsonParser): (r: Outcome)
    requires submit.kind == Submit
    ensures JobRequests(r.requests, submit)
    ensures r.result.Ok? ==> |r.requests| >= 2 && r.requests[|r.requests| - 1].kind == ResultsFetch
    ensures
      var f := GetSearchResults(server, StatusVerdicts(server, parse));
      && |r.requests| == 2 + f.polls + (if f.refetched then 1 else 0)
      && r.requests[1].kind == ResultsFetch
      && (f.refetched ==> r.requests[|r.requests| - 1] == r.requests[1])
      && r.result == TableOf(f.text, parse)
  {
    JobOutcome(submit, origin, sid, GetSearchResults(server, StatusVerdicts(server, parse)), parse)
  }

  /** The submission request for a query: a POST to the jobs endpoint with the normalised query. */
  function SubmitRequest(host: string, cfg: Config, query: string): (req: Request)
    ensures req.kind == Submit && req.auth == AuthHeader(cfg)
    ensures req.url == JobsUrl(host, cfg.mgmtPort)
    ensures req.form == SubmitForm(NormalizeQuery(query))
  {
    Request(Submit, JobsUrl(host, cfg.mgmtPort), AuthHeader(cfg), SubmitForm(NormalizeQuery(query)))
  }

  /** `search`: validate, build the submission, then run the job. Invalid input fails before
      any request; otherwise the requests follow `JobRequests` from the submission of the
      normalised query, and a table is only returned after a results fetch. */
  function Search(query: Option<string>, cfg: Config, hostOf: UrlHost, parse: JsonParser, server: Server)
    : (r: Outcome)
    ensures ValidateInputs(query, cfg).Some? ==> r == Outcome(Err(ValidateInputs(query, cfg).value), [])
    ensures ValidateInputs(query, cfg).None? && hostOf(cfg.baseUrl).None? ==>
      r == Outcome(Err(SearchError("invalid baseUrl", Some("Invalid URL"))), [])
    ensures r.requests != [] ==>
      && query.Some? && hostOf(cfg.baseUrl).Some?
      && JobRequests(r.requests, SubmitRequest(hostOf(cfg.baseUrl).value, cfg, query.value))
    ensures r.result.Ok? ==> |r.requests| >= 2 && r.requests[|r.requests| - 1].kind == ResultsFetch
  {
    match ValidateInputs(query, cfg)
    case Some(e) => Outcome(Err(e), [])
    case None =>
      match hostOf(cfg.baseUrl)
      case None => Outcome(Err(SearchError("invalid baseUrl", Some("Invalid URL"))), [])
      case Some(host) => RunJob(server, SubmitRequest(host, cfg, query.value), Origin(host, cfg.mgmtPort), parse)
  }

  // ---- properties of a whole search ----

  /** A submission that fails is the search's failure: the search stops after its one submission
      request and reports that submission's error. */
  lemma SubmitFailureEndsSearch(query: Option<string>, cfg: Config, hostOf: UrlHost, parse: JsonParser, server: Server)
    requires ValidateInputs(query, cfg).None? && hostOf(cfg.baseUrl).Some?
    requires SubmitResult(server(0), parse).Err?
    ensures query.Some?
    ensures Search(query, cfg, hostOf, parse, server)
         == Outcome(Err(SubmitResult(server(0), parse).error), [SubmitRequest(hostOf(cfg.baseUrl).value, cfg, query.value)])
  {
  }

  /** Once the job is submitted and has a SID, the search makes the submission, the first results
      fetch, the status requests and the second results fetch that `GetSearchResults` reports,
      and its result is the table for the text it fetched. */
  lemma SearchAfterSubmit(query: Option<string>, cfg: Config, hostOf: UrlHost, parse: JsonParser, server: Server)
    requires ValidateInputs(query, cfg).None? && hostOf(cfg.baseUrl).Some?
    requires SubmitResult(server(0), parse).Ok?
    ensures
      var f := GetSearchResults(server, StatusVerdicts(server, parse));
      var r := Search(query, cfg, hostOf, parse, server);
      && |r.requests| == 2 + f.polls + (if f.refetched then 1 else 0)
      && r.requests[1].kind == ResultsFetch
      && (f.refetched ==> r.requests[|r.requests| - 1] == r.requests[1])
      && r.result == TableOf(f.text, parse)
  {
  }

  /** The search's URLs: the submission goes to the jobs endpoint on the management port, and
      the results fetch and every status request name the SID the submission returned, on the
      origin of the jobs URL. */
  lemma SearchUrls(query: Option<string>, cfg: Config, hostOf: UrlHost, parse: JsonParser, server: Server)
    requires ValidateInputs(query, cfg).None? && hostOf(cfg.baseUrl).Some?
    requires SubmitResult(server(0), parse).Ok?
    ensures
      var host := hostOf(cfg.baseUrl).value;
      var sid := ToStr(SubmitResult(server(0), parse).value);
      var f := GetSearchResults(server, StatusVerdicts(server, parse));
      var r := Search(query, cfg, hostOf, parse, server);
      && r.requests[0].url == JobsUrl(host, cfg.mgmtPort)
      && r.requests[1].url == ResultsUrl(Origin(host, cfg.mgmtPort), sid)
      && (forall i :: 2 <= i < 2 + f.polls ==> r.requests[i].url == StatusUrl(Origin(host, cfg.mgmtPort), sid))
  {
    var host := hostOf(cfg.baseUrl).value;
    var submit := SubmitRequest(host, cfg, query.value);
    var sid := SubmitResult(server(0), parse).value;
    var f := GetSearchResults(server, StatusVerdicts(server, parse));
    assert Search(query, cfg, hostOf, parse, server)
        == JobOutcome(submit, Origin(host, cfg.mgmtPort), sid, f, parse);
  }

  /** A first results reply with text ends the search: two requests, no status polling, and the
      table read from that text. */
  lemma ImmediateResultsSkipPolling(query: Option<string>, cfg: Config, hostOf: UrlHost, parse: JsonParser, server: Server)
    requires ValidateInputs(query, cfg).None? && hostOf(cfg.baseUrl).Some?
    requires SubmitResult(server(0), parse).Ok?
    requires FetchResults(server(1)).Ok? && HasText(FetchResults(server(1)).value)
    ensures
      var r := Search(query, cfg, hostOf, parse, server);
      && |r.requests| == 2 && r.requests[1].kind == ResultsFetch
      && r.result == TableFromText(FetchResults(server(1)).value, parse)
  {
    SearchAfterSubmit(query, cfg, hostOf, parse, server);
  }

  /** A job whose status stays pending for all `MaxPolls` status requests fails with the timeout
      message, after the submission, one results fetch and the `MaxPolls` status requests. */
  lemma PendingJobTimesOut(query: Option<string>, cfg: Config, hostOf: UrlHost, parse: JsonParser, server: Server)
    requires ValidateInputs(query, cfg).None? && hostOf(cfg.baseUrl).Some?
    requires SubmitResult(server(0), parse).Ok?
    requires FetchResults(server(1)).Ok? && !HasText(FetchResults(server(1)).value)
    requires forall k :: 2 <= k < 2 + MaxPolls ==> Verdict(server(k), parse) == StatusPending
    ensures
      var r := Search(query, cfg, hostOf, parse, server);
      && r.result == Err(SearchError("timeout waiting for job to complete", None))
      && |r.requests| == 2 + MaxPolls
  {
    var verdict := StatusVerdicts(server, parse);
    var p := PollThenRefetch(server, verdict);
    assert verdict(1 + p.polls) == StatusPending;
    SearchAfterSubmit(query, cfg, hostOf, parse, server);
  }

  /** When the n-th status reply is the first that is not pending and it says done, the search
      makes n status requests, fetches the results a second time from the same URL, and reads
      the table from that second reply. */
  lemma DoneJobIsRefetched(query: Option<string>, cfg: Config, hostOf: UrlHost, parse: JsonParser, server: Server, n: nat)
    requires ValidateInputs(query, cfg).None? && hostOf(cfg.baseUrl).Some?
    requires SubmitResult(server(0), parse).Ok?
    requires FetchResults(server(1)).Ok? && !HasText(FetchResults(server(1)).value)
    requires 1 <= n <= MaxPolls
    requires forall k :: 2 <= k < 1 + n ==> Verdict(server(k), parse) == StatusPending
    requires Verdict(server(1 + n), parse) == StatusDone
    ensures
      var r := Search(query, cfg, hostOf, parse, server);
      && |r.requests| == 3 + n
      && r.requests[|r.requests| - 1] == r.requests[1]
      && r.result == TableOf(FetchResults(server(2 + n)), parse)
  {
    DoneJobFetch(server, parse, n);
    SearchAfterSubmit(query, cfg, hostOf, parse, server);
  }

  /** The fetch part of `DoneJobIsRefetched`: n status requests, then the second results reply. */
  lemma DoneJobFetch(server: Server, parse: JsonParser, n: nat)
    requires FetchResults(server(1)).Ok? && !HasText(FetchResults(server(1)).value)
    requires 1 <= n <= MaxPolls
    requires forall k :: 2 <= k < 1 + n ==> Verdict(server(k), parse) == StatusPending
    requires Verdict(server(1 + n), parse) == StatusDone
    ensures GetSearchResults(server, StatusVerdicts(server, parse)) == Fetched(FetchResults(server(2 + n)), n, true)
  {
    var verdict := StatusVerdicts(server, parse);
    assert forall k :: 2 <= k < 1 + n ==> verdict(k) == StatusPending;
    assert verdict(1 + n) == StatusDone;
    PollStopsAtFirstDone(server, verdict, n);
    RefetchedText(server, verdict, n);
    BlankFirstTextPolls(server, verdict);
  }

  /** A blank first results text hands over to the poll. */
  lemma BlankFirstTextPolls(server: Server, verdict: nat -> StatusVerdict)
    requires FetchResults(server(1)).Ok? && !HasText(FetchResults(server(1)).value)
    ensures GetSearchResults(server, verdict) == PollThenRefetch(server, verdict)
  {
  }

  /** A poll of n status requests that ends in a refetch reads the reply right after them. */
  lemma RefetchedText(server: Server, verdict: nat -> StatusVerdict, n: nat)
    requires PollThenRefetch(server, verdict).polls == n && PollThenRefetch(server, verdict).refetched
    ensures PollThenRefetch(server, verdict) == Fetched(FetchResults(server(2 + n)), n, true)
  {
    var p := PollThenRefetch(server, verdict);
    var k: nat := 2 + p.polls;
    assert k == 2 + n;
    assert p.text == FetchResults(server(k));
  }

  /** The poll stops at the first status reply that is not pending. */
  lemma PollStopsAtFirstDone(server: Server, verdict: nat -> StatusVerdict, n: nat)
    requires 1 <= n <= MaxPolls
    requires forall k :: 2 <= k < 1 + n ==> verdict(k) == StatusPending
    requires verdict(1 + n) == StatusDone
    ensures PollThenRefetch(server, verdict).polls == n && PollThenRefetch(server, verdict).refetched
  {
    var p := PollThenRefetch(server, verdict);
    StopsAtFirstDone(verdict, p.polls, p.refetched, n);
  }

  /** A poll that saw only pending replies before its last one, and that ran out only on a pending
      reply, stopped at the first reply that says done, and refetches. */
  lemma StopsAtFirstDone(verdict: nat -> StatusVerdict, polls: nat, refetched: bool, n: nat)
    requires 1 <= n <= MaxPolls
    requires forall k :: 2 <= k < 1 + n ==> verdict(k) == StatusPending
    requires verdict(1 + n) == StatusDone
    requires PollEnded(verdict, polls, refetched)
    ensures polls == n && refetched
  {
  }

  /** The settings of the source's tests: base URL `http://localhost`, user `a`, password `b`. */
  const TestConfig: Config := Config("http://localhost", "", "a", "b", DefaultMgmtPort)

  /** A rejected submission fails the search with "network error", wrapping the rejection,
      after that single request. */
  lemma SubmitRefusedEndsSearch(query: Option<string>, cfg: Config, hostOf: UrlHost, parse: JsonParser, server: Server)
    requires ValidateInputs(query, cfg).None? && hostOf(cfg.baseUrl).Some?
    requires server(0).Refused?
    ensures
      var r := Search(query, cfg, hostOf, parse, server);
      && r.result == Err(SearchError("network error", Some(server(0).reason)))
      && |r.requests| == 1 && r.requests[0].kind == Submit
  {
    SubmitFailureEndsSearch(query, cfg, hostOf, parse, server);
  }

  /** A submission answered with a status that is not ok fails the search with
      "search submit failed: " and the status, after that single request. */
  lemma SubmitNotOkEndsSearch(query: Option<string>, cfg: Config, hostOf: UrlHost, parse: JsonParser, server: Server)
    requires ValidateInputs(query, cfg).None? && hostOf(cfg.baseUrl).Some?
    requires server(0).Answered? && !server(0).response.ok
    ensures
      var r := Search(query, cfg, hostOf, parse, server);
      && r.result == Err(SearchError("search submit failed: " + ToStr(server(0).response.status), None))
      && |r.requests| == 1 && r.requests[0].kind == Submit
  {
    SubmitFailureEndsSearch(query, cfg, hostOf, parse, server);
  }

  /** `search("foo")` with the test settings, when fetch rejects with `net`: "network error". */
  lemma NetworkErrorOnSubmit(hostOf: UrlHost, parse: JsonParser, server: Server)
    requires hostOf(TestConfig.baseUrl).Some?
    requires server(0) == Refused("net")
    ensures
      var r := Search(Some("foo"), TestConfig, hostOf, parse, server);
      r.result == Err(SearchError("network error", Some("net"))) && |r.requests| == 1
  {
    SubmitRefusedEndsSearch(Some("foo"), TestConfig, hostOf, parse, server);
  }

  /** `search("foo")` with the test settings, when the reply is `{ok: false, status: 500}`:
      "search submit failed: 500". */
  lemma ServerErrorOnSubmit(hostOf: UrlHost, parse: JsonParser, server: Server)
    requires hostOf(TestConfig.baseUrl).Some?
    requires server(0) == Answered(Response(false, JNum(500), Missing, Missing, None))
    ensures
      var r := Search(Some("foo"), TestConfig, hostOf, parse, server);
      r.result == Err(SearchError("search submit failed: 500", None)) && |r.requests| == 1
  {
    SubmitNotOkEndsSearch(Some("foo"), TestConfig, hostOf, parse, server);
    StatusText500();
  }

  lemma StatusText500()
    ensures "search submit failed: " + ToStr(JNum(500)) == "search submit failed: 500"
  {
    assert ToStr(JNum(500)) == "500";
  }

  /** The fields, results and rows of the source's two-row test. */
  const TwoRowFields: JVal := JArr([JStr("a"), JStr("b")])
  const TwoRowResults: JVal :=
    JArr([JObj([Field("a", JNum(1)), Field("b", JNum(2))]), JObj([Field("a", JNum(3)), Field("b", JNum(4))])])
  const TwoRowRows: seq<JVal> := [JArr([JNum(1), JNum(2)]), JArr([JNum(3), JNum(4)])]

  /** The results body `{fields: ["a","b"], results: [{a: 1, b: 2}, {a: 3, b: 4}]}`. */
  const TwoRowBody: JVal := JObj([Field("fields", TwoRowFields), Field("results", TwoRowResults)])

  /** A submission reply with a blank `text()` and `{sid: "S1"}` from `json()` gives the SID. */
  lemma TwoRowSubmit(parse: JsonParser, o: FetchOutcome)
    requires o == Answered(Response(true, JUndef, Yields(""), Yields(JObj([Field("sid", JStr("S1"))])), None))
    ensures SubmitResult(o, parse) == Ok(JStr("S1"))
  {
    BlankTextJsonSid(o.response, parse);
  }

  /** A results reply with only `json()` reads as that body written back as JSON text. */
  lemma JsonOnlyResults(o: FetchOutcome, body: JVal)
    requires body.JObj?
    requires o == Answered(Response(true, JUndef, Missing, Yields(body), None))
    ensures FetchResults(o) == Ok(Stringify(body).value) && HasText(Stringify(body).value)
  {
    ObjectTextHasText(body);
  }

  /** An object written as JSON text starts with `{`, so the text is not blank. */
  lemma ObjectTextHasText(body: JVal)
    requires body.JObj?
    ensures HasText(Stringify(body).value)
  {
    var text := Stringify(body).value;
    assert text[0] == '{';
  }

  /** The two replies of the test: the submission yields a SID and the results read as the
      body's JSON text. */
  lemma TwoRowReplies(parse: JsonParser, server: Server)
    requires server(0) == Answered(Response(true, JUndef, Yields(""), Yields(JObj([Field("sid", JStr("S1"))])), None))
    requires server(1) == Answered(Response(true, JUndef, Missing, Yields(TwoRowBody), None))
    ensures SubmitResult(server(0), parse).Ok?
    ensures FetchResults(server(1)) == Ok(Stringify(TwoRowBody).value) && HasText(Stringify(TwoRowBody).value)
  {
    TwoRowSubmit(parse, server(0));
    JsonOnlyResults(server(1), TwoRowBody);
  }

  /** The body reads as its rows `[[1, 2], [3, 4]]`. */
  lemma TwoRowTable(parse: JsonParser)
    requires parse(Stringify(TwoRowBody).value) == Some(TwoRowBody)
    ensures TableFromText(Stringify(TwoRowBody).value, parse) ==
      Ok(Table(TwoRowFields, TwoRowRows, TwoRowResults))
  {
    ParsedObjectTable(TwoRowBody, parse);
    TwoObjectResults();
  }

  /** An object written as JSON text and parsed back reads as the table of that object. */
  lemma ParsedObjectTable(body: JVal, parse: JsonParser)
    requires body.JObj? && parse(Stringify(body).value) == Some(body)
    ensures TableFromText(Stringify(body).value, parse) == DeriveFieldsAndRows(body)
  {
    var text := Stringify(body).value;
    assert text[0] == '{';
  }

  /** A search whose submission yields a SID and whose first results reply has text makes
      two requests and returns the table read from that text. */
  lemma ImmediateTableSearch(query: Option<string>, cfg: Config, hostOf: UrlHost, parse: JsonParser, server: Server,
                             text: string, t: Result<Table, Failure>)
    requires ValidateInputs(query, cfg).None? && hostOf(cfg.baseUrl).Some?
    requires SubmitResult(server(0), parse).Ok?
    requires FetchResults(server(1)) == Ok(text) && HasText(text)
    requires TableFromText(text, parse) == t
    ensures
      var r := Search(query, cfg, hostOf, parse, server);
      |r.requests| == 2 && r.result == t
  {
    ImmediateResultsSkipPolling(query, cfg, hostOf, parse, server);
  }

  /** A search whose submission yields a SID and whose first results reply holds only a
      `json()` object makes two requests and returns the table of that object's JSON text. */
  lemma JsonOnlyTableSearch(query: Option<string>, cfg: Config, hostOf: UrlHost, parse: JsonParser, server: Server,
                            body: JVal, t: Result<Table, Failure>)
    requires ValidateInputs(query, cfg).None? && hostOf(cfg.baseUrl).Some?
    requires SubmitResult(server(0), parse).Ok?
    requires body.JObj? && server(1) == Answered(Response(true, JUndef, Missing, Yields(body), None))
    requires TableFromText(Stringify(body).value, parse) == t
    ensures
      var r := Search(query, cfg, hostOf, parse, server);
      |r.requests| == 2 && r.result == t
  {
    JsonOnlyResults(server(1), body);
    ImmediateTableSearch(query, cfg, hostOf, parse, server, Stringify(body).value, t);
  }

  /** A complete search: the submission reply has a blank `text()` and a `json()` holding the
      SID, the first results reply has only a `json()`. For any valid query and base URL, the
      search makes two requests and returns the fields, the rows `[[1, 2], [3, 4]]` and the
      results as given. */
  lemma TwoRowSearch(query: Option<string>, cfg: Config, hostOf: UrlHost, parse: JsonParser, server: Server)
    requires ValidateInputs(query, cfg).None? && hostOf(cfg.baseUrl).Some?
    requires server(0) == Answered(Response(true, JUndef, Yields(""), Yields(JObj([Field("sid", JStr("S1"))])), None))
    requires server(1) == Answered(Response(true, JUndef, Missing, Yields(TwoRowBody), None))
    requires parse(Stringify(TwoRowBody).value) == Some(TwoRowBody)
    ensures
      var r := Search(query, cfg, hostOf, parse, server);
      && |r.requests| == 2
      && r.result == Ok(Table(TwoRowFields, TwoRowRows, TwoRowResults))
  {
    TwoRowSubmit(parse, server(0));
    TwoRowTable(parse);
    JsonOnlyTableSearch(query, cfg, hostOf, parse, server, TwoRowBody,
                        Ok(Table(TwoRowFields, TwoRowRows, TwoRowResults)));
  }
}
