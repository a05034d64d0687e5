# splunk-query: a Dafny model of the search core

This project models the core of `splunk-query`, a command-line client that runs one search
against the Splunk REST API and writes the results. The model covers:

- `SplunkService.search`:
  - input validation and query normalisation;
  - the `Authorization` header and the job submission;
  - the cascade that reads the job's SID (search identifier) out of the submission reply;
  - the immediate results fetch, and the 60-attempt status poll that follows when it is blank;
  - the refetch, and the reduction of the results body to `{fields, rows, results}`.
- `normalizeResults`, which flattens that object into records.
- The two output writers that turn records into text:
  - the CSV writer's header and lines;
  - the console writer's table layout and its simple key/value listing.

## How the model is organised

| module | file | what it holds |
|---|---|---|
| `Basics` | basics.dfy | `Option` and `Result` |
| `Text` | text.dfy | the JavaScript string operations the code calls |
| `Json` | json.dfy | JavaScript values with their runtime operations |
| `Errors` | errors.dfy | what a failed search rejects with |
| `SidExtraction` | sid.dfy | the SID cascade |
| `JobStatus` | job_status.dfy | whether a status reply says the job is done |
| `ResultsTable` | results_table.dfy | `_deriveFieldsAndRows` and its helpers |
| `Search` | search.dfy | validation, the request sequence and `search` itself |
| `Normalize` | normalize.dfy | every function of `normalizeResults.ts` |
| `Csv` | csv.dfy | the CSV text |
| `ConsoleLayout` | console.dfy | the lines `writeConsole` and `writeConsoleSimple` print |

The `Text` module covers `trim`, `join`, `split`, `padEnd`, `repeat`, UTF-16 `length`,
number text and upper-casing.

The `Json` module works as follows:

- Values are `null`, `undefined`, booleans, integers, strings, arrays and objects. An object
  keeps its own properties in insertion order.
- It models truthiness, `typeof`, property access, `String(v)` and `Array.prototype.join`.
- It models `JSON.stringify`, and proves that its string literals decode back.

The network is a scripted server, `Server = nat -> FetchOutcome`: the k-th request `search`
makes receives `server(k)`.

- A `FetchOutcome` is either a rejected fetch or a response.
- A response records `ok`, `status`, what `text()` and `json()` do (missing, throwing, or
  yielding a value) and the `Location` header.
- `JSON.parse` is a parameter `string -> Option<JVal>`.
- So is the host name that `new URL(baseUrl)` yields.

`Search.Search` returns the result or the failure, together with the list of requests made, in
order.

Where the code and its written description differ, the model follows the code:

- A non-blank submission body that holds no SID does not fall back to the `Location` header.
  Only a blank or unreadable body does (`SidExtraction.NonBlankBodyIgnoresHeader`).
- A status with `isDone: "true"` does not count as done. Only `true`, `"1"` and `1` do
  (`JobStatus.ContentDoneIff`).
- An array element of `results` becomes a record keyed `"0"`, `"1"`, …
  (`Normalize.ArrayResultGetsIndexKeys`).
- An object row keeps its own keys whether or not `fields` is given
  (`Normalize.ObjectRowKeepsOwnKeys`).
- CSV cells are written with `JSON.stringify`. A string cell keeps its double quotes and
  backslash escapes; it is not quoted the RFC 4180 way (`Csv.Cell`).

## Model

| member | source | states |
|---|---|---|
| Search.AuthHeader | src/SplunkService.ts:59-67 | A token gives Bearer with that token. Without a token, a user name and password that are both non-empty give Basic with `user:password`. Otherwise there is no header. |
| Search.BasicCredentialsSplit | src/SplunkService.ts:61-64 | When the user name has no `:`, the Basic credentials split back into exactly the user name and the password. |
| Search.ValidateInputs | src/SplunkService.ts:505-508 | Input passes exactly when the query is non-empty and a base URL is set. A missing or empty query fails first, with "query required". A non-empty query with an empty base URL fails with "baseUrl required". Neither error carries a cause. |
| Search.NormalizeQuery | src/SplunkService.ts:85-88 | The result is a suffix of the trimmed query and never starts with white space. |
| Search.NormalizeQuerySpec | src/SplunkService.ts:85-88 | The trimmed query comes back unchanged exactly when no case-insensitive `search` followed by white space starts it. Otherwise the result is what follows such a match. |
| Search.NormalizeQueryStripsOneKeyword | src/SplunkService.ts:85-88 | `"search " + body` normalises to `body`, for any trimmed body. Only one keyword is removed, even when the body itself starts with `search`. |
| Search.SubmitForm | src/SplunkService.ts:108-112 | The job is posted with two form fields: `search` set to `"search "` plus the normalised query, and `output_mode=json`. |
| Search.ReadResultsText | src/SplunkService.ts:547-553 | The results text is what `text()` yields, or "" when `text()` throws. Without `text()`, a `json()` value other than `undefined` gives that value's JSON text. A `json()` that throws, yields `undefined` or is missing gives "". |
| Search.FetchResults | src/SplunkService.ts:544-554 | A results fetch succeeds exactly when the response is ok. A rejected fetch propagates unchanged. A response that is not ok fails with "results fetch failed: " and the status. |
| Search.Verdict | src/SplunkService.ts:299-302 | A status reply fails the poll exactly when the fetch is rejected or the response is not ok. Among ok replies, it says done exactly when `IsJobDone` holds. |
| Search.Poll | src/SplunkService.ts:297-306 | The poll makes at most the allowed number of attempts, and every attempt before the last is pending. It gives false exactly when all attempts are pending, and then uses all of them. It gives true only when the last attempt is done, and fails with that attempt's error when the last attempt failed. |
| Search.PollThenRefetch | src/SplunkService.ts:483-488 | After a blank first results text, the search polls 1 to 60 times. It refetches exactly when the last poll says done, and the refetched text is the result. It times out exactly when all 60 status replies are pending. Any other stop is that poll's error. |
| Search.GetSearchResults | src/SplunkService.ts:479-490 | The search polls only when the first results fetch succeeds with a blank text. Otherwise that fetch's outcome is final. A successful text comes either from the first fetch or from the refetch. |
| Search.JobTrace | src/SplunkService.ts:479-490 | The requests go in this order: the submission, the first results fetch, one status request per poll, then, if the job was refetched, the results URL again. |
| Search.TableFromText | src/SplunkService.ts:426-429 | A blank text gives empty fields and rows with no results. A text that parses to a truthy value gives `DeriveFieldsAndRows` of that value. Anything else is read as `{}`. |
| Search.TableOf | src/SplunkService.ts:424-429 | A failure while fetching the results is the search's failure. Otherwise the table is built from the text. |
| Search.SubmitResult | src/SplunkService.ts:457-470 | A rejected submission is a "network error" whose `cause` is the rejection, as src/errors.js stores it. A submission that is not ok fails with its status. Otherwise the search goes on exactly when the reply yields a SID, and that SID is truthy. |
| Search.JobOutcome | src/SplunkService.ts:479-488 | Once the SID is known, the number of requests is 2 plus the polls, plus 1 for a refetch. The request list keeps the `JobRequests` order. The first results fetch goes to the results URL of the SID, and every status request goes to its status URL. The result is the table of the fetched text. |
| Search.RunJob | src/SplunkService.ts:457-490 | A failed submission ends the job at once with that failure, after the one submission request. Every request after the submission carries the same authorisation, and the submission is never repeated. A successful job ends on a results fetch. |
| Search.JobAfterSubmit | src/SplunkService.ts:419-430 | After a successful submission the requests keep the `JobRequests` order, and their number is 2 plus the polls, plus 1 for a refetch. A successful job ends on a results fetch, and its table is that of the fetched text. |
| Search.SubmitRequest | src/SplunkService.ts:105-112 | The job is submitted by a POST to the jobs URL on the management port, carrying the configured authorisation and the normalised query. |
| Search.JobsUrl | src/SplunkService.ts:73-78 | The jobs URL is `https://`, the host name, `:`, the management port in decimal digits, then `/services/search/jobs`. It always names the port and always uses HTTPS. |
| Search.JobsUrlOrigin | src/SplunkService.ts:481 | The origin of the jobs URL is the URL cut before its path. The port is dropped when it is 443. |
| Search.ResultsUrl | src/SplunkService.ts:481 | The results URL is the origin, `/services/search/jobs/`, the SID, then `/results?output_mode=json&count=100`. |
| Search.StatusUrl | src/SplunkService.ts:484 | The status URL is the origin, `/services/search/jobs/`, the SID, then `?output_mode=json`. |
| Search.JobUrlsDetermineSid | src/SplunkService.ts:481-484 | On one origin, two results URLs, or two status URLs, are equal only for the same SID. |
| Search.SearchUrls | src/SplunkService.ts:419-424 | In a search whose submission yields a SID, the submission goes to the jobs URL. The first results fetch and every status request name that SID on the origin of the jobs URL. |
| Search.Search | src/SplunkService.ts:419-430 | Invalid input fails before any request is made. A base URL that does not parse fails with "invalid baseUrl" before any request. A search that makes requests starts with its own submission and keeps the `JobRequests` order. A successful search ends on a results fetch. |
| Search.SearchAfterSubmit | src/SplunkService.ts:419-430 | After a successful submission, the search's requests and result are those of `GetSearchResults` applied to the later replies. |
| Search.SubmitFailureEndsSearch | src/SplunkService.ts:457-466 | With valid input and a usable base URL, a failed submission is the search's failure. The search then stops after its one submission request. |
| Search.SubmitRefusedEndsSearch | src/SplunkService.ts:459-464 | A rejected submission fails the search with "network error", after one request. Its `cause` is the rejection, as src/errors.js stores it. |
| Search.SubmitNotOkEndsSearch | src/SplunkService.ts:465 | A submission reply that is not ok fails the search with "search submit failed: " and the status, after one request. |
| Search.NetworkErrorOnSubmit | test/unit/SplunkService.test.js:19-23 | A submission rejected with `net` fails the search with "network error" whose `cause` is `net`, as src/errors.js stores it. |
| Search.ServerErrorOnSubmit | test/unit/SplunkService.test.js:25-29 | A submission answered with status 500 and `ok: false` fails the search with "search submit failed: 500". |
| Search.ImmediateTableSearch | src/SplunkService.ts:479-483 | A submission that yields a SID, followed by a non-blank first results text, ends the search after two requests with the table of that text. |
| Search.ImmediateResultsSkipPolling | src/SplunkService.ts:480-483 | A non-blank first results text ends the search after two requests. The table is built from that text. |
| Search.PendingJobTimesOut | src/SplunkService.ts:534-536 | When the first text is blank and all 60 status replies are pending, the search fails with "timeout waiting for job to complete" after 62 requests. |
| Search.DoneJobIsRefetched | src/SplunkService.ts:483-488 | When the n-th status reply is the first that is not pending and it says done, the search makes 3+n requests. The last request repeats the first results fetch, and the result is the table of the refetched text. |
| Search.PollStopsAtFirstDone | src/SplunkService.ts:298-302 | The poll stops at the first status reply that says done, and the search then refetches. |
| Search.TwoRowSearch | test/unit/SplunkService.test.js:31-59 | A submission with a blank `text()` and `{sid: "S1"}` from `json()`, followed by a JSON-only results reply, gives rows `[[1,2],[3,4]]` after two requests. This holds for any valid query and base URL, including the test's. |
| Search.JsonOnlyTableSearch | src/SplunkService.ts:479-483 | A search whose submission yields a SID, and whose first results reply holds only a `json()` object, makes two requests and returns the table of that object's JSON text. |
| SidExtraction.SidFromObject | src/SplunkService.ts:230-235 | From a parsed submission object the SID is `sid` when truthy, otherwise `entry[0].name` when truthy, otherwise nothing. |
| SidExtraction.RunWithoutUnique | src/SplunkService.ts:273-276 | A `[^c]+` capture is the one longest run free of `c`. |
| SidExtraction.FirstSidElement | src/SplunkService.ts:273-274 | The result is the capture of the leftmost `<sid>x</sid>`, where x is non-empty and free of `<`. There is no result exactly when no such element exists. |
| SidExtraction.FirstEntryName | src/SplunkService.ts:275-276 | The result is the `name="x"` capture of the leftmost `<entry` tag that has one, taking the last such attribute inside the tag (greedy `[^>]*`). There is no result exactly when no tag matches. |
| SidExtraction.SidFromHeader | src/SplunkService.ts:284-289 | The SID is everything after the leftmost `/services/search/jobs/` in the `Location` header that is followed by a non-empty tail running to the end of the header with no line terminator. A missing or empty header gives nothing, and a header with such an occurrence always gives a SID. |
| SidExtraction.SidFromBody | src/SplunkService.ts:247-265 | The JSON SID wins when the text parses and has one. Otherwise the XML patterns decide. |
| SidExtraction.SidFromXml | src/SplunkService.ts:272-277 | The leftmost `<sid>` element wins when there is one. Otherwise the result is the leftmost `<entry … name="…">` capture. There is no result exactly when neither pattern matches. |
| SidExtraction.SidFromJsonText | src/SplunkService.ts:258-265 | A SID comes from the text exactly when the text parses to an object that names one. It is `sid` when that is truthy, and it is always truthy. |
| SidExtraction.SidFromBodyOrHeader | src/SplunkService.ts:172-180 | A non-blank string without `{` or `<` is the SID, trimmed. Any other non-blank string goes to the body rules. A blank body or a non-string value falls back to the `Location` header. |
| SidExtraction.ResponseBodyText | src/SplunkService.ts:187-198 | Reading the body throws exactly when `text()` throws for a reason other than a used body, and a used body reads as "". Non-blank text is the body. A body with no `json()` is its text, or "" when there is none. A missing or blank text with a `json()` hands over to the `json()` fallback. |
| SidExtraction.TextFromJson | src/SplunkService.ts:229-240 | A throwing `json()` gives "". A parsed reply that names a SID gives that SID. Any other reply gives its JSON text. The result is `undefined` exactly when `json()` yields `undefined`. |
| SidExtraction.ExtractSid | src/SplunkService.ts:156-165 | Any SID found is truthy. |
| SidExtraction.BareTextIsSid | src/SplunkService.ts:173-177 | A non-blank body without `{` or `<` is the SID, trimmed. |
| SidExtraction.NonBlankBodyIgnoresHeader | src/SplunkService.ts:179 | Any other non-blank body decides the SID through JSON, then XML. Changing the `Location` header never changes the SID. |
| SidExtraction.HeaderWhenBodyUnusable | src/SplunkService.ts:156-165 | When `text()` throws, the SID comes from the `Location` header. It also comes from there when the text is absent or blank and the `json()` fallback is absent, throws, or yields `undefined`. |
| SidExtraction.BlankTextJsonBareSid | src/SplunkService.ts:188-199 | A blank `text()` with `json()` yielding `{sid: x}` gives the SID `x`, for any non-empty `x` with no white space at either end and neither `{` nor `<`. |
| SidExtraction.BlankTextJsonTextAsSid | src/SplunkService.ts:230-235 | A blank `text()` with `json()` yielding a value that names no SID gives that value's JSON text as the SID, when that text passes the bare-text rule unchanged. |
| SidExtraction.BlankTextJsonSid | src/SplunkService.ts:188-199 | A blank `text()` with `json()` yielding `{sid: "S1"}` gives the SID "S1". |
| SidExtraction.BlankTextJsonNullGivesLiteralSid | src/SplunkService.ts:230-235 | A blank `text()` with `json()` yielding `null` gives the SID "null": the value is written back as JSON text, and the bare-text rule then accepts it. |
| JobStatus.ExtractContent | src/SplunkService.ts:345-347 | The content is `entry[0].content` when truthy, otherwise `content` when truthy, otherwise `null`. |
| JobStatus.UpperHasDoneIff | src/SplunkService.ts:337 | Upper-casing and searching for `DONE` finds exactly the places where d, o, n, e occur in either case. |
| JobStatus.ContentDoneIff | src/SplunkService.ts:334-338 | Content says done exactly when `dispatchState` is a string containing "done" in any case, or `isDone` is `true`, `"1"` or `1`. `isDone: "true"` alone is not done. |
| JobStatus.IsJobDone | src/SplunkService.ts:313-327 | Done requires a non-blank text that parses. A missing or throwing read is "not done", never an error. |
| JobStatus.IsJobDoneIff | src/SplunkService.ts:313-327 | A reply is done exactly when its text parses to a body whose content, from `entry[0]` first, says done by the reference rule. |
| JobStatus.EntryContentDispatchStateDone | src/SplunkService.ts:345-346 | `{"entry":[{"content":{"dispatchState":"Done"}}]}` marks the job done. |
| ResultsTable.ResultsArray | src/SplunkService.ts:369-371 | The result is the first truthy of `results`, `result` and `entry`, and is `null` exactly when none is truthy. |
| ResultsTable.FieldsFromFirst | src/SplunkService.ts:390-394 | For an array the fields are the index names "0", "1", …, one per element. For an object they are its own keys in order. Anything else gives no fields. |
| ResultsTable.NormalizeFields | src/SplunkService.ts:379-383 | A truthy `body.fields` is used as is. Otherwise the field names come from the first result. |
| ResultsTable.RowFromResult | src/SplunkService.ts:402-412 | An array row is kept unchanged. An object is projected onto the fields, and fails exactly when the fields are not an array. Anything else becomes a one-element row. |
| ResultsTable.RowsFromResults | src/SplunkService.ts:358 | There is one row per result, in order. Building fails exactly when some result fails. |
| ResultsTable.DeriveFieldsAndRows | src/SplunkService.ts:354-362 | The fields are the normalised ones. An array of results gives one row per result: row i is that result's row under the fields, and the whole call fails exactly when one result's row fails. Anything else gives no rows and `null` results. |
| ResultsTable.FirstRowIsFirstObjectsValues | src/SplunkService.ts:379-412 | Without `fields`, object results always give a table. Its fields are the first object's keys, and its first row is that object's values. |
| ResultsTable.ArrayResultsKeepRows | src/SplunkService.ts:390-405 | Without `fields`, array results give the index names as fields, and the results themselves as rows. |
| ResultsTable.TwoObjectResults | test/unit/SplunkService.test.js:31-59 | `{fields: [a,b], results: [{a:1,b:2},{a:3,b:4}]}` gives rows `[[1,2],[3,4]]`. |
| ResultsTable.ObjectResultsGiveNoRows | test/unit/SplunkService.extra.test.ts:166-174 | `{results: {a: 1}}` gives no fields, no rows and `null` results. |
| Normalize.PutAllDistinct | src/utils/normalizeResults.ts:53-56 | Assigning distinct keys in order onto `{}` gives exactly those properties, in that order. |
| Normalize.NormalizeValue | src/utils/normalizeResults.ts:65-72 | A string stays as is. `null` and `undefined` become "". An object becomes its JSON text. Anything else becomes its `String` text. |
| Normalize.CreateObjectFromRow | src/utils/normalizeResults.ts:49-58 | The record has exactly the row's own keys, and each value is the normalised text of the row's value. |
| Normalize.NormalizeResultItem | src/utils/normalizeResults.ts:38-41 | An object or array goes through `CreateObjectFromRow`. Anything else becomes `{_raw: String(x)}`. |
| Normalize.ScalarOrBlank | src/utils/normalizeResults.ts:113 | A value is kept exactly when it is neither `undefined` nor of type object. Otherwise it becomes "". |
| Normalize.ConvertArrayRow | src/utils/normalizeResults.ts:107-116 | The record's keys are exactly the field names. |
| Normalize.ConvertObjectRow | src/utils/normalizeResults.ts:123-132 | The record has the row's own keys, each value kept or blanked by `ScalarOrBlank`. |
| Normalize.ConvertRowWithFields | src/utils/normalizeResults.ts:93-99 | An array row is keyed by the fields. An object row keeps its own keys. Anything else becomes `_raw`. |
| Normalize.ConvertRowWithoutFields | src/utils/normalizeResults.ts:79-85 | An array row becomes `_raw` of its elements joined by spaces. An object is returned unchanged. Anything else becomes `_raw`. |
| Normalize.NormalizeResults | src/utils/normalizeResults.ts:11-28 | A non-empty `results` array takes precedence. Otherwise a non-array `rows` gives no records. Otherwise there is one record per row, converted with or without fields. |
| Normalize.ArrayRowMatchesFields | src/utils/normalizeResults.ts:107-116 | With distinct field names, an array row becomes the fields in order, each paired with the scalar at that index. Missing and object elements become "". |
| Normalize.ObjectRowKeepsOwnKeys | src/utils/normalizeResults.ts:123-132 | An object row keeps its keys in order, and only its object and null values become "". |
| Normalize.ArrayResultGetsIndexKeys | src/utils/normalizeResults.ts:38-39 | An array element of `results` becomes a record keyed "0", "1", …, holding the normalised values. |
| Normalize.StringRecordsPassThrough | src/utils/normalizeResults.ts:13-14 | Records that already hold only strings come back unchanged: normalising is idempotent on its own output. |
| Normalize.RawRowSplitsBack | src/utils/normalizeResults.ts:82 | The `_raw` text of an array of words without spaces splits back into those words. |
| Normalize.PrimitiveAndObjectResults | test/unit/normalizeResults.extra.test.ts:8-14 | `results: [1, {a: 2}]` gives `[{_raw: "1"}, {a: "2"}]`. |
| Normalize.RowsWithoutFields | test/unit/normalizeResults.extra.test.ts:16-23 | Rows `[["x","y"], {a: 1}, "raw"]` without fields give `[{_raw: "x y"}, {a: 1}, {_raw: "raw"}]`. |
| Normalize.ArrayRowsWithFields | test/unit/normalizeResults.test.ts:8-14 | Fields `[a, b]` with rows `[[1,2],[3,4]]` give `[{a:1,b:2},{a:3,b:4}]`. |
| Json.Stringify | src/output/csvWriter.ts:18 | JSON text exists for every value except `undefined`. |
| Json.QuoteRoundTrip | src/output/csvWriter.ts:18 | The JSON text of a string decodes back to that string. |
| Json.PutLookup | src/utils/normalizeResults.ts:55 | After `obj[k] = v`, reading `k` gives `v`, and every other key is unchanged. |
| Csv.Cell | src/output/csvWriter.ts:15-18 | A cell is empty exactly for `null`, `undefined`, objects and arrays. Otherwise it is the value's JSON text. A string's cell decodes back to the string, and no cell contains a line break. |
| Csv.Cells | src/output/csvWriter.ts:14-19 | There is one cell per header key, taken from the record's value under that key. |
| Csv.Lines | src/output/csvWriter.ts:12-19 | No records give no lines. Otherwise the header of the first record's keys comes first, then one line per record. |
| Csv.CsvText | src/output/csvWriter.ts:12-20 | The file is empty exactly when there are no records. |
| Csv.CsvTextSplitsIntoLines | src/output/csvWriter.ts:14-20 | When the keys hold no line break, the file splits back on line breaks into the header and exactly one line per record. |
| Csv.LineSplitsIntoCells | src/output/csvWriter.ts:14-19 | When no cell holds a comma, a line splits back on commas into its cells. |
| Csv.OneRecordFile | test/unit/writers.test.ts:26-34 | `[{a: 1, b: "x"}]` is written as `a,b` and `1,"x"`. |
| ConsoleLayout.Rendered | src/output/consoleWriter.ts:46-47 | A falsy value is drawn as "". Any other value is drawn as its `String` text. |
| ConsoleLayout.Width | src/output/consoleWriter.ts:24-28 | A column is at least 8 wide, at least as wide as its name and every cell, and exactly as wide as one of these. |
| ConsoleLayout.TableLines | src/output/consoleWriter.ts:11-59 | Nothing is printed for no records. |
| ConsoleLayout.TableLinesEqualWidth | src/output/consoleWriter.ts:24-50 | The header, the separator and every data line have the same length: the column widths plus three per gap. |
| ConsoleLayout.DataFromLayout | src/output/consoleWriter.ts:44-56 | Row i is printed after the earlier rows and the blank lines between them. A blank line follows exactly the tenth, twentieth, … row, except the last. |
| ConsoleLayout.TableLinesLayout | src/output/consoleWriter.js:41-60 | n records print `3 + n + (n-1)/10` lines: the header, the separator, the rows with their blank lines, and a closing blank line. |
| ConsoleLayout.TwelveRowsHaveInnerBlank | test/unit/consoleWriter.extra.test.ts:12-21 | Twelve records print sixteen lines, and the thirteenth is the blank line after the tenth row. |
| ConsoleLayout.SimpleBlock | src/output/consoleWriter.ts:83-86 | A record's block starts with the heading `\n[k+1]` and has one more line per property. |
| ConsoleLayout.SimpleBlockEntries | src/output/consoleWriter.ts:84-85 | Each property is listed, in order, as `  key: value`. |
| ConsoleLayout.SimpleLines | src/output/consoleWriter.ts:68-90 | Nothing is printed for no records. Otherwise the last line printed is the closing blank line. |
| ConsoleLayout.SimpleLinesLayout | src/output/consoleWriter.ts:80-89 | The listing is each record's block in order, the k-th starting with the heading `\n[k+1]` right after the earlier blocks, followed by one closing blank line. |
| ConsoleLayout.SimpleLinesCount | src/output/consoleWriter.ts:80-89 | A non-empty listing has one line per record plus one per property, plus the closing blank line. |
| ConsoleLayout.SimpleListingExample | test/unit/consoleWriter.test.ts:30-41 | `[{foo: "bar", num: 3}]` is listed as `\n[1]`, `  foo: bar`, `  num: 3` and a blank line. |

## Left out

- Fetch plumbing:
  - choosing between global `fetch` and `node-fetch`;
  - the unused `_fetch` helper;
  - the debug and log lines, including the body logging after the POST.
  The server is a parameter instead.
- Response bodies are modelled as readable any number of times. A real response whose body the
  logging after the POST has already consumed makes the next `text()` throw. That case is covered
  only as the generic "text() throws" path (`SidExtraction.HeaderWhenBodyUnusable`).
- URL parsing is a parameter, `hostOf`. The origin is the host on the management port; the
  model drops the port when it is 443, as URL serialisation does. The text form of a port read
  from the environment is not modelled, only its number.
- The Base64 encoding of Basic credentials is not modelled. The header keeps `user:password`.
- `JSON.parse` is a parameter.
- Search.SubmitResult, Search.SubmitRefusedEndsSearch, Search.NetworkErrorOnSubmit: a wrapping
  `SearchError` keeps the wrapped rejection as its `cause`, as the constructor
  `(message, cause)` of src/errors.js does. src/errors.ts takes an options object as the
  second argument instead (src/errors.ts:27-35). Under that class the `cause` of
  `new SearchError('network error', err)` is `err.cause`, which is `undefined` for
  `new Error('net')`. The model does not follow that class; the messages are the same under both.
- The one-second sleep between status requests is left out: time is not modelled.
- Json.ToStr: numbers are integers. Fractions, exponents, `NaN` and infinities are not modelled,
  and neither is `String`/`JSON.stringify` of them.
- Json.Keys: `Object.keys` lists integer-like keys first in ascending order. The model keeps
  insertion order for all keys.
- Inherited properties such as `constructor` are treated as absent.
- Json.Put: in JavaScript, assigning to the key `__proto__` of a plain object goes through the
  prototype setter and creates no property; a string or scalar value, the only kind the
  normalisation assigns, is dropped. The model stores `__proto__` like any other key, so a row
  or field list holding that key gives the model one more property than the code.
- Json.PutLookup: for the same reason, reading back `__proto__` after assigning it is not what
  JavaScript does; the lemma holds for every other key.
- Normalize.CreateObjectFromRow, Normalize.ConvertArrayRow, Normalize.ConvertObjectRow: their
  key sets include `__proto__` when the row or the fields name it, where the code drops it.
- The SDK login, retry and one-shot search paths, the CLI, `app.ts`, the JSON writer, the logger
  and file I/O are not part of this model.
- ConsoleLayout.TableLines: the logger's info lines before and after the table are not modelled;
  only what goes to `console.log` is.
- ConsoleLayout.SimpleLines: the same holds for the logger's lines around the listing.
- Normalize.NormalizeResults: the test with mixed rows and fields
  (`normalizeResults.extra.test.ts`, lines 25-32) is not stated as a concrete instance. It
  follows from `ArrayRowMatchesFields` and `ObjectRowKeepsOwnKeys`.
