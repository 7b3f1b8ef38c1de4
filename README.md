# REST client: request log, request executor and client helpers

This project models the core of a small browser REST client written in
TypeScript on Next.js.

- **`/api/request` (POST).** This route receives a method, a URL, headers and
  a body. It refuses a request without a URL. It makes the one outbound call
  with a fixed `User-Agent` and sends the body only for POST, PUT and PATCH.
  It reads the reply as JSON or as text, depending on its content type. It
  answers with the data, status, headers and elapsed time, or with a
  `Request failed: …` error. It tries to add a row to the request log, and a
  failed write does not change the answer.
- **`/api/history` (GET, DELETE).** GET answers one page of the log. The page
  can be filtered by exact method, exact status and a case-insensitive
  substring search over the URL and the response text. Rows come newest
  first, at most 50 per page, with stored responses longer than 1000
  characters cut off. GET also reports `total`, `totalPages`, `currentPage`
  and `hasMore`. DELETE empties the log.
- **The page (`app/page.tsx`).**
  - It turns the header editor's `Key: value` lines into a map.
  - When a logged row is reloaded, it writes the row's headers back as such
    lines.
  - It picks badge classes for statuses and methods.
  - It decides whether the Previous and Next buttons are enabled.
  - It checks the URL and trims the body before calling `/api/request`.

Modules (one file each):

| module | file | contents |
|---|---|---|
| `Wrappers` | `wrappers.dfy` | `Option` (absent / `null` values) and `Result` |
| `Strings` | `strings.dfy` | JavaScript `trim`, `split` on one character, `join`, `includes`, ASCII lower-casing |
| `History` | `history.dfy` | the `RequestHistory` row, the query parameters, the `where` filter, the pure answer of a GET (`Answer`) and its properties, and the `HistoryStore` class with insert, clear and query |
| `Executor` | `executor.dfy` | the POST handler as a function of its inputs (`Handle`) and as an imperative method (`Post`) that updates the store |
| `Client` | `client.dfy` | headers text parsing (`ParseHeaders` loop and its specification `HeadersOf`), serialization and the round trip, badges, the paging state (`HistoryPanel`), `makeRequest`'s checks and `loadHistoryItem` |

Inputs and time:

- The database, `fetch`, the clock and JSON encoding are not modelled as
  running code. They become inputs:
  - `storageFails` says whether a database operation throws;
  - a `FetchOutcome` says what the outbound call and the body readers did;
  - a `Clock` holds the four `Date.now()` readings.
- A JSON value that is not a string is carried as the text `JSON.stringify`
  gives for it (`Data.Structured`).
- A timestamp is a millisecond count.

Three behaviours of the code are easy to mistake, and the model keeps them:

- The status filter is an exact match on one status. There is no range
  filter such as "2xx".
- Only an outbound call that was answered and read is written to the log.
  A network failure, or a body that could not be read, leaves no row.
- The log is cleared with one unconditional delete, and the key sequence
  is not reset.

## Model

| member | source | states |
|---|---|---|
| `Strings.TrimStart` | app/page.tsx:73 | leading white space is removed, a suffix of the input is kept, and the result starts with no white space |
| `Strings.TrimEnd` | app/page.tsx:73 | trailing white space is removed, a prefix is kept, and the result ends with no white space |
| `Strings.Trim` | app/page.tsx:73 | the result has no white space at either end; it is empty exactly when the input is all white space; a trimmed input is returned unchanged; the result is the input with a run of white space cut off at each end |
| `Strings.StripBothEdges` | app/page.tsx:73 | cutting the leading white space and then the trailing white space cuts exactly the two edges |
| `Strings.TrimAddsNothing` | app/page.tsx:78 | trimming never introduces a character that was absent from the input |
| `Strings.TrimLeadingSpace` | app/page.tsx:78 | trimming `" " + v` for a trimmed `v` gives `v` back, which is what the `": "` separator needs |
| `Strings.Split` | app/page.tsx:75-76 | `split` on one character always returns at least one piece, and no piece contains the separator |
| `Strings.FirstIndex` | app/page.tsx:76 | the position found holds the separator, and no earlier position does |
| `Strings.Join` | app/page.tsx:144 | a definition (`parts.join(sep)`); `JoinSplit` and `SplitJoin` state what it means |
| `Strings.JoinExtendFirst` | app/page.tsx:78 | lengthening the first piece lengthens the joined string at its front |
| `Strings.JoinSplit` | app/page.tsx:76-78 | joining the pieces of a split with the same separator gives back the original string |
| `Strings.SplitWithoutSeparator` | app/page.tsx:75-77 | a string without the separator splits into itself alone |
| `Strings.SplitAtFirst` | app/page.tsx:76 | the first piece of a split runs up to the first separator, and the rest is the split of what follows |
| `Strings.SplitJoin` | app/page.tsx:142-144 | splitting a newline-join of newline-free lines gives back exactly those lines |
| `Strings.ContainsMeansOccurs` | app/api/request/route.ts:36 | `includes` holds exactly when the searched text occurs at some position |
| `Strings.Contains` | app/api/request/route.ts:36 | a definition (`includes`); `ContainsMeansOccurs` states what it means |
| `Strings.Lower` | app/api/history/route.ts:29-33 | lower-casing keeps the length and lower-cases each character on its own |
| `Strings.ContainsIgnoringCaseMeans` | app/api/history/route.ts:29-33 | the search holds exactly when the search text matches, character by character and ignoring ASCII case, at some position of the searched text |
| `Strings.ContainsIgnoringCaseInvariant` | app/api/history/route.ts:29-33 | changing the case of letters in the searched text or in the search text never changes the outcome |
| `History.Entry.WithId` | lib/entities/RequestHistory.ts:4-31 | the stored row gets the given id, and each of the eight other fields is copied from the entry unchanged |
| `History.PageOf` | app/api/history/route.ts:8 | the page defaults to 1, otherwise it is the parsed parameter, and for served inputs it is at least 1 |
| `History.LimitOf` | app/api/history/route.ts:9 | the limit defaults to 10, is never above 50, and equals the parameter when that is at most 50 |
| `History.Matches` | app/api/history/route.ts:19-34 | a definition (every condition in force holds); `WhereOf` ties it to the query parameters |
| `History.WhereOf` | app/api/history/route.ts:19-34 | a row matches the built filter exactly when it meets each non-empty parameter: same method, same status, the search text in the URL or the response ignoring case |
| `History.Select` | app/api/history/route.ts:36-38 | the selection keeps every matching row as often as it is stored, and drops all the other rows |
| `History.InsertNewestFirst` | app/api/history/route.ts:40 | inserting into a newest-first sequence keeps it newest first, and adds exactly the one row |
| `History.ConsNewestFirst` | app/api/history/route.ts:40 | a row at least as new as every row of a newest-first sequence can go in front of it |
| `History.NewestFirst` | app/api/history/route.ts:40 | `orderBy createdAt DESC` gives a newest-first permutation of its input |
| `History.Window` | app/api/history/route.ts:41-42 | the window holds at most `limit` rows, which are the rows at positions `offset`, `offset+1`, … of the input |
| `History.TotalPages` | app/api/history/route.ts:46 | `Math.ceil(total / limit)` is the least number of `limit`-row pages that holds `total` rows |
| `History.Truncate` | app/api/history/route.ts:59 | a response of at most 1000 characters is unchanged; a longer one becomes its first 1000 characters followed by `...` |
| `History.Project` | app/api/history/route.ts:53-63 | a projected row differs from the stored row only in its response, which is truncated |
| `History.Projected` | app/api/history/route.ts:53 | the list is projected element by element, and its length is kept |
| `History.Offset` | app/api/history/route.ts:13 | the offset is `(page - 1) * limit` and is never negative |
| `History.Answer` | app/api/history/route.ts:36-67 | a definition of the GET body; `AnswerIsWindow`, `AnswerNewestFirst`, `AnswerMeetsFilter`, `AnswerTotal`, `AnswerHasMore`, `AnswerUniqueIds` and `PageWithinTotal` state its properties |
| `History.RankedMeetsFilter` | app/api/history/route.ts:36-40 | every ranked row is a stored row that meets the filter |
| `History.AnswerMeetsFilter` | app/api/history/route.ts:36-63 | every row of a page is the projection of a stored row that meets the filter |
| `History.WindowNewestFirst` | app/api/history/route.ts:40-42 | a window of a newest-first sequence is still newest first |
| `History.ProjectedNewestFirst` | app/api/history/route.ts:53-63 | projecting keeps the newest-first order |
| `History.AnswerNewestFirst` | app/api/history/route.ts:36-44 | a page is in `createdAt` order, newest first, with at most `limit` rows |
| `History.AnswerIsWindow` | app/api/history/route.ts:36-44 | a page holds exactly the ranked matches at `offset .. offset + limit - 1`, as many as exist |
| `History.AnswerTotal` | app/api/history/route.ts:36-66 | `total` is the number of stored rows that match, whatever the page and the limit |
| `History.SelectCount` | app/api/history/route.ts:36 | the selection's length is the count of matching rows |
| `History.AnswerHasMore` | app/api/history/route.ts:67 | `hasMore` holds exactly when the rows before the next page are fewer than `total`, i.e. the next page is non-empty |
| `History.PagesLeft` | app/api/history/route.ts:46-67 | a page index is below `totalPages` exactly when the rows before it are fewer than `total` |
| `History.MulMonotone` | app/api/history/route.ts:46 | multiplication by a natural number preserves order |
| `History.MatchAtPosition` | app/api/history/route.ts:36-44 | every ranked match at positions `offset .. offset + limit - 1` appears on the page at its place |
| `History.PageWithinTotal` | app/api/history/route.ts:46-64 | a page that starts before the end of the matches is numbered at most `totalPages` |
| `History.OnSomePage` | app/api/history/route.ts:13-46 | an offset below `total` lies on a page no later than `totalPages` |
| `History.EmptyLogAnswer` | app/api/history/route.ts:36-67 | with nothing stored, as after DELETE, the answer has no rows, a zero total, zero pages and no next page |
| `History.ConsUniqueIds` | app/api/history/route.ts:36-44 | a row whose key is absent from a sequence of distinct keys can go in front of it |
| `History.FreshIdIn` | app/api/history/route.ts:36-44 | a key absent from a sequence is absent from any sequence whose rows all come from it |
| `History.SelectUniqueIds` | app/api/history/route.ts:36-38 | filtering keeps the keys distinct |
| `History.InsertUniqueIds` | app/api/history/route.ts:40 | inserting a row with a fresh key keeps the keys distinct |
| `History.NewestFirstUniqueIds` | app/api/history/route.ts:40 | ordering keeps the keys distinct |
| `History.WindowUniqueIds` | app/api/history/route.ts:41-42 | a window keeps the keys distinct |
| `History.ProjectedUniqueIds` | app/api/history/route.ts:53-63 | projecting keeps the keys distinct |
| `History.AnswerUniqueIds` | app/api/history/route.ts:36-63 | when the stored keys are distinct, no two rows of a page carry the same key |
| `History.HistoryStore.constructor` | lib/entities/RequestHistory.ts:4-6 | the table starts empty, and the first key is 1 |
| `History.HistoryStore.Insert` | app/api/request/route.ts:66 | a successful write appends the row with the next key and advances the key; a failed write changes nothing; the key order invariant is kept |
| `History.HistoryStore.ClearAll` | app/api/history/route.ts:75-87 | DELETE empties the table and answers success, or changes nothing and answers 500 "Failed to clear history"; the key sequence is not reset |
| `History.HistoryStore.Query` | app/api/history/route.ts:5-73 | GET answers the pure page for the parsed page, the clamped limit and the built filter, or 500 "Failed to fetch history" with no partial result; it returns at most `limit` rows and echoes the page; it has no `modifies` clause, so the stored rows, full responses included, are unchanged; when the store's key invariant holds, no two rows of the page share a key |
| `Executor.OutboundHeaders` | app/api/request/route.ts:17-20 | the outbound headers are the caller's headers, with `User-Agent` forced to `REST-Client/1.0` |
| `Executor.BodyToSend` | app/api/request/route.ts:23-25 | a body is sent exactly when it is non-empty and the method is POST, PUT or PATCH, and then it is sent unchanged |
| `Executor.OutboundOf` | app/api/request/route.ts:15-32 | the call goes to the given URL with the given method, the outbound headers and the body to send |
| `Executor.ContentType` | app/api/request/route.ts:35 | the content type is present exactly when the reply has a `content-type` header, and then it is that header's value |
| `Executor.IsJson` | app/api/request/route.ts:35-36 | the body is read as JSON exactly when a content type is present and contains `application/json` |
| `Executor.ReadBody` | app/api/request/route.ts:36-40 | a JSON content type uses `json()`; every other case uses `text()`; the result is what that reader produced or threw |
| `Executor.ResponseText` | app/api/request/route.ts:61 | a string is stored as it is; another JSON value is stored as its serialization |
| `Executor.StoredBody` | app/api/request/route.ts:60 | an empty or absent body is stored as null, and any other body is stored unchanged |
| `Executor.RequestFailed` | app/api/request/route.ts:41-49 | the failure reply is a 500 carrying the elapsed time and `Request failed: ` followed by the message, or by `Unknown error` |
| `Executor.Handle` | app/api/request/route.ts:5-81 | a body that is not JSON gives 500 "Internal server error"; a missing or empty URL gives 400 "URL is required" with no call and no row; a present URL gives exactly one call; a network or body-reading failure gives the `RequestFailed` reply; an answered call whose body was read gives `Executed` with that body, the reply's status and headers and the elapsed time; a row is logged exactly in that case, and it matches the reply (details below) |
| `Executor.Post` | app/api/request/route.ts:5-81 | the imperative handler gives the reply and the call that `Handle` specifies; the store gains exactly `Handle`'s row with the next key, unless there is none or the write fails; a failed write is swallowed, so an answered and read call gets the success reply either way; the key invariant is kept |
| `Client.ParseLineAtFirstColon` | app/page.tsx:76-78 | for a line with a colon, the key is the trimmed text before the first colon and the value the trimmed text after it; a leading colon drops the line |
| `Client.ParseLine` | app/page.tsx:76-78 | a definition of one line's parse; `ParseLineAtFirstColon` and `ParseLineWithoutColon` state what it gives |
| `Client.ParseLineAfterKey` | app/page.tsx:76-78 | a non-empty key without a colon, a colon and any rest give the trimmed key and the trimmed rest |
| `Client.ParseLineWithoutColon` | app/page.tsx:77 | a line without a colon adds nothing |
| `Client.ParseLineKeepsLaterColons` | app/page.tsx:78 | `a: b:c` gives the key `a` and the value `b:c` |
| `Client.ParseLineDropsEmptyKey` | app/page.tsx:77 | `:v` is dropped because its untrimmed key is empty |
| `Client.ParseLineKeepsBlankKey` | app/page.tsx:77-78 | ` :v` is kept with the key `""`, because the emptiness test comes before trimming |
| `Client.CollectLastWins` | app/page.tsx:75-80 | a key is in the map exactly when some parsed line gives it, and its value comes from the last such line |
| `Client.Collect` | app/page.tsx:75-80 | a definition of the successive map updates; `CollectLastWins` states what it gives |
| `Client.CollectSnoc` | app/page.tsx:78 | one more line updates the map by that line alone |
| `Client.CollectKeys` | app/page.tsx:75-80 | a key is collected exactly when some entry gives it |
| `Client.CollectValue` | app/page.tsx:75-80 | a collected key has the value of the last entry that gives it |
| `Client.Assigned` | app/page.tsx:78 | the assignment stores a parsed line exactly when its key is not `__proto__`, whose assignment on a plain object goes to the prototype setter and creates no property |
| `Client.ParsedLines` | app/page.tsx:75-78 | each line is parsed on its own, and dropped when its key is `__proto__` |
| `Client.ParseHeaders` | app/page.tsx:71-82 | the `forEach` loop that fills the map, skipping the `__proto__` key as the plain-object assignment does, yields `HeadersOf` of the text |
| `Client.HeadersOf` | app/page.tsx:71-82 | a definition of `parseHeaders`; `ParseHeaders`, `BlankHeadersText`, `LastLineWins`, `NoProtoKey` and `HeadersRoundTrip` state its properties |
| `Client.BlankHeadersText` | app/page.tsx:73 | an empty or all-white-space text gives no headers |
| `Client.LastLineWins` | app/page.tsx:75-80 | a header is present exactly when its key is not `__proto__` and some line gives it; its value is that of the last such line, and no later line gives that key |
| `Client.NoProtoKey` | app/page.tsx:72-78 | no headers text ever yields a `__proto__` header |
| `Client.AsParsed` | app/page.tsx:142 | each entry is viewed as a line that parsed successfully |
| `Client.EntriesOf` | app/page.tsx:142 | every header map has a listing as `Object.entries` gives one: each key once, with its value |
| `Client.ListingCons` | app/page.tsx:142 | a listing of a map without one key, with that key added in front, lists the whole map |
| `Client.FromEntriesOfListing` | app/page.tsx:142 | rebuilding a map from any listing of it gives that map |
| `Client.HeaderLines` | app/page.tsx:143 | each entry becomes the line `k: v` |
| `Client.HeaderLine` | app/page.tsx:143 | a definition of `${k}: ${v}`; `ParseHeaderLine` states that it parses back |
| `Client.SerializeHeaders` | app/page.tsx:142-144 | a definition of the map-and-join; `SerializeThenParse` and `HeadersRoundTrip` state that parsing undoes it |
| `Client.ParseHeaderLine` | app/page.tsx:141-145 | a line written as `k: v` for a safe entry parses back to `(k, v)` |
| `Client.LinesRoundTrip` | app/page.tsx:141-145 | the written lines of safe entries parse back to the entries' map |
| `Client.SerializeThenParse` | app/page.tsx:71-145 | parsing the serialized text of safe entries gives the entries' map |
| `Client.HeadersRoundTrip` | app/page.tsx:71-145 | serializing a map with non-empty trimmed keys free of colons and newlines and other than `__proto__`, and trimmed values free of newlines, in any entry order, and parsing the text back gives the same map |
| `Client.ParsedLineSafe` | app/page.tsx:76-78 | a header parsed from one line, with a non-empty key, has a line that parses back to it |
| `Client.ParsedHeadersReplay` | app/page.tsx:71-145 | headers parsed from the editor, once reloaded from the log and parsed again, come back unchanged unless one of them has the empty key |
| `Client.EmptyKeyNotReplayed` | app/page.tsx:76-78 | the empty key is lost: ` :v` gives `{"": "v"}`, but its serialization `: v` gives no header |
| `Client.BlankKeyHeaders` | app/page.tsx:71-82 | the text ` :v` gives the single header `"" → "v"` |
| `Client.EmptyKeyHeaders` | app/page.tsx:141-145 | the serialized line `: v` gives no header |
| `Client.HeadersOfOneLine` | app/page.tsx:71-82 | a one-line text that is not blank gives at most that line's header |
| `Client.StatusColor` | app/page.tsx:188-194 | green exactly for 2xx, yellow for 3xx, orange for 4xx, red for 500 and above, gray below 200 |
| `Client.MethodColor` | app/page.tsx:196-211 | each of GET, POST, PUT, DELETE and PATCH, matched exactly, has its own class; every other method is gray |
| `Client.PreviousEnabled` | app/page.tsx:413-414 | Previous is enabled exactly when the page is above 1 and nothing is loading |
| `Client.NextEnabled` | app/page.tsx:426-427 | Next is enabled exactly when the page is below `totalPages` and nothing is loading |
| `Client.NextMatchesHasMore` | app/page.tsx:427 | once a page is shown, Next is enabled exactly when the server's `hasMore` says the next page holds rows |
| `Client.HistoryPanel.constructor` | app/page.tsx:43-46 | initially there are no rows, the page is 1, there is 1 page and nothing is loading |
| `Client.HistoryPanel.StartFetch` | app/page.tsx:49 | loading starts, and nothing else changes |
| `Client.HistoryPanel.FinishFetch` | app/page.tsx:50-64 | a reply shows its rows, its page count and the requested page; a throw keeps what was shown; loading stops either way |
| `Client.HistoryPanel.Cleared` | app/page.tsx:170-173 | after a successful DELETE the panel shows one empty page, and both buttons are disabled |
| `Client.PrepareRequest` | app/page.tsx:84-111 | a URL that is blank after trimming is refused with "Please enter a URL"; otherwise the method and the URL go as typed, with the parsed headers and the trimmed body, or null when the trimmed body is empty |
| `Client.PreparedRequestHasUrl` | app/page.tsx:84-92 | a request the page lets through is never refused by the route for a missing URL |
| `Client.LoadHistoryItem` | app/page.tsx:138-146 | the editor gets the row's method and URL, its headers serialized as `k: v` lines in listing order, and its body or `""` |
| `Client.ReplayRestoresRequest` | app/page.tsx:84-146 | reloading a logged row and sending it again reproduces the logged request, when its headers are safe and its body is absent or trimmed |

`Executor.Handle` (app/api/request/route.ts:5-81) states the following:

- A body that is not valid JSON gives 500 "Internal server error".
- A missing or empty URL gives 400 "URL is required". Nothing is called and
  nothing is logged.
- A present URL gives exactly one outbound call, built by `OutboundOf`.
- A network error, or a failure while reading the body, gives the
  `RequestFailed` reply with the elapsed time.
- A call that was answered and whose body was read gets the success reply:
  the body read, the reply's status and headers, and the elapsed time up to
  the answer.
- A row is logged exactly in that case. The row matches the reply in
  method, URL, headers, stored body, response text, status and elapsed
  time.

## Left out

- Page and limit values that the code does not guard get no model. A `page` below 1, a `limit` below 1, and a parameter that `parseInt` turns into `NaN` are excluded by `History.ValidParams` and required by `History.HistoryStore.Query`, `History.Answer` and its lemmas. With such values the code sends a negative offset or a zero or `NaN` limit to the database, and its result depends on the database.
- A `status` parameter that is not a number (`parseInt` gives `NaN`) gets no model. `History.Params` holds an already-parsed integer.
- `History.HistoryStore.Query`: `ILIKE` is modelled as an ASCII case-insensitive substring test. `%` and `_` in the search text, and lower-casing beyond ASCII, are not modelled.
- `History.NewestFirst`: rows with equal `createdAt` come out with the later-stored row first. The database gives no order among equal timestamps, so this is one of several orders it may produce.
- The `Cache-Control` header of the GET reply is left out. It is constant and does not affect the data.
- `createdAt.toISOString()` is left out. Timestamps are numbers in the model.
- String lengths count code points, whereas JavaScript counts UTF-16 code units. The 1000-character cut of `History.Truncate` therefore differs for text outside the Basic Multilingual Plane.
- `History.HistoryStore.Insert`: a failed write leaves the key sequence unchanged. A real database may consume a key anyway.
- The ORM singleton (`lib/mikro-orm.ts`), the schema setup route (`app/api/setup/route.ts`) and the development setup script (`scripts/setup-dev.js`) are not part of this model. They hold connection and schema management, not request logic.
- `fetch`, the database, the clock and JSON encoding and decoding are inputs, not code. JSON values other than strings are carried as their serialized text.
- `Executor.OutboundHeaders`: `fetch` merges header names without regard to case. The model keeps a caller's `user-agent` in lower case as a separate key next to `User-Agent`.
- `Executor.Handle`: a request field that is not a string in JSON (a number as the URL, an array as the headers) and JavaScript's truthiness rules for such values are not modelled. The fields are typed.
- `Executor.ContentType`: response header names are taken as already lower-cased, as `Headers.entries()` lists them. Case-insensitive `get` is not modelled beyond that.
- The `console.error` logging of any handler is left out.
- `Client.HistoryPanel.FinishFetch`: a non-OK reply from `/api/history` has a body without `requests`. `fetchHistory` then stores `undefined` in the list, and the model does not represent that state.
- `Client.HeadersRoundTrip`, `Client.SerializeThenParse`, `Client.LinesRoundTrip` and `Client.ReplayRestoresRequest` cover only headers whose key is not `__proto__`. A stored row can carry such a key, since a direct call to `/api/request` stores whatever headers object it is given. Reloading that row loses the header, because the editor's parser never produces a `__proto__` key (`Client.NoProtoKey`).
- `Client.LoadHistoryItem`: the response viewer that `loadHistoryItem` fills (`JSON.parse` of the stored response, with the raw text as fallback) is left out. Only the request editor's fields are modelled.
- Toasts, rendering, the loading flag of `makeRequest` and the response viewer are user-interface behaviour and are not modelled. Refreshing the history after a request only re-runs `fetchHistory`, which is modelled.
