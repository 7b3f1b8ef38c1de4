/**
 * The logic of the browser page that is not rendering: the headers text
 * parser and its inverse used when a history item is reloaded, the badge
 * classifiers, the state behind the Previous/Next buttons, and the checks
 * `makeRequest` applies before calling the request route.
 */
module Client {
  import opened Wrappers
  import opened Strings
  import opened History
  import opened Executor

  // ---------------------------------------------------------------------------
  // Headers text <-> header map
  // ---------------------------------------------------------------------------

  /** One line of the headers text: `const [key, ...valueParts] = line.split(":")`,
      kept when `key` is non-empty and there is at least one value part. */
  function ParseLine(line: string): Option<(string, string)> {
    var parts := Split(line, ':');
    if parts[0] != "" && |parts| > 1 then Some((Trim(parts[0]), Trim(Join(parts[1..], ":")))) else None
  }

  /** A line with a colon: the key is the trimmed text before the first colon
      and the value the trimmed text after it; a colon in first place drops the line. */
  lemma ParseLineAtFirstColon(line: string, i: nat)
    requires i < |line| && line[i] == ':' && ':' !in line[..i]
    ensures ParseLine(line) == if i == 0 then None else Some((Trim(line[..i]), Trim(line[i + 1..])))
  {
    assert line == line[..i] + [':'] + line[i + 1..];
    SplitAtFirst(line[..i], ':', line[i + 1..]);
    JoinSplit(line[i + 1..], ':');
    assert ([line[..i]] + Split(line[i + 1..], ':'))[1..] == Split(line[i + 1..], ':');
  }

  /** A line without a colon adds nothing. */
  lemma ParseLineWithoutColon(line: string)
    requires ':' !in line
    ensures ParseLine(line) == None
  {
    SplitWithoutSeparator(line, ':');
  }

  /** The value is everything after the first colon, later colons included. */
  lemma ParseLineKeepsLaterColons()
    ensures ParseLine("a: b:c") == Some(("a", "b:c"))
  {
    LaterColonsSplit();
    TrimmedKeyA();
    TrimmedValueBC();
  }

  lemma LaterColonsSplit()
    ensures ParseLine("a: b:c") == Some((Trim("a"), Trim(" b:c")))
  {
    assert "a: b:c" == "a" + [':'] + " b:c";
    ParseLineAfterKey("a", " b:c");
  }

  /** A non-empty key without a colon, then a colon, then anything. */
  lemma ParseLineAfterKey(k: string, rest: string)
    requires k != "" && ':' !in k
    ensures ParseLine(k + [':'] + rest) == Some((Trim(k), Trim(rest)))
  {
    var line := k + [':'] + rest;
    assert line[..|k|] == k && line[|k| + 1..] == rest;
    ParseLineAtFirstColon(line, |k|);
  }

  lemma TrimmedKeyA()
    ensures Trim("a") == "a"
  {
    assert IsTrimmed("a");
  }

  lemma TrimmedValueBC()
    ensures Trim(" b:c") == "b:c"
  {
    assert IsTrimmed("b:c");
    TrimLeadingSpace("b:c");
    assert " " + "b:c" == " b:c";
  }

  /** The emptiness test is on the untrimmed key: `":v"` is dropped ... */
  lemma ParseLineDropsEmptyKey()
    ensures ParseLine(":v") == None
  {
    ParseLineAtFirstColon(":v", 0);
  }

  /** ... while `" :v"` yields the key `""`. */
  lemma ParseLineKeepsBlankKey()
    ensures ParseLine(" :v") == Some(("", "v"))
  {
    BlankKeySplit();
    TrimmedBlank();
    TrimmedValueV();
  }

  lemma BlankKeySplit()
    ensures ParseLine(" :v") == Some((Trim(" "), Trim("v")))
  {
    assert " :v" == " " + [':'] + "v";
    ParseLineAfterKey(" ", "v");
  }

  lemma TrimmedBlank()
    ensures Trim(" ") == ""
  {
    assert IsSpace(" "[0]);
  }

  lemma TrimmedValueV()
    ensures Trim("v") == "v"
  {
    assert IsTrimmed("v");
  }

  /** The map a sequence of parsed lines builds, one after the other, a later
      entry overwriting an earlier one with the same key; `None` adds nothing. */
  function Collect(parsed: seq<Option<(string, string)>>): map<string, string> {
    if parsed == [] then map[]
    else
      var m := Collect(parsed[..|parsed| - 1]);
      var last := parsed[|parsed| - 1];
      if last.Some? then m[last.value.0 := last.value.1] else m
  }

  /** The parsed entry gives key `k`. */
  predicate Gives(o: Option<(string, string)>, k: string) {
    o.Some? && o.value.0 == k
  }

  /** A key is collected exactly when some entry gives it, and its value is
      that of the last entry that gives it. */
  lemma CollectLastWins(parsed: seq<Option<(string, string)>>, k: string)
    ensures k in Collect(parsed) <==> exists i :: 0 <= i < |parsed| && Gives(parsed[i], k)
    ensures k in Collect(parsed) ==>
              exists i :: 0 <= i < |parsed| && parsed[i] == Some((k, Collect(parsed)[k]))
                && forall j :: i < j < |parsed| ==> !Gives(parsed[j], k)
  {
    CollectKeys(parsed, k);
    if k in Collect(parsed) {
      CollectValue(parsed, k);
    }
  }

  /** Collecting one more entry updates the map by that entry alone. */
  lemma CollectSnoc(parsed: seq<Option<(string, string)>>, i: nat)
    requires i < |parsed|
    ensures Collect(parsed[..i + 1]) ==
              var m := Collect(parsed[..i]);
              if parsed[i].Some? then m[parsed[i].value.0 := parsed[i].value.1] else m
  {
    assert parsed[..i + 1][..i] == parsed[..i];
  }

  lemma {:induction false} CollectKeys(parsed: seq<Option<(string, string)>>, k: string)
    ensures k in Collect(parsed) <==> exists i :: 0 <= i < |parsed| && Gives(parsed[i], k)
  {
    if parsed != [] {
      var n := |parsed|;
      var init := parsed[..n - 1];
      CollectKeys(init, k);
      assert forall i :: 0 <= i < n - 1 ==> parsed[i] == init[i];
      if !Gives(parsed[n - 1], k) && exists i :: 0 <= i < n && Gives(parsed[i], k) {
        var i :| 0 <= i < n && Gives(parsed[i], k);
        assert Gives(init[i], k);
      }
    }
  }

  lemma {:induction false} CollectValue(parsed: seq<Option<(string, string)>>, k: string)
    requires k in Collect(parsed)
    ensures exists i :: 0 <= i < |parsed| && parsed[i] == Some((k, Collect(parsed)[k]))
              && forall j :: i < j < |parsed| ==> !Gives(parsed[j], k)
  {
    var n := |parsed|;
    var init := parsed[..n - 1];
    var h := Collect(parsed);
    if Gives(parsed[n - 1], k) {
      assert parsed[n - 1] == Some((k, h[k]));
    } else {
      var m := Collect(init);
      assert k in m && h[k] == m[k];
      CollectValue(init, k);
      var i :| 0 <= i < n - 1 && init[i] == Some((k, m[k])) && forall j :: i < j < n - 1 ==> !Gives(init[j], k);
      assert parsed[i] == Some((k, h[k]));
      assert forall j :: i < j < n ==> !Gives(parsed[j], k) by {
        assert forall j :: i < j < n - 1 ==> parsed[j] == init[j];
      }
    }
  }

  /** The one key that `headers[key] = value` on a plain object does not
      create: it reaches the `Object.prototype.__proto__` setter, which
      ignores a string value. */
  const ProtoKey := "__proto__"

  /** What the assignment stores of a parsed line: nothing for `__proto__`. */
  function Assigned(o: Option<(string, string)>): (a: Option<(string, string)>)
    ensures a.Some? <==> o.Some? && o.value.0 != ProtoKey
    ensures a.Some? ==> a == o
  {
    if o.Some? && o.value.0 == ProtoKey then None else o
  }

  /** Each line parsed on its own, as its assignment stores it. */
  function ParsedLines(lines: seq<string>): (p: seq<Option<(string, string)>>)
    ensures |p| == |lines| && forall i :: 0 <= i < |lines| ==> p[i] == Assigned(ParseLine(lines[i]))
  {
    seq(|lines|, i requires 0 <= i < |lines| => Assigned(ParseLine(lines[i])))
  }

  /** The map the lines build in the `forEach`. */
  function HeadersFromLines(lines: seq<string>): map<string, string> {
    Collect(ParsedLines(lines))
  }

  /** `parseHeaders`: nothing for an all-white-space text, otherwise the lines' map. */
  function HeadersOf(text: string): map<string, string> {
    if Trim(text) == "" then map[] else HeadersFromLines(Split(text, '\n'))
  }

  /** `parseHeaders`, filling the map in place. */
  method ParseHeaders(headerString: string) returns (headers: map<string, string>)
    ensures headers == HeadersOf(headerString)
  {
    headers := map[];
    if Trim(headerString) == "" {
      return;
    }
    var lines := Split(headerString, '\n');
    ghost var parsed := ParsedLines(lines);
    var i := 0;
    while i < |lines|
      invariant 0 <= i <= |lines|
      invariant headers == Collect(parsed[..i])
    {
      CollectSnoc(parsed, i);
      match ParseLine(lines[i]) {
        case Some((k, v)) =>
          if k != ProtoKey {
            headers := headers[k := v];
          }
        case None =>
      }
      i := i + 1;
    }
    assert parsed[..|lines|] == parsed;
  }

  /** An empty or all-white-space text gives the empty map. */
  lemma BlankHeadersText(text: string)
    requires forall i :: 0 <= i < |text| ==> IsSpace(text[i])
    ensures HeadersOf(text) == map[]
  {
  }

  /** A key other than `__proto__` is in the map exactly when some line gives
      it, and its value is the one of the last line that gives it. */
  lemma LastLineWins(lines: seq<string>, k: string)
    ensures k in HeadersFromLines(lines) <==>
              k != ProtoKey && exists i :: 0 <= i < |lines| && Gives(ParseLine(lines[i]), k)
    ensures k in HeadersFromLines(lines) ==>
              exists i :: 0 <= i < |lines| && ParseLine(lines[i]) == Some((k, HeadersFromLines(lines)[k]))
                && forall j :: i < j < |lines| ==> !Gives(ParseLine(lines[j]), k)
  {
    var p := ParsedLines(lines);
    CollectLastWins(p, k);
    assert forall i :: 0 <= i < |lines| ==> (Gives(p[i], k) <==> k != ProtoKey && Gives(ParseLine(lines[i]), k));
  }

  /** No text yields a `__proto__` header. */
  lemma NoProtoKey(text: string)
    ensures ProtoKey !in HeadersOf(text)
  {
    if Trim(text) != "" {
      LastLineWins(Split(text, '\n'), ProtoKey);
    }
  }

  /** Entries seen as parsed lines that all succeeded. */
  function AsParsed(entries: seq<(string, string)>): (p: seq<Option<(string, string)>>)
    ensures |p| == |entries| && forall i :: 0 <= i < |entries| ==> p[i] == Some(entries[i])
  {
    seq(|entries|, i requires 0 <= i < |entries| => Some(entries[i]))
  }

  /** The map `Object.fromEntries` builds from a list of entries. */
  function FromEntries(entries: seq<(string, string)>): map<string, string> {
    Collect(AsParsed(entries))
  }

  /** `entries` lists `m` as `Object.entries(m)` does: each key once, with its value. */
  predicate Enumerates(entries: seq<(string, string)>, m: map<string, string>) {
    && (forall i :: 0 <= i < |entries| ==> entries[i].0 in m && m[entries[i].0] == entries[i].1)
    && (forall k :: k in m ==> exists i :: 0 <= i < |entries| && entries[i].0 == k)
    && (forall i, j :: 0 <= i < j < |entries| ==> entries[i].0 != entries[j].0)
  }

  /** Every map has such a listing. */
  ghost function EntriesOf(m: map<string, string>): (entries: seq<(string, string)>)
    ensures Enumerates(entries, m)
    decreases |m|
  {
    if m == map[] then []
    else
      var k :| k in m;
      var rest := m - {k};
      assert rest.Keys == m.Keys - {k};
      assert |rest| < |m|;
      var es := EntriesOf(rest);
      ListingCons(k, m, es);
      [(k, m[k])] + es
  }

  lemma ListingCons(k: string, m: map<string, string>, es: seq<(string, string)>)
    requires k in m && Enumerates(es, m - {k})
    ensures Enumerates([(k, m[k])] + es, m)
  {
    var entries := [(k, m[k])] + es;
    assert forall i :: 1 <= i < |entries| ==> entries[i] == es[i - 1];
    forall k' | k' in m ensures exists i :: 0 <= i < |entries| && entries[i].0 == k' {
      if k' == k {
        assert entries[0].0 == k';
      } else {
        assert k' in m - {k};
        var i :| 0 <= i < |es| && es[i].0 == k';
        assert entries[i + 1].0 == k';
      }
    }
  }

  /** A listing of `m` rebuilds `m`. */
  lemma FromEntriesOfListing(entries: seq<(string, string)>, m: map<string, string>)
    requires Enumerates(entries, m)
    ensures FromEntries(entries) == m
  {
    var f := FromEntries(entries);
    var p := AsParsed(entries);
    forall k ensures (k in f <==> k in m) && (k in f ==> f[k] == m[k]) {
      CollectLastWins(p, k);
      if k in m {
        var i :| 0 <= i < |entries| && entries[i].0 == k;
        assert Gives(p[i], k);
      }
    }
  }

  /** `${k}: ${v}`. */
  function HeaderLine(k: string, v: string): string {
    k + ": " + v
  }

  function HeaderLines(entries: seq<(string, string)>): (lines: seq<string>)
    ensures |lines| == |entries|
    ensures forall i :: 0 <= i < |entries| ==> lines[i] == HeaderLine(entries[i].0, entries[i].1)
  {
    seq(|entries|, i requires 0 <= i < |entries| => HeaderLine(entries[i].0, entries[i].1))
  }

  /** The headers text `loadHistoryItem` puts back in the editor: one `k: v` line per entry, joined with newlines. */
  function SerializeHeaders(entries: seq<(string, string)>): string {
    Join(HeaderLines(entries), "\n")
  }

  /** An entry whose line `k: v` parses back to it. */
  predicate SafeLine(k: string, v: string) {
    && k != "" && IsTrimmed(k) && ':' !in k && '\n' !in k
    && IsTrimmed(v) && '\n' !in v
  }

  /** An entry that survives being written as a line and parsed back into a map. */
  predicate SafeHeader(k: string, v: string) {
    SafeLine(k, v) && k != ProtoKey
  }

  lemma ParseHeaderLine(k: string, v: string)
    requires SafeLine(k, v)
    ensures ParseLine(HeaderLine(k, v)) == Some((k, v))
  {
    var line := HeaderLine(k, v);
    assert line[|k|] == ':';
    assert line[..|k|] == k;
    assert line[|k| + 1..] == " " + v;
    ParseLineAtFirstColon(line, |k|);
    TrimLeadingSpace(v);
  }

  lemma LinesRoundTrip(entries: seq<(string, string)>)
    requires forall i :: 0 <= i < |entries| ==> SafeHeader(entries[i].0, entries[i].1)
    ensures HeadersFromLines(HeaderLines(entries)) == FromEntries(entries)
  {
    var lines := HeaderLines(entries);
    forall i | 0 <= i < |entries| ensures ParseLine(lines[i]) == Some(entries[i]) {
      ParseHeaderLine(entries[i].0, entries[i].1);
    }
    assert ParsedLines(lines) == AsParsed(entries);
  }

  /** Serializing entries and parsing the text gives the map of the entries. */
  lemma SerializeThenParse(entries: seq<(string, string)>)
    requires forall i :: 0 <= i < |entries| ==> SafeHeader(entries[i].0, entries[i].1)
    ensures HeadersOf(SerializeHeaders(entries)) == FromEntries(entries)
  {
    var lines := HeaderLines(entries);
    var text := SerializeHeaders(entries);
    if entries != [] {
      forall i | 0 <= i < |lines| ensures '\n' !in lines[i] {
        assert lines[i] == entries[i].0 + ": " + entries[i].1;
      }
      SplitJoin(lines, '\n');
      var k := entries[0].0;
      assert IsTrimmed(Trim(k));
      assert |lines| == 1 || text == lines[0] + "\n" + Join(lines[1..], "\n");
      assert text[0] == k[0];
      assert Trim(text) != "";
    }
    LinesRoundTrip(entries);
  }

  /** Round trip: a map whose keys are non-empty, trimmed, free of `:` and
      newlines and other than `__proto__` (which `NoProtoKey` shows is always
      lost), and whose values are trimmed and free of newlines, comes back
      from its serialization unchanged, whatever the order of its entries. */
  lemma HeadersRoundTrip(m: map<string, string>, entries: seq<(string, string)>)
    requires Enumerates(entries, m)
    requires forall k :: k in m ==> SafeHeader(k, m[k])
    ensures HeadersOf(SerializeHeaders(entries)) == m
  {
    SerializeThenParse(entries);
    FromEntriesOfListing(entries, m);
  }

  /** A parsed line has a trimmed key free of `:` and newlines and a trimmed value free of newlines. */
  lemma ParsedLineSafe(line: string)
    requires '\n' !in line
    requires ParseLine(line).Some? && ParseLine(line).value.0 != ""
    ensures SafeLine(ParseLine(line).value.0, ParseLine(line).value.1)
  {
    if ':' !in line {
      ParseLineWithoutColon(line);
    }
    var i := FirstIndex(line, ':');
    ParseLineAtFirstColon(line, i);
    assert '\n' !in line[..i] && '\n' !in line[i + 1..];
    TrimAddsNothing(line[..i], '\n');
    TrimAddsNothing(line[i + 1..], '\n');
    var k, v := Trim(line[..i]), Trim(line[i + 1..]);
    assert IsTrimmed(k) && IsTrimmed(v);
  }

  /** Reloading a history item and sending it again keeps the headers the
      user typed, unless one of them has an empty key (a line such as
      `" :v"`), which the serialized line `": v"` no longer yields. */
  lemma ParsedHeadersReplay(text: string, entries: seq<(string, string)>)
    requires Enumerates(entries, HeadersOf(text))
    requires "" !in HeadersOf(text)
    ensures HeadersOf(SerializeHeaders(entries)) == HeadersOf(text)
  {
    var m := HeadersOf(text);
    forall k | k in m ensures SafeHeader(k, m[k]) {
      var lines := Split(text, '\n');
      LastLineWins(lines, k);
      var i :| 0 <= i < |lines| && ParseLine(lines[i]) == Some((k, m[k]));
      ParsedLineSafe(lines[i]);
    }
    HeadersRoundTrip(m, entries);
  }

  /** The empty key is the one case that is lost. */
  lemma EmptyKeyNotReplayed()
    ensures HeadersOf(" :v") == map["" := "v"]
    ensures HeadersOf(SerializeHeaders([("", "v")])) == map[]
  {
    BlankKeyHeaders();
    EmptyKeyHeaders();
  }

  lemma BlankKeyHeaders()
    ensures HeadersOf(" :v") == map["" := "v"]
  {
    assert !IsSpace(" :v"[1]);
    HeadersOfOneLine(" :v");
    ParseLineKeepsBlankKey();
  }

  lemma EmptyKeyHeaders()
    ensures HeadersOf(SerializeHeaders([("", "v")])) == map[]
  {
    var line := HeaderLine("", "v");
    assert line == ": v";
    assert SerializeHeaders([("", "v")]) == line;
    assert !IsSpace(line[0]);
    HeadersOfOneLine(line);
    ParseLineAtFirstColon(line, 0);
  }

  /** A text of one line that is not blank gives at most that line's header. */
  lemma HeadersOfOneLine(line: string)
    requires '\n' !in line && exists i :: 0 <= i < |line| && !IsSpace(line[i])
    ensures HeadersOf(line) == Collect([Assigned(ParseLine(line))])
  {
    SplitWithoutSeparator(line, '\n');
    assert ParsedLines([line]) == [Assigned(ParseLine(line))];
  }

  // ---------------------------------------------------------------------------
  // Badges
  // ---------------------------------------------------------------------------

  const GreenBadge := "bg-green-600 text-white border-green-500"
  const YellowBadge := "bg-yellow-600 text-white border-yellow-500"
  const OrangeBadge := "bg-orange-600 text-white border-orange-500"
  const RedBadge := "bg-red-600 text-white border-red-500"
  const GrayBadge := "bg-gray-600 text-white border-gray-500"
  const BlueBadge := "bg-blue-600 text-white border-blue-500"
  const PurpleBadge := "bg-purple-600 text-white border-purple-500"

  /** `getStatusColor`: the status classes partition the integers. */
  function StatusColor(status: int): (c: string)
    ensures c == GreenBadge <==> 200 <= status < 300
    ensures c == YellowBadge <==> 300 <= status < 400
    ensures c == OrangeBadge <==> 400 <= status < 500
    ensures c == RedBadge <==> status >= 500
    ensures c == GrayBadge <==> status < 200
  {
    if 200 <= status < 300 then GreenBadge
    else if 300 <= status < 400 then YellowBadge
    else if 400 <= status < 500 then OrangeBadge
    else if status >= 500 then RedBadge
    else GrayBadge
  }

  /** The five methods the editor offers. */
  predicate IsVerb(httpMethod: string) {
    httpMethod in ["GET", "POST", "PUT", "DELETE", "PATCH"]
  }

  /** `getMethodColor`: each verb, matched exactly, has its own class; anything else is gray. */
  function MethodColor(httpMethod: string): (c: string)
    ensures c == GrayBadge <==> !IsVerb(httpMethod)
    ensures httpMethod == "GET" <==> c == BlueBadge
    ensures httpMethod == "POST" <==> c == GreenBadge
    ensures httpMethod == "PUT" <==> c == YellowBadge
    ensures httpMethod == "DELETE" <==> c == RedBadge
    ensures httpMethod == "PATCH" <==> c == PurpleBadge
  {
    match httpMethod
    case "GET" => BlueBadge
    case "POST" => GreenBadge
    case "PUT" => YellowBadge
    case "DELETE" => RedBadge
    case "PATCH" => PurpleBadge
    case _ => GrayBadge
  }

  // ---------------------------------------------------------------------------
  // History pagination state
  // ---------------------------------------------------------------------------

  /** `disabled={historyPage <= 1 || historyLoading}`, negated. */
  function PreviousEnabled(page: int, loading: bool): (enabled: bool)
    ensures enabled <==> page > 1 && !loading
  {
    !(page <= 1 || loading)
  }

  /** `disabled={historyPage >= totalPages || historyLoading}`, negated. */
  function NextEnabled(page: int, totalPages: int, loading: bool): (enabled: bool)
    ensures enabled <==> page < totalPages && !loading
  {
    !(page >= totalPages || loading)
  }

  /** Once a page is shown, Next is enabled exactly when the server reported
      `hasMore`, that is, when the next page holds at least one row. */
  lemma NextMatchesHasMore(records: seq<Record>, page: int, limit: int, where: Filter)
    requires page >= 1 && limit >= 1
    ensures var a := Answer(records, page, limit, where);
      NextEnabled(a.currentPage, a.totalPages, false) <==> page * limit < a.total
  {
    AnswerHasMore(records, page, limit, where);
  }

  /** The page's history state: `history`, `historyPage`, `totalPages` and `historyLoading`. */
  class HistoryPanel {
    var history: seq<Record>
    var historyPage: int
    var totalPages: int
    var historyLoading: bool

    constructor ()
      ensures history == [] && historyPage == 1 && totalPages == 1 && !historyLoading
    {
      history, historyPage, totalPages, historyLoading := [], 1, 1, false;
    }

    /** `fetchHistory` starts: `setHistoryLoading(true)`. */
    method StartFetch()
      modifies this
      ensures historyLoading
      ensures history == old(history) && historyPage == old(historyPage) && totalPages == old(totalPages)
    {
      historyLoading := true;
    }

    /** `fetchHistory(page)` ends: on a reply its rows, page count and page are
        shown; if the fetch threw only a toast appears. Loading stops either way. */
    method FinishFetch(page: int, reply: Option<HistoryPage>)
      modifies this
      ensures !historyLoading
      ensures reply.Some? ==> history == reply.value.requests && totalPages == reply.value.totalPages && historyPage == page
      ensures reply.None? ==> history == old(history) && totalPages == old(totalPages) && historyPage == old(historyPage)
    {
      if reply.Some? {
        history := reply.value.requests;
        totalPages := reply.value.totalPages;
        historyPage := page;
      }
      historyLoading := false;
    }

    /** `clearHistory` after a successful DELETE: back to one empty page. */
    method Cleared()
      modifies this
      ensures history == [] && historyPage == 1 && totalPages == 1
      ensures historyLoading == old(historyLoading)
      ensures !PreviousEnabled(historyPage, historyLoading) && !NextEnabled(historyPage, totalPages, historyLoading)
    {
      history, historyPage, totalPages := [], 1, 1;
    }
  }

  // ---------------------------------------------------------------------------
  // makeRequest and loadHistoryItem
  // ---------------------------------------------------------------------------

  /** The editor's fields. */
  datatype Draft = Draft(httpMethod: string, url: string, headers: string, body: string)

  const EnterUrl := "Please enter a URL"

  /** `makeRequest` before its call: refuses a URL that is blank after
      trimming, and sends the URL as typed, the parsed headers and the trimmed
      body, or null when that is empty. */
  function PrepareRequest(d: Draft): (r: Result<RequestFields, string>)
    ensures r.Err? <==> forall i :: 0 <= i < |d.url| ==> IsSpace(d.url[i])
    ensures r.Err? ==> r.error == EnterUrl
    ensures r.Ok? ==> r.value.httpMethod == d.httpMethod && r.value.url == Some(d.url)
                      && r.value.headers == Some(HeadersOf(d.headers))
    ensures r.Ok? ==> (r.value.body.None? <==> Trim(d.body) == "")
    ensures r.Ok? && r.value.body.Some? ==> r.value.body.value == Trim(d.body)
  {
    if Trim(d.url) == "" then Err(EnterUrl)
    else
      var body := Trim(d.body);
      Ok(RequestFields(d.httpMethod, Some(d.url), Some(HeadersOf(d.headers)), if body == "" then None else Some(body)))
  }

  /** A request that passed the page's check is never refused by the route for a missing URL. */
  lemma PreparedRequestHasUrl(d: Draft, net: FetchOutcome, clock: Clock)
    requires PrepareRequest(d).Ok?
    ensures Handle(Some(PrepareRequest(d).value), net, clock).call.Some?
  {
  }

  /** `loadHistoryItem`: the editor is refilled from a stored row; `entries` is
      `Object.entries(item.headers)`. */
  function LoadHistoryItem(item: Record, entries: seq<(string, string)>): (d: Draft)
    requires Enumerates(entries, item.headers)
    ensures d.httpMethod == item.httpMethod && d.url == item.url
    ensures d.headers == SerializeHeaders(entries)
    ensures d.body == (if item.body.Some? then item.body.value else "")
  {
    Draft(item.httpMethod, item.url, SerializeHeaders(entries), item.body.GetOr(""))
  }

  /** Replay: reloading a stored row and sending it again reproduces the
      request that was logged, when its headers are safe to serialize and its
      body is absent or trimmed and non-empty. */
  lemma ReplayRestoresRequest(item: Record, entries: seq<(string, string)>)
    requires Enumerates(entries, item.headers)
    requires forall k :: k in item.headers ==> SafeHeader(k, item.headers[k])
    requires Trim(item.url) != ""
    requires item.body.None? || (item.body.value != "" && Trim(item.body.value) == item.body.value)
    ensures PrepareRequest(LoadHistoryItem(item, entries))
              == Ok(RequestFields(item.httpMethod, Some(item.url), Some(item.headers), item.body))
  {
    HeadersRoundTrip(item.headers, entries);
    if item.body.None? {
      assert Trim("") == "";
    }
  }
}
