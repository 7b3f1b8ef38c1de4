/**
 * The audit log behind `/api/history`: the stored `RequestHistory` rows, the
 * filtered, newest-first, paginated query of the GET handler with its
 * truncating projection, the DELETE handler that clears the log, and the
 * insert the request route performs.
 */
module History {
  import opened Wrappers
  import opened Strings

  /** One persisted row. `createdAt` is a timestamp in milliseconds supplied by the caller. */
  datatype Record = Record(
    id: nat,
    httpMethod: string,
    url: string,
    headers: map<string, string>,
    body: Option<string>,
    response: string,
    status: int,
    responseTime: int,
    createdAt: nat)

  /** The fields the request route fills in; the store assigns the `id`. */
  datatype Entry = Entry(
    httpMethod: string,
    url: string,
    headers: map<string, string>,
    body: Option<string>,
    response: string,
    status: int,
    responseTime: int,
    createdAt: nat)
  {
    function WithId(id: nat): (r: Record)
      ensures r.id == id
      ensures r.httpMethod == httpMethod && r.url == url && r.headers == headers && r.body == body
      ensures r.response == response && r.status == status && r.responseTime == responseTime
      ensures r.createdAt == createdAt
    {
      Record(id, httpMethod, url, headers, body, response, status, responseTime, createdAt)
    }
  }

  /** An error reply: its HTTP status and the `error` text of its JSON body. */
  datatype ApiError = ApiError(status: int, error: string)

  const FetchHistoryFailed := ApiError(500, "Failed to fetch history")
  const ClearHistoryFailed := ApiError(500, "Failed to clear history")

  /** The query parameters. `None` stands for a parameter that is absent or
      empty; a present one has already gone through `parseInt` where the handler parses it. */
  datatype Params = Params(
    page: Option<int>,
    limit: Option<int>,
    httpMethod: Option<string>,
    status: Option<int>,
    search: Option<string>)

  /** The `where` object: the conditions in force, all of which must hold. */
  datatype Filter = Filter(httpMethod: Option<string>, status: Option<int>, search: Option<string>)

  /** The JSON body of a successful GET. */
  datatype HistoryPage = HistoryPage(
    requests: seq<Record>,
    totalPages: nat,
    currentPage: int,
    total: nat,
    hasMore: bool)

  const MaxLimit := 50
  const DefaultLimit := 10
  const TruncateAt := 1000

  /** The inputs the handler can serve: `parseInt` produced a number, and
      neither the page nor the limit is below 1. */
  predicate ValidParams(q: Params) {
    (q.page.None? || q.page.value >= 1) && (q.limit.None? || q.limit.value >= 1)
  }

  /** `page`, defaulting to 1. */
  function PageOf(q: Params): (page: int)
    ensures q.page.None? ==> page == 1
    ensures q.page.Some? ==> page == q.page.value
    ensures ValidParams(q) ==> page >= 1
  {
    if q.page.Some? then q.page.value else 1
  }

  /** `limit`, defaulting to 10 and clamped to at most 50; there is no lower clamp. */
  function LimitOf(q: Params): (limit: int)
    ensures limit <= MaxLimit
    ensures q.limit.None? ==> limit == DefaultLimit
    ensures q.limit.Some? && q.limit.value <= MaxLimit ==> limit == q.limit.value
    ensures q.limit.Some? && q.limit.value > MaxLimit ==> limit == MaxLimit
    ensures ValidParams(q) ==> limit >= 1
  {
    var requested := if q.limit.Some? then q.limit.value else DefaultLimit;
    if requested < MaxLimit then requested else MaxLimit
  }

  /** A record meets a filter when it meets every condition in force. */
  predicate Matches(f: Filter, r: Record) {
    && (f.httpMethod.None? || r.httpMethod == f.httpMethod.value)
    && (f.status.None? || r.status == f.status.value)
    && (f.search.None? || ContainsIgnoringCase(r.url, f.search.value)
                       || ContainsIgnoringCase(r.response, f.search.value))
  }

  /** The `where` object the handler builds: a condition per non-empty parameter. */
  function WhereOf(q: Params): (f: Filter)
    ensures forall r :: Matches(f, r) <==>
      && (q.httpMethod.None? || q.httpMethod.value == "" || r.httpMethod == q.httpMethod.value)
      && (q.status.None? || r.status == q.status.value)
      && (q.search.None? || q.search.value == ""
          || ContainsIgnoringCase(r.url, q.search.value)
          || ContainsIgnoringCase(r.response, q.search.value))
  {
    Filter(
      if q.httpMethod.Some? && q.httpMethod.value != "" then q.httpMethod else None,
      q.status,
      if q.search.Some? && q.search.value != "" then q.search else None)
  }

  /** The matching records, in store order. Every matching record is kept, once per occurrence, and nothing else. */
  function Select(f: Filter, rs: seq<Record>): (s: seq<Record>)
    ensures forall x :: multiset(s)[x] == if Matches(f, x) then multiset(rs)[x] else 0
  {
    if rs == [] then []
    else
      assert rs == [rs[0]] + rs[1..];
      (if Matches(f, rs[0]) then [rs[0]] else []) + Select(f, rs[1..])
  }

  /** The number of records that match, counted one position of the log at a time. */
  ghost function MatchCount(f: Filter, rs: seq<Record>): nat {
    if rs == [] then 0 else (if Matches(f, rs[0]) then 1 else 0) + MatchCount(f, rs[1..])
  }

  /** Ordered by `createdAt`, newest first. */
  predicate IsNewestFirst(s: seq<Record>) {
    forall i, j :: 0 <= i < j < |s| ==> s[i].createdAt >= s[j].createdAt
  }

  /** Places `x` in a newest-first sequence, after every record at least as new. */
  function InsertNewestFirst(x: Record, s: seq<Record>): (r: seq<Record>)
    requires IsNewestFirst(s)
    ensures IsNewestFirst(r)
    ensures multiset(r) == multiset(s) + multiset{x}
    ensures |r| == |s| + 1
    ensures forall i :: 0 <= i < |r| ==> r[i] == x || r[i] in s
  {
    if s == [] || s[0].createdAt < x.createdAt then
      ConsNewestFirst(x, s);
      [x] + s
    else
      assert s == [s[0]] + s[1..];
      var t := InsertNewestFirst(x, s[1..]);
      assert forall i :: 0 <= i < |t| ==> t[i].createdAt <= s[0].createdAt;
      ConsNewestFirst(s[0], t);
      [s[0]] + t
  }

  lemma ConsNewestFirst(y: Record, t: seq<Record>)
    requires IsNewestFirst(t)
    requires forall i :: 0 <= i < |t| ==> t[i].createdAt <= y.createdAt
    ensures IsNewestFirst([y] + t)
  {
    var r := [y] + t;
    forall i, j | 0 <= i < j < |r| ensures r[i].createdAt >= r[j].createdAt {
      assert r[j] == t[j - 1];
      if i > 0 {
        assert r[i] == t[i - 1];
      }
    }
  }

  /** `orderBy: { createdAt: "DESC" }`: a newest-first permutation. Among equal
      timestamps the record stored later comes first. */
  function NewestFirst(rs: seq<Record>): (s: seq<Record>)
    ensures IsNewestFirst(s)
    ensures multiset(s) == multiset(rs)
    ensures |s| == |rs|
  {
    if rs == [] then []
    else
      assert rs == [rs[0]] + rs[1..];
      InsertNewestFirst(rs[0], NewestFirst(rs[1..]))
  }

  /** `limit` rows starting at `offset`, or fewer at the end. */
  function Window(s: seq<Record>, offset: nat, limit: nat): (w: seq<Record>)
    ensures |w| <= limit
    ensures |w| == if offset >= |s| then 0 else if offset + limit <= |s| then limit else |s| - offset
    ensures forall i :: 0 <= i < |w| ==> w[i] == s[offset + i]
  {
    var lo := if offset < |s| then offset else |s|;
    var hi := if offset + limit < |s| then offset + limit else |s|;
    s[lo..hi]
  }

  /** `Math.ceil(total / limit)`: the least number of pages of `limit` rows that holds `total` rows. */
  function TotalPages(total: nat, limit: nat): (n: nat)
    requires limit >= 1
    ensures n * limit >= total
    ensures n == 0 || (n - 1) * limit < total
  {
    var n := (total + limit - 1) / limit;
    assert n * limit + (total + limit - 1) % limit == total + limit - 1;
    assert (n - 1) * limit == n * limit - limit;
    n
  }

  /** The response shown in a list item: the first 1000 characters followed by
      `"..."` when it is longer than that, unchanged otherwise. */
  function Truncate(response: string): (shown: string)
    ensures |response| <= TruncateAt ==> shown == response
    ensures |response| > TruncateAt ==>
              |shown| == TruncateAt + 3 && shown[..TruncateAt] == response[..TruncateAt] && shown[TruncateAt..] == "..."
    ensures |shown| <= TruncateAt + 3
  {
    if |response| > TruncateAt then response[..TruncateAt] + "..." else response
  }

  /** The projection of one row into the reply: only `response` may differ. */
  function Project(r: Record): (p: Record)
    ensures p.response == Truncate(r.response)
    ensures p.(response := r.response) == r
  {
    r.(response := Truncate(r.response))
  }

  function Projected(s: seq<Record>): (p: seq<Record>)
    ensures |p| == |s|
    ensures forall i :: 0 <= i < |s| ==> p[i] == Project(s[i])
  {
    seq(|s|, i requires 0 <= i < |s| => Project(s[i]))
  }

  /** `(page - 1) * limit`: the rows on the pages before `page`. */
  function Offset(page: int, limit: int): (offset: nat)
    requires page >= 1 && limit >= 1
    ensures offset == (page - 1) * limit
  {
    var before: nat := page - 1;
    before * limit
  }

  /** The matching records in reply order: what the pages are cut from. */
  function Ranked(records: seq<Record>, where: Filter): seq<Record> {
    NewestFirst(Select(where, records))
  }

  /** The body of a successful GET for a page, a limit and a filter. */
  function Answer(records: seq<Record>, page: int, limit: int, where: Filter): HistoryPage
    requires page >= 1 && limit >= 1
  {
    var ranked := Ranked(records, where);
    var total := |ranked|;
    var totalPages := TotalPages(total, limit);
    HistoryPage(Projected(Window(ranked, Offset(page, limit), limit)), totalPages, page, total, page < totalPages)
  }

  /** The ranked matches are stored records that meet the filter. */
  lemma RankedMeetsFilter(records: seq<Record>, where: Filter)
    ensures forall r :: r in Ranked(records, where) ==> r in records && Matches(where, r)
  {
    forall r | r in Ranked(records, where) ensures r in records && Matches(where, r) {
      assert multiset(Select(where, records))[r] > 0;
    }
  }

  /** Every row returned is the projection of a stored record that meets every condition in force. */
  lemma AnswerMeetsFilter(records: seq<Record>, page: int, limit: int, where: Filter)
    requires page >= 1 && limit >= 1
    ensures forall i :: 0 <= i < |Answer(records, page, limit, where).requests| ==>
      exists r :: r in records && Matches(where, r) && Answer(records, page, limit, where).requests[i] == Project(r)
  {
    var ranked := Ranked(records, where);
    var offset := Offset(page, limit);
    var requests := Answer(records, page, limit, where).requests;
    AnswerIsWindow(records, page, limit, where);
    RankedMeetsFilter(records, where);
    forall i | 0 <= i < |requests|
      ensures exists r :: r in records && Matches(where, r) && requests[i] == Project(r)
    {
      var r := ranked[offset + i];
      assert r in ranked;
      assert requests[i] == Project(r);
    }
  }

  lemma WindowNewestFirst(s: seq<Record>, offset: nat, limit: nat)
    requires IsNewestFirst(s)
    ensures IsNewestFirst(Window(s, offset, limit))
  {
    var w := Window(s, offset, limit);
    forall i, j | 0 <= i < j < |w| ensures w[i].createdAt >= w[j].createdAt {
      assert w[i] == s[offset + i] && w[j] == s[offset + j];
    }
  }

  lemma ProjectedNewestFirst(s: seq<Record>)
    requires IsNewestFirst(s)
    ensures IsNewestFirst(Projected(s))
  {
    var p := Projected(s);
    forall i, j | 0 <= i < j < |p| ensures p[i].createdAt >= p[j].createdAt {
      assert p[i] == Project(s[i]) && p[j] == Project(s[j]);
    }
  }

  /** The rows are in `createdAt` order, newest first, and there are at most `limit` of them. */
  lemma AnswerNewestFirst(records: seq<Record>, page: int, limit: int, where: Filter)
    requires page >= 1 && limit >= 1
    ensures IsNewestFirst(Answer(records, page, limit, where).requests)
    ensures |Answer(records, page, limit, where).requests| <= limit
  {
    var ranked := Ranked(records, where);
    var w := Window(ranked, Offset(page, limit), limit);
    WindowNewestFirst(ranked, Offset(page, limit), limit);
    ProjectedNewestFirst(w);
  }

  /** The rows are positions `offset .. offset + limit` of the ranked matches. */
  lemma AnswerIsWindow(records: seq<Record>, page: int, limit: int, where: Filter)
    requires page >= 1 && limit >= 1
    ensures var a := Answer(records, page, limit, where);
      var offset := Offset(page, limit);
      && |a.requests| == (if offset >= a.total then 0 else if offset + limit <= a.total then limit else a.total - offset)
      && forall i :: 0 <= i < |a.requests| ==> a.requests[i] == Project(Ranked(records, where)[offset + i])
  {
  }

  /** `total` counts every stored record that matches, whatever the page and the limit. */
  lemma {:induction false} AnswerTotal(records: seq<Record>, page: int, limit: int, where: Filter)
    requires page >= 1 && limit >= 1
    ensures Answer(records, page, limit, where).total == MatchCount(where, records)
  {
    SelectCount(where, records);
  }

  lemma {:induction false} SelectCount(f: Filter, rs: seq<Record>)
    ensures |Select(f, rs)| == MatchCount(f, rs)
  {
    if rs != [] {
      SelectCount(f, rs[1..]);
    }
  }

  /** `hasMore` says that the next page holds at least one row. */
  lemma AnswerHasMore(records: seq<Record>, page: int, limit: int, where: Filter)
    requires page >= 1 && limit >= 1
    ensures var a := Answer(records, page, limit, where);
      a.hasMore <==> page * limit < a.total
  {
    var a := Answer(records, page, limit, where);
    PagesLeft(a.total, limit, page);
  }

  lemma PagesLeft(total: nat, limit: nat, page: int)
    requires limit >= 1 && page >= 0
    ensures page < TotalPages(total, limit) <==> page * limit < total
  {
    var n := TotalPages(total, limit);
    if page < n {
      MulMonotone(page, n - 1, limit);
    } else {
      MulMonotone(n, page, limit);
    }
  }

  lemma {:induction false} MulMonotone(a: int, b: int, c: nat)
    requires a <= b
    ensures a * c <= b * c
  {
    if c > 0 {
      MulMonotone(a, b, c - 1);
      assert a * c == a * (c - 1) + a;
      assert b * c == b * (c - 1) + b;
    }
  }

  /** Paging covers the matches: the match of rank `(page - 1) * limit + i`
      is row `i` of `page`. */
  lemma MatchAtPosition(records: seq<Record>, page: int, limit: int, where: Filter, i: nat)
    requires page >= 1 && limit >= 1 && i < limit
    requires Offset(page, limit) + i < |Ranked(records, where)|
    ensures var a := Answer(records, page, limit, where);
      i < |a.requests| && a.requests[i] == Project(Ranked(records, where)[Offset(page, limit) + i])
  {
    AnswerIsWindow(records, page, limit, where);
  }

  /** A page that starts at a match is one of the `totalPages` pages. */
  lemma PageWithinTotal(records: seq<Record>, page: int, limit: int, where: Filter)
    requires page >= 1 && limit >= 1
    requires Offset(page, limit) < |Ranked(records, where)|
    ensures page <= Answer(records, page, limit, where).totalPages
  {
    OnSomePage(|Ranked(records, where)|, limit, page);
  }

  lemma OnSomePage(total: nat, limit: int, page: int)
    requires page >= 1 && limit >= 1 && Offset(page, limit) < total
    ensures page <= TotalPages(total, limit)
  {
    PagesLeft(total, limit, page - 1);
  }

  /** No two positions hold rows with the same primary key. */
  predicate UniqueIds(s: seq<Record>) {
    forall i, j :: 0 <= i < j < |s| ==> s[i].id != s[j].id
  }

  /** The key `x` does not occur among the rows of `s`. */
  predicate FreshId(x: nat, s: seq<Record>) {
    forall i :: 0 <= i < |s| ==> s[i].id != x
  }

  lemma ConsUniqueIds(y: Record, t: seq<Record>)
    requires UniqueIds(t) && FreshId(y.id, t)
    ensures UniqueIds([y] + t)
  {
    var r := [y] + t;
    forall i, j | 0 <= i < j < |r| ensures r[i].id != r[j].id {
      assert r[j] == t[j - 1];
      if i > 0 {
        assert r[i] == t[i - 1];
      }
    }
  }

  /** A key absent from a sequence is absent from any sequence whose rows all come from it. */
  lemma FreshIdIn(x: nat, s: seq<Record>, t: seq<Record>)
    requires FreshId(x, s)
    requires forall i :: 0 <= i < |t| ==> t[i] in s
    ensures FreshId(x, t)
  {
  }

  lemma {:induction false} SelectUniqueIds(f: Filter, rs: seq<Record>)
    requires UniqueIds(rs)
    ensures UniqueIds(Select(f, rs))
  {
    if rs != [] {
      var rest := rs[1..];
      assert UniqueIds(rest) by {
        forall i, j | 0 <= i < j < |rest| ensures rest[i].id != rest[j].id {
          assert rest[i] == rs[i + 1] && rest[j] == rs[j + 1];
        }
      }
      SelectUniqueIds(f, rest);
      var t := Select(f, rest);
      assert FreshId(rs[0].id, rest) by {
        forall i | 0 <= i < |rest| ensures rest[i].id != rs[0].id {
          assert rest[i] == rs[i + 1];
        }
      }
      forall i | 0 <= i < |t| ensures t[i] in rest {
        assert multiset(t)[t[i]] > 0;
      }
      FreshIdIn(rs[0].id, rest, t);
      if Matches(f, rs[0]) {
        ConsUniqueIds(rs[0], t);
      } else {
        assert Select(f, rs) == [] + t;
      }
    }
  }

  lemma {:induction false} InsertUniqueIds(x: Record, s: seq<Record>)
    requires IsNewestFirst(s) && UniqueIds(s) && FreshId(x.id, s)
    ensures UniqueIds(InsertNewestFirst(x, s))
  {
    if s == [] || s[0].createdAt < x.createdAt {
      ConsUniqueIds(x, s);
    } else {
      var rest := s[1..];
      assert IsNewestFirst(rest) && UniqueIds(rest) && FreshId(x.id, rest);
      InsertUniqueIds(x, rest);
      var t := InsertNewestFirst(x, rest);
      assert FreshId(s[0].id, rest) && s[0].id != x.id;
      assert FreshId(s[0].id, t);
      ConsUniqueIds(s[0], t);
    }
  }

  lemma {:induction false} NewestFirstUniqueIds(rs: seq<Record>)
    requires UniqueIds(rs)
    ensures UniqueIds(NewestFirst(rs))
  {
    if rs != [] {
      var rest := rs[1..];
      assert UniqueIds(rest);
      NewestFirstUniqueIds(rest);
      var t := NewestFirst(rest);
      assert FreshId(rs[0].id, rest);
      forall i | 0 <= i < |t| ensures t[i] in rest {
        assert multiset(t)[t[i]] > 0;
      }
      FreshIdIn(rs[0].id, rest, t);
      InsertUniqueIds(rs[0], t);
    }
  }

  /** No two rows of a page carry the same key when the stored keys are distinct. */
  lemma AnswerUniqueIds(records: seq<Record>, page: int, limit: int, where: Filter)
    requires page >= 1 && limit >= 1 && UniqueIds(records)
    ensures UniqueIds(Answer(records, page, limit, where).requests)
  {
    SelectUniqueIds(where, records);
    NewestFirstUniqueIds(Select(where, records));
    var w := Window(Ranked(records, where), Offset(page, limit), limit);
    WindowUniqueIds(Ranked(records, where), Offset(page, limit), limit);
    ProjectedUniqueIds(w);
  }

  lemma WindowUniqueIds(s: seq<Record>, offset: nat, limit: nat)
    requires UniqueIds(s)
    ensures UniqueIds(Window(s, offset, limit))
  {
    var w := Window(s, offset, limit);
    forall i, j | 0 <= i < j < |w| ensures w[i].id != w[j].id {
      assert w[i] == s[offset + i] && w[j] == s[offset + j];
    }
  }

  lemma ProjectedUniqueIds(s: seq<Record>)
    requires UniqueIds(s)
    ensures UniqueIds(Projected(s))
  {
    var p := Projected(s);
    forall i, j | 0 <= i < j < |p| ensures p[i].id != p[j].id {
      assert p[i] == Project(s[i]) && p[j] == Project(s[j]);
    }
  }

  /** With nothing stored, a query reports no rows, a zero total and zero pages. */
  lemma EmptyLogAnswer(page: int, limit: int, where: Filter)
    requires page >= 1 && limit >= 1
    ensures Answer([], page, limit, where) == HistoryPage([], 0, page, 0, false)
  {
  }

  /** The request history table. */
  class HistoryStore {
    var records: seq<Record>
    /** The next value of the auto-increment primary key. */
    var nextId: nat

    /** Identifiers grow in store order and stay below the next one to assign. */
    ghost predicate Valid()
      reads this
    {
      && (forall i, j :: 0 <= i < j < |records| ==> records[i].id < records[j].id)
      && (forall i :: 0 <= i < |records| ==> records[i].id < nextId)
    }

    constructor ()
      ensures Valid() && records == [] && nextId == 1
    {
      records := [];
      nextId := 1;
    }

    /** `persistAndFlush` of a new row; `storageFails` stands for the database
        refusing the write, which leaves the table as it was. */
    method Insert(e: Entry, storageFails: bool) returns (id: Option<nat>)
      requires Valid()
      modifies this
      ensures Valid()
      ensures storageFails ==> id == None && records == old(records) && nextId == old(nextId)
      ensures !storageFails ==>
                id == Some(old(nextId)) && nextId == old(nextId) + 1 && records == old(records) + [e.WithId(old(nextId))]
    {
      if storageFails {
        return None;
      }
      id := Some(nextId);
      records := records + [e.WithId(nextId)];
      nextId := nextId + 1;
    }

    /** DELETE: `nativeDelete` of every row. The key sequence is not reset. */
    method ClearAll(storageFails: bool) returns (r: Result<bool, ApiError>)
      requires Valid()
      modifies this
      ensures Valid() && nextId == old(nextId)
      ensures storageFails ==> r == Err(ClearHistoryFailed) && records == old(records)
      ensures !storageFails ==> r == Ok(true) && records == []
    {
      if storageFails {
        return Err(ClearHistoryFailed);
      }
      records := [];
      r := Ok(true);
    }

    /** GET: builds the `where` object one condition at a time, then answers
        from the stored records, which it does not change (no `modifies`). A
        storage failure yields the error reply and no partial result. */
    method Query(q: Params, storageFails: bool) returns (r: Result<HistoryPage, ApiError>)
      requires Valid() && ValidParams(q)
      ensures storageFails ==> r == Err(FetchHistoryFailed)
      ensures !storageFails ==> r == Ok(Answer(records, PageOf(q), LimitOf(q), WhereOf(q)))
      ensures r.Ok? ==> |r.value.requests| <= LimitOf(q) && r.value.currentPage == PageOf(q)
      ensures r.Ok? ==> UniqueIds(r.value.requests)
    {
      var page := PageOf(q);
      var limit := LimitOf(q);
      if storageFails {
        return Err(FetchHistoryFailed);
      }
      var where := Filter(None, None, None);
      if q.httpMethod.Some? && q.httpMethod.value != "" {
        where := where.(httpMethod := q.httpMethod);
      }
      if q.status.Some? {
        where := where.(status := q.status);
      }
      if q.search.Some? && q.search.value != "" {
        where := where.(search := q.search);
      }
      var answer := Answer(records, page, limit, where);
      AnswerNewestFirst(records, page, limit, where);
      AnswerUniqueIds(records, page, limit, where);
      r := Ok(answer);
    }
  }
}
