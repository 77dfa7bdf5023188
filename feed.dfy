/** src/app/api/feed/route.ts: the public feed. Published rows, optionally
    of one type, are windowed and ordered by the storage layer, paged, then
    re-ranked by the hot score when the sort is "hot", and marked with the
    reader's votes. Floating-point `Math.pow` is the parameter `pow`. */
module Feed {
  import opened Strings
  import opened Types
  import opened Utils
  import opened Sorting
  import opened ContentStore
  import opened VoteStore

  const DayMs: int := 24 * HourMs
  const MaxLimit: int := 50

  /** The query string after `parseInt`; an absent or empty parameter is
      `None`, and `page` and `limit` are what `parseInt` made of the value
      or of its default ("1", "30"). */
  datatype FeedQuery = FeedQuery(
    sort: Option<string>,
    contentType: Option<string>,
    page: int,
    limit: int,
    topPeriod: Option<string>,
    userId: Option<string>)

  /** A row of the answer, with the hot score and the vote mark the handler
      may add. */
  datatype FeedItem = FeedItem(row: ContentItem, hot_score: Option<real>, user_voted: Option<bool>)

  datatype FeedReply = FeedReply(items: seq<FeedItem>, total: nat, page: int, limit: int, has_more: bool)

  /** `param || fallback` for one optional parameter. */
  function OrDefault(param: Option<string>, fallback: string): (v: string)
    ensures Truthy(param) ==> v == param.value
    ensures !Truthy(param) ==> v == fallback
  {
    if Truthy(param) then param.value else fallback
  }

  function SortOf(q: FeedQuery): string { OrDefault(q.sort, "hot") }
  function TypeOf(q: FeedQuery): string { OrDefault(q.contentType, "all") }
  function PeriodOf(q: FeedQuery): string { OrDefault(q.topPeriod, "today") }

  /** `Math.min(limit, 50)`. */
  function LimitOf(q: FeedQuery): (limit: int)
    ensures limit <= MaxLimit && (limit == q.limit || limit == MaxLimit)
  {
    if q.limit < MaxLimit then q.limit else MaxLimit
  }

  /** `(page - 1) * limit`. */
  function OffsetOf(q: FeedQuery): (offset: int)
    ensures q.page >= 1 && q.limit >= 1 ==> offset >= 0
  {
    var limit := LimitOf(q);
    (q.page - 1) * limit
  }

  /** How far back a sort looks: a day, a week or thirty days for "top",
      everything for "new", three days for "hot" and any unknown sort. */
  function WindowMs(sort: string, period: string): (w: Option<int>)
    ensures sort == "new" <==> w.None?
    ensures sort == "top" && period == "week" ==> w == Some(7 * DayMs)
    ensures sort == "top" && period == "month" ==> w == Some(30 * DayMs)
    ensures sort == "top" && period != "week" && period != "month" ==> w == Some(DayMs)
    ensures sort != "new" && sort != "top" ==> w == Some(3 * DayMs)
  {
    if sort == "new" then None
    else if sort == "top" then
      if period == "week" then Some(7 * DayMs)
      else if period == "month" then Some(30 * DayMs)
      else Some(DayMs)
    else Some(3 * DayMs)
  }

  /** The storage layer's ordering: most votes first for "top", newest
      first otherwise. */
  function OrderKey(sort: string): ContentItem -> real {
    if sort == "top" then (c: ContentItem) => c.vote_count as real
    else (c: ContentItem) => c.created_at as real
  }

  /** The filters of the query: published, the requested type unless "all",
      and the sort's window. */
  predicate Matches(q: FeedQuery, now: Timestamp, c: ContentItem) {
    && c.published
    && (TypeOf(q) == "all" || c.content_type == TypeOf(q))
    && (WindowMs(SortOf(q), PeriodOf(q)).Some? ==> c.created_at >= now - WindowMs(SortOf(q), PeriodOf(q)).value)
  }

  /** `ai_quality_score || 5`: a missing or zero score counts as 5. */
  function AiScoreOr5(score: Option<int>): (s: int)
    ensures score.Some? && score.value != 0 ==> s == score.value
    ensures score.None? || score.value == 0 ==> s == 5
  {
    if score.Some? && score.value != 0 then score.value else 5
  }

  /** `(vote_count + (ai_quality_score || 5)) / (hoursAge + 2)^1.5`. */
  function FeedHotScore(c: ContentItem, now: Timestamp, pow: (real, real) -> PositiveReal): real {
    (c.vote_count + AiScoreOr5(c.ai_quality_score)) as real
      / pow((now - c.created_at) as real / HourMs as real + 2.0, 1.5)
  }

  /** The sort key of a scored item. */
  function ScoreKey(item: FeedItem): real {
    if item.hot_score.Some? then item.hot_score.value else 0.0
  }

  /** Each row with its hot score attached. */
  function Scored(rows: seq<ContentItem>, now: Timestamp, pow: (real, real) -> PositiveReal): (r: seq<FeedItem>)
    ensures |r| == |rows|
    ensures forall i :: 0 <= i < |rows| ==>
      r[i] == FeedItem(rows[i], Some(FeedHotScore(rows[i], now, pow)), None)
    ensures forall x :: x in r ==> x.row in rows
  {
    var r := seq(|rows|, i requires 0 <= i < |rows| => FeedItem(rows[i], Some(FeedHotScore(rows[i], now, pow)), None));
    assert forall i :: 0 <= i < |r| ==> r[i].row == rows[i];
    r
  }

  /** The rows as items without additions. */
  function Plain(rows: seq<ContentItem>): (r: seq<FeedItem>)
    ensures |r| == |rows|
    ensures forall i :: 0 <= i < |rows| ==> r[i] == FeedItem(rows[i], None, None)
  {
    seq(|rows|, i requires 0 <= i < |rows| => FeedItem(rows[i], None, None))
  }

  /** The page re-ranked by hot score: the same scored items, hottest
      first, ties in page order. */
  function HotRanked(page: seq<ContentItem>, now: Timestamp, pow: (real, real) -> PositiveReal): (r: seq<FeedItem>)
    ensures multiset(r) == multiset(Scored(page, now, pow))
    ensures SortedDesc(r, ScoreKey)
    ensures |r| == |page| && forall i :: 0 <= i < |r| ==> r[i].row in page
  {
    var scored := Scored(page, now, pow);
    SortDescSorted(scored, ScoreKey);
    var r := SortDesc(scored, ScoreKey);
    assert forall i :: 0 <= i < |r| ==> r[i] in multiset(scored);
    r
  }

  /** `user_voted: votedIds.has(item.id)` on every item. */
  function MarkVoted(items: seq<FeedItem>, user: UserId, pairs: set<VotePair>): (r: seq<FeedItem>)
    ensures |r| == |items|
    ensures forall i :: 0 <= i < |items| ==>
      r[i].row == items[i].row && r[i].hot_score == items[i].hot_score
      && r[i].user_voted == Some((user, items[i].row.id) in pairs)
  {
    seq(|items|, i requires 0 <= i < |items| => items[i].(user_voted := Some((user, items[i].row.id) in pairs)))
  }

  /** More rows exist after the page exactly when the next page is not
      empty. */
  lemma HasMoreMeansNextPage(selection: seq<ContentItem>, offset: nat, limit: nat)
    requires limit > 0
    ensures |selection| > offset + limit <==> Page(selection, offset + limit, limit) != []
  {
    PageBounds(selection, offset + limit, limit);
  }

  /** The published filter, then the type filter. */
  predicate PublishedOfType(contentType: string, c: ContentItem) {
    c.published && (contentType == "all" || c.content_type == contentType)
  }

  /** The query's filters as one predicate. */
  function MatchesOf(q: FeedQuery, now: Timestamp): ContentItem -> bool {
    c => Matches(q, now, c)
  }

  /** The rows the query selects, in id order: its exact count is `total`. */
  function Selection(q: FeedQuery, now: Timestamp, all: seq<ContentItem>): (r: seq<ContentItem>)
    ensures forall x :: x in r <==> x in all && Matches(q, now, x)
  {
    Where(all, MatchesOf(q, now))
  }

  /** The chained `.eq`/`.gte` calls of the query builder. */
  method Narrow(q: FeedQuery, now: Timestamp, all: seq<ContentItem>) returns (query: seq<ContentItem>)
    ensures query == Selection(q, now, all)
  {
    var contentType := TypeOf(q);
    var window := WindowMs(SortOf(q), PeriodOf(q));
    var isPublished := (c: ContentItem) => c.published;
    var publishedOfType := (c: ContentItem) => PublishedOfType(contentType, c);
    var keepAll := (c: ContentItem) => true;
    query := Where(all, isPublished);
    if contentType != "all" {
      var ofType := (c: ContentItem) => c.content_type == contentType;
      WhereWhere(all, isPublished, ofType, publishedOfType);
      query := Where(query, ofType);
    } else {
      WhereWhere(all, isPublished, keepAll, publishedOfType);
      WhereAll(query, keepAll);
    }
    if window.Some? {
      var recent := (c: ContentItem) => c.created_at >= now - window.value;
      WhereWhere(all, publishedOfType, recent, MatchesOf(q, now));
      query := Where(query, recent);
    } else {
      WhereWhere(all, publishedOfType, keepAll, MatchesOf(q, now));
      WhereAll(query, keepAll);
    }
  }

  /** The rows of the requested page before any re-ranking. */
  function PageRows(q: FeedQuery, now: Timestamp, all: seq<ContentItem>): (r: seq<ContentItem>)
    requires q.page >= 1 && q.limit >= 1
    ensures |r| <= LimitOf(q)
    ensures forall x :: x in r ==> x in all && Matches(q, now, x)
  {
    var ordered := OrderDesc(Selection(q, now, all), OrderKey(SortOf(q)));
    var r := Page(ordered, OffsetOf(q), LimitOf(q));
    assert forall x :: x in r ==> x in multiset(ordered);
    r
  }

  /** `GET /api/feed`. `page` and `limit` must have parsed to positive
      numbers. */
  method GetFeed(q: FeedQuery, now: Timestamp, pow: (real, real) -> PositiveReal,
                 content: ContentTable, votes: PairTable)
    returns (reply: FeedReply)
    requires content.Valid()
    requires q.page >= 1 && q.limit >= 1
    ensures reply.page == q.page && reply.limit == LimitOf(q)
    ensures |reply.items| <= reply.limit <= MaxLimit
    ensures reply.total == |Selection(q, now, content.Ordered())|
    ensures reply.has_more <==> reply.total > OffsetOf(q) + LimitOf(q)
    ensures forall i :: 0 <= i < |reply.items| ==>
      reply.items[i].row in content.rows.Values && Matches(q, now, reply.items[i].row)
    ensures
      var page := PageRows(q, now, content.Ordered());
      var ranked := if SortOf(q) == "hot" then HotRanked(page, now, pow) else Plain(page);
      reply.items == (if Truthy(q.userId) then MarkVoted(ranked, q.userId.value, votes.pairs) else ranked)
  {
    var limit := LimitOf(q);
    var offset := OffsetOf(q);
    var all := content.Ordered();
    var query := Narrow(q, now, all);
    var count := |query|;
    query := OrderDesc(query, OrderKey(SortOf(q)));
    var page := Page(query, offset, limit);
    assert page == PageRows(q, now, all);
    var items := Plain(page);
    if SortOf(q) == "hot" {
      items := HotRanked(page, now, pow);
    }
    if Truthy(q.userId) {
      items := MarkVoted(items, q.userId.value, votes.pairs);
    }
    reply := FeedReply(items, count, q.page, limit, count > offset + limit);
  }
}
