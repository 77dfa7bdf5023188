/** src/app/api/admin/stats/route.ts: the counts behind the moderation
    dashboard. */
module AdminStats {
  import opened Strings
  import opened Types
  import opened ContentStore
  import opened AdminContent

  /** The four counting queries the handler issues together. */
  datatype Counter = ReviewCount | UnpublishedCount | PublishedCount | AllCount

  datatype Stats = Stats(review: nat, unpublished: nat, published: nat, all: nat)

  function InQueue(status: string): ContentItem -> bool {
    c => StatusMatches(status, c)
  }

  /** `count || 0`: a query that failed reports no count, shown as zero. */
  function CountOrZero(counter: Counter, failed: set<Counter>, rows: seq<ContentItem>, p: ContentItem -> bool): (n: nat)
    ensures counter in failed ==> n == 0
    ensures counter !in failed ==> n == |Where(rows, p)|
  {
    CountIsFilteredLength(rows, p);
    if counter in failed then 0 else CountWhere(rows, p)
  }

  /** `GET`: the size of each queue and of the whole table. `failed` names
      the counting queries whose result carried no count. */
  function GetStats(authorization: Option<string>, secret: Option<string>, rows: seq<ContentItem>, failed: set<Counter>)
    : (response: Response<Stats>)
    ensures !BearerMatches(authorization, secret) <==> response == Fail(401, "Unauthorized")
    ensures response.Ok? ==>
      && response.body.review == (if ReviewCount in failed then 0 else |Where(rows, InQueue("review"))|)
      && response.body.unpublished == (if UnpublishedCount in failed then 0 else |Where(rows, InQueue("unpublished"))|)
      && response.body.published == (if PublishedCount in failed then 0 else |Where(rows, InQueue("published"))|)
      && response.body.all == (if AllCount in failed then 0 else |rows|)
  {
    if !BearerMatches(authorization, secret) then Fail(401, "Unauthorized")
    else
      Ok(Stats(
        CountOrZero(ReviewCount, failed, rows, InQueue("review")),
        CountOrZero(UnpublishedCount, failed, rows, InQueue("unpublished")),
        CountOrZero(PublishedCount, failed, rows, InQueue("published")),
        if AllCount in failed then 0 else |rows|))
  }

  /** The three queues partition the table, so their counts add up to the
      total. */
  lemma {:induction false} QueueCountsAddUp(rows: seq<ContentItem>)
    ensures CountWhere(rows, InQueue("review")) + CountWhere(rows, InQueue("unpublished"))
            + CountWhere(rows, InQueue("published")) == |rows|
  {
    if rows != [] {
      StatusesPartition(rows[0]);
      QueueCountsAddUp(rows[1..]);
    }
  }

  /** When every count succeeds the dashboard's three queues sum to `all`. */
  lemma StatsAddUp(authorization: Option<string>, secret: Option<string>, rows: seq<ContentItem>)
    requires BearerMatches(authorization, secret)
    ensures var r := GetStats(authorization, secret, rows, {});
      r.Ok? && r.body.review + r.body.unpublished + r.body.published == r.body.all
  {
    QueueCountsAddUp(rows);
    CountIsFilteredLength(rows, InQueue("review"));
    CountIsFilteredLength(rows, InQueue("unpublished"));
    CountIsFilteredLength(rows, InQueue("published"));
  }

  /** The review count is the total of the queue listing for status
      "review" and type "all". */
  lemma ReviewCountIsQueueTotal(rows: seq<ContentItem>, q: AdminQuery)
    requires q.status == Some("review") && q.contentType.None?
    ensures Where(rows, InQueue("review")) == Queue(q, rows)
  {
    var keepAll := (c: ContentItem) => true;
    WhereWhere(rows, InQueue("review"), keepAll, ListedOf(q));
    WhereAll(Where(rows, InQueue("review")), keepAll);
  }
}
