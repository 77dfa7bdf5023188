/** The records of src/lib/types.ts. Timestamps are integer milliseconds
    since the epoch; content and comment ids are naturals handed out by the
    table that stores them; user ids are strings. `content_type` is kept as
    the string the database holds, so that tags outside the three known ones
    can be represented. */
module Types {
  import opened Strings

  type Id = nat
  type UserId = string
  type Timestamp = int

  const ArticleType: string := "article"
  const VideoType: string := "video"
  const PodcastType: string := "podcast"

  /** A stored content row (`ContentItem`). */
  datatype ContentItem = ContentItem(
    id: Id,
    url: string,
    headline: string,
    summary: Option<string>,
    source_name: string,
    author: Option<string>,
    content_type: string,
    thumbnail_url: Option<string>,
    ai_quality_score: Option<int>,
    ai_score_reason: Option<string>,
    vote_count: int,
    comment_count: int,
    is_user_submitted: bool,
    submitted_by: Option<UserId>,
    published: bool,
    needs_review: bool,
    source_published_at: Option<string>,
    created_at: Timestamp,
    updated_at: Timestamp)

  /** A stored comment row (`Comment`, without the joined profile and the
      `replies` that a reader route attaches). */
  datatype Comment = Comment(
    id: Id,
    content_id: Id,
    user_id: UserId,
    parent_id: Option<Id>,
    body: string,
    vote_count: int,
    created_at: Timestamp,
    updated_at: Timestamp)

  /** A row of the profiles table (`UserProfile`). */
  datatype UserProfile = UserProfile(
    id: UserId,
    username: string,
    avatar_url: Option<string>,
    karma: int,
    created_at: Timestamp)

  /** A crawl source (`Source`); `config` is the JSON object of
      strategy-specific settings, reduced to its string-valued entries. */
  datatype Source = Source(
    id: string,
    name: string,
    url: string,
    crawl_type: string,
    content_type: string,
    tier: int,
    crawl_interval_minutes: int,
    last_crawled_at: Option<Timestamp>,
    is_active: bool,
    config: Option<map<string, string>>)

  /** One crawl-log row (`CrawlLog`; its id is assigned by the database). */
  datatype CrawlLog = CrawlLog(
    source_id: string,
    items_found: nat,
    items_new: nat,
    items_published: nat,
    errors: Option<string>,
    started_at: Timestamp,
    completed_at: Option<Timestamp>)

  /** The classifier's answer after post-processing (`AIResponse`). */
  datatype AIResponse = AIResponse(summary: string, score: int, reason: string)

  /** What a route handler answers: a JSON body with status 200, or an
      error status with the `error` message. */
  datatype Response<T> = Ok(body: T) | Fail(status: int, error: string)

  /** JavaScript truthiness of an optional string: absent and "" are falsy. */
  predicate Truthy(o: Option<string>) {
    o.Some? && o.value != ""
  }

  predicate NoneTruthyBefore(opts: seq<Option<string>>, i: nat)
    requires i <= |opts|
  {
    forall j :: 0 <= j < i ==> !Truthy(opts[j])
  }

  /** `a || b || ... || null`: the first truthy option, or none. */
  function FirstTruthy(opts: seq<Option<string>>): (r: Option<string>)
    ensures r.Some? ==> r.value != "" && (exists i :: 0 <= i < |opts| && opts[i] == r && NoneTruthyBefore(opts, i))
    ensures r.None? <==> forall i :: 0 <= i < |opts| ==> !Truthy(opts[i])
  {
    if opts == [] then None
    else if Truthy(opts[0]) then opts[0]
    else
      var r := FirstTruthy(opts[1..]);
      assert forall i :: 1 <= i < |opts| ==> opts[i] == opts[1..][i - 1];
      if r.Some? then
        var i :| 0 <= i < |opts[1..]| && opts[1..][i] == r && NoneTruthyBefore(opts[1..], i);
        assert opts[i + 1] == r && NoneTruthyBefore(opts, i + 1);
        r
      else r
  }

  /** `a || b || ... || fallback` for a string fallback. */
  function FirstTruthyOr(opts: seq<Option<string>>, fallback: string): (r: string)
  {
    match FirstTruthy(opts)
    case Some(v) => v
    case None => fallback
  }

  /** The header check shared by the cron and admin handlers: the header must
      equal "Bearer " followed by the secret; an unset secret is rendered
      by the template literal as "undefined". */
  predicate BearerMatches(header: Option<string>, secret: Option<string>) {
    header == Some("Bearer " + (if secret.Some? then secret.value else "undefined"))
  }
}
