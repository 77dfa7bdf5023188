/** src/app/api/cron/crawl/route.ts: the ingestion run. For every active
    source that is due, crawl it, skip malformed and already stored
    candidates, curate the rest, insert them with the publication policy,
    stamp the source and write a crawl-log row. */
module CronCrawl {
  import opened Strings
  import opened Types
  import opened Crawler
  import opened Curator
  import opened ContentStore

  const MinuteMs: int := 60 * 1000

  /** How a content insert ends: stored, refused with an error object, or
      the client call throws with a message. */
  datatype WriteOutcome = Written | WriteError(message: string) | WriteThrew(message: string)

  /** Everything the run consults outside the tables: the adapters'
      fetches, the classifier and `JSON.parse`, and the storage layer's
      verdict on each insert (by URL). */
  datatype CronEnv = CronEnv(
    crawl: CrawlEnv,
    classify: CurationRequest -> ClassifierReply,
    parseJson: string -> Option<ParsedReply>,
    insertOutcome: string -> WriteOutcome)

  /** One entry of the run's `results`: the source's name and its log. */
  datatype CrawlResult = CrawlResult(source: string, log: CrawlLog)

  datatype CrawlSummary = CrawlSummary(success: bool, sources_processed: nat, results: seq<CrawlResult>)

  /** A source is due unless it was crawled less than its interval ago; a
      source never crawled is always due. */
  predicate IsDue(source: Source, now: Timestamp) {
    match source.last_crawled_at
    case None => true
    case Some(last) => !(now - last < source.crawl_interval_minutes * MinuteMs)
  }

  /** The ingestion policy: published at score 5 and above. */
  predicate CrawlPublished(score: int) {
    score >= 5
  }

  /** The ingestion policy: flagged for review at scores 5 to 7. */
  predicate CrawlNeedsReview(score: int) {
    score >= 5 && score <= 7
  }

  /** Under the ingestion policy every flagged item is also published, an
      item scoring 8 or more is published unflagged, and below 5 it is
      hidden. */
  lemma CrawlPolicyBands(score: int)
    ensures CrawlNeedsReview(score) ==> CrawlPublished(score)
    ensures score >= 8 ==> CrawlPublished(score) && !CrawlNeedsReview(score)
    ensures score < 5 ==> !CrawlPublished(score) && !CrawlNeedsReview(score)
  {
  }

  /** The row inserted for a curated candidate. */
  function CrawlDraft(item: CrawledItem, ai: AIResponse, now: Timestamp): (row: ContentItem)
    ensures row.url == item.url && row.headline == item.headline
    ensures row.summary == Some(ai.summary) && row.ai_quality_score == Some(ai.score)
    ensures row.published == CrawlPublished(ai.score) && row.needs_review == CrawlNeedsReview(ai.score)
    ensures !row.is_user_submitted && row.submitted_by.None? && row.vote_count == 0
  {
    ContentItem(
      id := 0,
      url := item.url,
      headline := item.headline,
      summary := Some(ai.summary),
      source_name := item.source_name,
      author := item.author,
      content_type := item.content_type,
      thumbnail_url := item.thumbnail_url,
      ai_quality_score := Some(ai.score),
      ai_score_reason := Some(ai.reason),
      vote_count := 0,
      comment_count := 0,
      is_user_submitted := false,
      submitted_by := None,
      published := CrawlPublished(ai.score),
      needs_review := CrawlNeedsReview(ai.score),
      source_published_at := item.source_published_at,
      created_at := now,
      updated_at := now)
  }

  /** A row the run inserted: a well-formed candidate stored under the
      ingestion policy with a score in range. */
  predicate CrawledRow(row: ContentItem) {
    && row.url != "" && row.headline != ""
    && row.ai_quality_score.Some? && 1 <= row.ai_quality_score.value <= 10
    && row.published == CrawlPublished(row.ai_quality_score.value)
    && row.needs_review == CrawlNeedsReview(row.ai_quality_score.value)
    && !row.is_user_submitted
  }

  /** The `sources` rows with `is_active`, in table order. */
  function ActiveSources(rows: seq<Source>): (r: seq<Source>)
    ensures forall s :: s in r <==> s in rows && s.is_active
  {
    if rows == [] then []
    else if rows[0].is_active then [rows[0]] + ActiveSources(rows[1..])
    else ActiveSources(rows[1..])
  }

  /** The active sources the run processes, in order. */
  function DueSources(active: seq<Source>, now: Timestamp): (r: seq<Source>)
    ensures forall s :: s in r <==> s in active && IsDue(s, now)
    ensures |r| <= |active|
  {
    if active == [] then []
    else if IsDue(active[0], now) then [active[0]] + DueSources(active[1..], now)
    else DueSources(active[1..], now)
  }

  /** The `sources` rows after `update({last_crawled_at: now}).eq('id', id)`. */
  function StampId(rows: seq<Source>, id: string, now: Timestamp): (r: seq<Source>)
    ensures |r| == |rows|
    ensures forall i :: 0 <= i < |rows| ==>
      r[i] == (if rows[i].id == id then rows[i].(last_crawled_at := Some(now)) else rows[i])
  {
    seq(|rows|, i requires 0 <= i < |rows| =>
      if rows[i].id == id then rows[i].(last_crawled_at := Some(now)) else rows[i])
  }

  /** The `sources` rows after each of `done` has been stamped in turn. */
  function StampedBy(rows: seq<Source>, done: seq<Source>, now: Timestamp): (r: seq<Source>)
    ensures |r| == |rows|
  {
    if done == [] then rows
    else StampId(StampedBy(rows, done[..|done| - 1], now), done[|done| - 1].id, now)
  }

  /** After a run, exactly the rows that share an id with a processed
      source carry `now` as their last crawl time; the rest are as they
      were. */
  lemma {:induction false} StampedByMeaning(rows: seq<Source>, done: seq<Source>, now: Timestamp)
    ensures forall i :: 0 <= i < |rows| ==>
      StampedBy(rows, done, now)[i]
        == (if rows[i].id in IdsOf(done) then rows[i].(last_crawled_at := Some(now)) else rows[i])
  {
    if done != [] {
      StampedByMeaning(rows, done[..|done| - 1], now);
    }
  }

  /** A source stamped by a run is not due again until its interval has
      passed (for a positive interval). */
  lemma StampedSourceNotDue(s: Source, now: Timestamp, later: Timestamp)
    requires now <= later < now + s.crawl_interval_minutes * MinuteMs
    ensures !IsDue(s.(last_crawled_at := Some(now)), later)
  {
  }

  /** The `sources` table. */
  class SourceTable {
    var rows: seq<Source>

    constructor (initial: seq<Source>)
      ensures rows == initial
    {
      rows := initial;
    }

    /** `update({last_crawled_at: now}).eq('id', id)`. */
    method Stamp(id: string, now: Timestamp)
      modifies this
      ensures rows == StampId(old(rows), id, now)
    {
      rows := StampId(rows, id, now);
    }
  }

  /** The `crawl_log` table: rows are only ever appended. */
  class CrawlLogTable {
    var entries: seq<CrawlLog>

    constructor ()
      ensures entries == []
    {
      entries := [];
    }

    method Append(entry: CrawlLog)
      modifies this
      ensures entries == old(entries) + [entry]
    {
      entries := entries + [entry];
    }
  }

  /** The row a curated candidate is inserted as, before the database
      assigns its id. */
  function DraftOf(item: CrawledItem, now: Timestamp, env: CronEnv): ContentItem {
    CrawlDraft(item, CurateContent(item.headline, item.source_name, item.content, env.classify, env.parseJson), now)
  }

  /** `DraftOf` at the run's clock and environment, as a function of the
      candidate. */
  function Drafter(now: Timestamp, env: CronEnv): CrawledItem -> ContentItem {
    item => DraftOf(item, now, env)
  }

  /** What the candidate loop of one source does: the candidates handed to
      the classifier, those whose insert wrote a row (in order), and the
      message of a throwing insert, which ends the loop. */
  datatype Ingest = Ingest(curated: seq<CrawledItem>, written: seq<CrawledItem>, error: Option<string>)

  /** The candidate loop over `items` when the table holds the URLs
      `stored`: a candidate without URL or headline, or whose URL is
      stored, is skipped; any other is curated and inserted, and a written
      candidate's URL is stored from then on. */
  function Ingested(items: seq<CrawledItem>, stored: set<string>, env: CronEnv): Ingest
    decreases |items|
  {
    if items == [] then Ingest([], [], None)
    else
      var item := items[0];
      if item.url == "" || item.headline == "" || item.url in stored then Ingested(items[1..], stored, env)
      else
        match env.insertOutcome(item.url)
        case WriteThrew(message) => Ingest([item], [], Some(message))
        case WriteError(_) =>
          var rest := Ingested(items[1..], stored, env);
          rest.(curated := [item] + rest.curated)
        case Written =>
          var rest := Ingested(items[1..], stored + {item.url}, env);
          Ingest([item] + rest.curated, [item] + rest.written, rest.error)
  }

  /** The curated candidates whose insert writes, in order. */
  function WrittenOf(curated: seq<CrawledItem>, env: CronEnv): (r: seq<CrawledItem>)
    ensures |r| <= |curated|
  {
    if curated == [] then []
    else (if env.insertOutcome(curated[0].url).Written? then [curated[0]] else []) + WrittenOf(curated[1..], env)
  }

  /** How many of the drafts of `written` are published (the log's
      `items_published`). */
  function PublishedCount(written: seq<CrawledItem>, draft: CrawledItem -> ContentItem): (n: nat)
    ensures n <= |written|
  {
    if written == [] then 0
    else PublishedCount(written[..|written| - 1], draft) + (if draft(written[|written| - 1]).published then 1 else 0)
  }

  /** The URLs of `items`. */
  function UrlsOf(items: seq<CrawledItem>): set<string> {
    set c | c in items :: c.url
  }

  /** The table after the drafts of `written` are inserted in order from
      id `next` on: the `k`-th gets id `next + k`. */
  function Numbered(rows: map<Id, ContentItem>, written: seq<CrawledItem>, next: Id,
                    draft: CrawledItem -> ContentItem): map<Id, ContentItem>
  {
    if written == [] then rows
    else
      var n := |written| - 1;
      Numbered(rows, written[..n], next, draft)[next + n := draft(written[n]).(id := next + n)]
  }

  /** The loop's view of `NumberedSnoc`: a table that is `Numbered` and
      gains the next draft is `Numbered` with one more candidate. */
  lemma NumberedStep(rows0: map<Id, ContentItem>, written: seq<CrawledItem>, item: CrawledItem, next0: Id,
                     draft: CrawledItem -> ContentItem, rows: map<Id, ContentItem>, id: Id, row: ContentItem,
                     after: map<Id, ContentItem>)
    requires rows == Numbered(rows0, written, next0, draft)
    requires id == next0 + |written| && row == draft(item).(id := id)
    requires after == rows[id := row]
    ensures after == Numbered(rows0, written + [item], next0, draft)
    ensures PublishedCount(written + [item], draft)
         == PublishedCount(written, draft) + (if draft(item).published then 1 else 0)
  {
    NumberedSnoc(rows0, written, item, next0, draft);
  }

  /** One more written candidate: its draft gets the next id, and counts
      if it is published. */
  lemma NumberedSnoc(rows: map<Id, ContentItem>, written: seq<CrawledItem>, item: CrawledItem, next: Id,
                     draft: CrawledItem -> ContentItem)
    ensures Numbered(rows, written + [item], next, draft)
         == Numbered(rows, written, next, draft)[next + |written| := draft(item).(id := next + |written|)]
    ensures PublishedCount(written + [item], draft)
         == PublishedCount(written, draft) + (if draft(item).published then 1 else 0)
  {
    assert (written + [item])[..|written|] == written;
  }

  /** One step of the candidate loop, at position `i`. */
  lemma IngestedAt(items: seq<CrawledItem>, i: nat, stored: set<string>, env: CronEnv)
    requires i < |items|
    ensures var item := items[i];
      var r := Ingested(items[i..], stored, env);
      && (item.url == "" || item.headline == "" || item.url in stored ==>
            r == Ingested(items[i + 1..], stored, env))
      && (item.url != "" && item.headline != "" && item.url !in stored ==>
            match env.insertOutcome(item.url)
            case WriteThrew(message) => r == Ingest([item], [], Some(message))
            case WriteError(_) =>
              var rest := Ingested(items[i + 1..], stored, env);
              r == rest.(curated := [item] + rest.curated)
            case Written =>
              var rest := Ingested(items[i + 1..], stored + {item.url}, env);
              r == Ingest([item] + rest.curated, [item] + rest.written, rest.error))
  {
    assert items[i..][0] == items[i];
    assert items[i..][1..] == items[i + 1..];
  }

  /** The loop writes exactly the curated candidates whose insert succeeds,
      so `items_new` counts the successful inserts. */
  lemma {:induction false} IngestedWritesSuccesses(items: seq<CrawledItem>, stored: set<string>, env: CronEnv)
    ensures Ingested(items, stored, env).written == WrittenOf(Ingested(items, stored, env).curated, env)
    decreases |items|
  {
    if items != [] {
      var item := items[0];
      if item.url == "" || item.headline == "" || item.url in stored {
        IngestedWritesSuccesses(items[1..], stored, env);
      } else {
        match env.insertOutcome(item.url)
        case WriteThrew(_) =>
          assert WrittenOf([item], env) == [] + WrittenOf([item][1..], env);
        case WriteError(_) =>
          var rest := Ingested(items[1..], stored, env);
          IngestedWritesSuccesses(items[1..], stored, env);
          assert ([item] + rest.curated)[1..] == rest.curated;
        case Written =>
          var rest := Ingested(items[1..], stored + {item.url}, env);
          IngestedWritesSuccesses(items[1..], stored + {item.url}, env);
          assert ([item] + rest.curated)[1..] == rest.curated;
      }
    }
  }

  /** Every curated candidate is a well-formed candidate of the crawl whose
      URL was not stored, every written one was curated, and a throw comes
      from a curated candidate's insert. */
  lemma {:induction false} IngestedCurated(items: seq<CrawledItem>, stored: set<string>, env: CronEnv)
    ensures var r := Ingested(items, stored, env);
      && |r.written| <= |r.curated| <= |items|
      && (forall c :: c in r.curated ==> c in items && c.url != "" && c.headline != "" && c.url !in stored)
      && (forall c :: c in r.written ==> c in r.curated)
      && (r.error.Some? ==> exists c :: c in r.curated && env.insertOutcome(c.url) == WriteThrew(r.error.value))
    decreases |items|
  {
    if items != [] {
      var item := items[0];
      assert forall c :: c in items[1..] ==> c in items;
      if item.url == "" || item.headline == "" || item.url in stored {
        IngestedCurated(items[1..], stored, env);
      } else {
        match env.insertOutcome(item.url)
        case WriteThrew(_) =>
          assert item in [item];
        case WriteError(_) =>
          IngestedCurated(items[1..], stored, env);
          var rest := Ingested(items[1..], stored, env);
          assert forall c :: c in [item] + rest.curated ==> c == item || c in rest.curated;
        case Written =>
          IngestedCurated(items[1..], stored + {item.url}, env);
          var rest := Ingested(items[1..], stored + {item.url}, env);
          assert forall c :: c in [item] + rest.curated ==> c == item || c in rest.curated;
          assert forall c :: c in [item] + rest.written ==> c == item || c in rest.written;
      }
    }
  }

  /** No well-formed new candidate is lost: unless an insert throws, every
      candidate with a URL and a headline whose URL was not stored is
      curated, or shares its URL with a curated one. */
  lemma {:induction false} IngestedCoversNew(items: seq<CrawledItem>, stored: set<string>, env: CronEnv)
    ensures var r := Ingested(items, stored, env);
      r.error.None? ==>
        forall c :: c in items && c.url != "" && c.headline != "" && c.url !in stored ==>
          exists d :: d in r.curated && d.url == c.url
    decreases |items|
  {
    var r := Ingested(items, stored, env);
    if items != [] && r.error.None? {
      var item := items[0];
      assert forall c :: c in items ==> c == item || c in items[1..];
      if item.url == "" || item.headline == "" || item.url in stored {
        IngestedCoversNew(items[1..], stored, env);
      } else {
        assert item in r.curated;
        match env.insertOutcome(item.url)
        case WriteThrew(_) =>
        case WriteError(_) =>
          IngestedCoversNew(items[1..], stored, env);
          var rest := Ingested(items[1..], stored, env);
          assert forall d :: d in rest.curated ==> d in r.curated;
        case Written =>
          IngestedCoversNew(items[1..], stored + {item.url}, env);
          var rest := Ingested(items[1..], stored + {item.url}, env);
          assert forall d :: d in rest.curated ==> d in r.curated;
      }
    }
  }

  /** No candidate of `w` has a URL of `stored`, and no two share a URL. */
  predicate FreshUrls(w: seq<CrawledItem>, stored: set<string>) {
    && (forall k :: 0 <= k < |w| ==> w[k].url !in stored)
    && (forall j, k :: 0 <= j < k < |w| ==> w[j].url != w[k].url)
  }

  /** The loop never writes a stored URL, nor one URL twice. */
  lemma {:induction false} IngestedUrlsFresh(items: seq<CrawledItem>, stored: set<string>, env: CronEnv)
    ensures FreshUrls(Ingested(items, stored, env).written, stored)
    decreases |items|
  {
    if items != [] {
      var item := items[0];
      if item.url == "" || item.headline == "" || item.url in stored {
        IngestedUrlsFresh(items[1..], stored, env);
      } else {
        match env.insertOutcome(item.url)
        case WriteThrew(_) =>
        case WriteError(_) =>
          IngestedUrlsFresh(items[1..], stored, env);
        case Written =>
          IngestedUrlsFresh(items[1..], stored + {item.url}, env);
          var rest := Ingested(items[1..], stored + {item.url}, env).written;
          var w := [item] + rest;
          assert forall k :: 1 <= k < |w| ==> w[k] == rest[k - 1];
      }
    }
  }

  /** The draft of a candidate with a URL and a headline is a crawled row,
      under any id. */
  lemma DraftIsCrawled(item: CrawledItem, now: Timestamp, env: CronEnv, id: Id)
    requires item.url != "" && item.headline != ""
    ensures CrawledRow(DraftOf(item, now, env).(id := id))
  {
    var ai := CurateContent(item.headline, item.source_name, item.content, env.classify, env.parseJson);
    assert 1 <= ai.score <= 10;
  }

  /** `after` keeps every row of `rows` and adds exactly the drafts of
      `written`, numbered from `next` on. */
  predicate AddsNumbered(rows: map<Id, ContentItem>, after: map<Id, ContentItem>, written: seq<CrawledItem>,
                         next: Id, draft: CrawledItem -> ContentItem) {
    && (forall id :: id in rows ==> id in after && after[id] == rows[id])
    && (forall id :: id in after && id !in rows ==>
          next <= id < next + |written| && after[id] == draft(written[id - next]).(id := id))
    && (forall id :: next <= id < next + |written| ==> id in after)
  }

  /** Inserting `written` from a fresh id on keeps every old row and adds
      exactly the numbered drafts. */
  lemma NumberedAdds(rows: map<Id, ContentItem>, written: seq<CrawledItem>, next: Id,
                     draft: CrawledItem -> ContentItem)
    requires forall id :: id in rows ==> id < next
    ensures AddsNumbered(rows, Numbered(rows, written, next, draft), written, next, draft)
  {
    NumberedKeys(rows, written, next, draft);
    forall id | id in rows || next <= id < next + |written| {
      NumberedAt(rows, written, next, draft, id);
    }
  }

  /** The row under one id after inserting `written`: the old row, or the
      draft numbered with that id. */
  lemma {:induction false} NumberedAt(rows: map<Id, ContentItem>, written: seq<CrawledItem>, next: Id,
                                      draft: CrawledItem -> ContentItem, id: Id)
    requires forall id :: id in rows ==> id < next
    ensures id in rows ==> id in Numbered(rows, written, next, draft) && Numbered(rows, written, next, draft)[id] == rows[id]
    ensures next <= id < next + |written| ==>
      id in Numbered(rows, written, next, draft)
      && Numbered(rows, written, next, draft)[id] == draft(written[id - next]).(id := id)
    decreases |written|
  {
    if written != [] {
      var n := |written| - 1;
      var w := written[..n];
      NumberedAt(rows, w, next, draft, id);
      if next <= id < next + n {
        assert w[id - next] == written[id - next];
      }
    }
  }

  /** The table's URLs grow by those of the inserted drafts, when a draft
      keeps its candidate's URL. */
  lemma {:induction false} NumberedUrls(rows: map<Id, ContentItem>, written: seq<CrawledItem>, next: Id,
                                        draft: CrawledItem -> ContentItem)
    requires forall id :: id in rows ==> id < next
    requires forall c :: draft(c).url == c.url
    ensures StoredUrls(Numbered(rows, written, next, draft)) == StoredUrls(rows) + UrlsOf(written)
    decreases |written|
  {
    if written == [] {
      assert UrlsOf(written) == {};
    } else {
      var n := |written| - 1;
      NumberedUrls(rows, written[..n], next, draft);
      NumberedUrlsStep(rows, written, next, draft);
    }
  }

  /** The ids of the table after inserting `written`: the old ones and
      those numbered from `next` on. */
  lemma {:induction false} NumberedKeys(rows: map<Id, ContentItem>, written: seq<CrawledItem>, next: Id,
                                        draft: CrawledItem -> ContentItem)
    ensures forall id :: id in Numbered(rows, written, next, draft) <==> id in rows || next <= id < next + |written|
    decreases |written|
  {
    if written != [] {
      NumberedKeys(rows, written[..|written| - 1], next, draft);
    }
  }

  /** The last inserted draft adds its URL. */
  lemma NumberedUrlsStep(rows: map<Id, ContentItem>, written: seq<CrawledItem>, next: Id,
                         draft: CrawledItem -> ContentItem)
    requires written != [] && forall id :: id in rows ==> id < next
    requires draft(written[|written| - 1]).url == written[|written| - 1].url
    requires var w := written[..|written| - 1];
      StoredUrls(Numbered(rows, w, next, draft)) == StoredUrls(rows) + UrlsOf(w)
    ensures StoredUrls(Numbered(rows, written, next, draft)) == StoredUrls(rows) + UrlsOf(written)
  {
    var n := |written| - 1;
    var w := written[..n];
    var before := Numbered(rows, w, next, draft);
    NumberedKeys(rows, w, next, draft);
    var row := draft(written[n]).(id := next + n);
    assert Numbered(rows, written, next, draft) == before[next + n := row];
    StoredUrlsInsert(before, next + n, row);
    UrlsOfLast(written);
    UnionSnoc(StoredUrls(Numbered(rows, written, next, draft)), StoredUrls(before), StoredUrls(rows),
              UrlsOf(w), UrlsOf(written), written[n].url);
  }

  lemma UnionSnoc(after: set<string>, before: set<string>, rows: set<string>, w: set<string>, written: set<string>,
                  u: string)
    requires after == before + {u} && before == rows + w && written == w + {u}
    ensures after == rows + written
  {
  }

  lemma UrlsOfLast(items: seq<CrawledItem>)
    requires items != []
    ensures UrlsOf(items) == UrlsOf(items[..|items| - 1]) + {items[|items| - 1].url}
  {
    var n := |items| - 1;
    assert items == items[..n] + [items[n]];
  }

  /** Every draft keeps its candidate's URL. */
  lemma DrafterKeepsUrls(now: Timestamp, env: CronEnv)
    ensures forall c :: Drafter(now, env)(c).url == c.url
  {
    forall c ensures Drafter(now, env)(c).url == c.url {
      assert Drafter(now, env)(c) == DraftOf(c, now, env);
    }
  }

  /** Steps 3 to 5 for one new candidate: curate it, decide its flags and
      write it. `outcome` is what the write did. */
  method StoreCandidate(item: CrawledItem, now: Timestamp, env: CronEnv, content: ContentTable)
    returns (outcome: WriteOutcome, added: bool, published: bool)
    requires content.Valid()
    requires item.url != "" && item.headline != "" && !content.HasUrl(item.url)
    modifies content
    ensures content.Valid()
    ensures outcome == env.insertOutcome(item.url)
    ensures added <==> outcome.Written?
    ensures published ==> added
    ensures !added ==> content.rows == old(content.rows) && content.nextId == old(content.nextId)
    ensures added ==>
      && content.nextId == old(content.nextId) + 1
      && old(content.nextId) !in old(content.rows)
      && var row := DraftOf(item, now, env).(id := old(content.nextId));
         && content.rows == old(content.rows)[old(content.nextId) := row]
         && CrawledRow(row) && row.url == item.url && published == row.published
  {
    var ai := CurateContent(item.headline, item.source_name, item.content, env.classify, env.parseJson);
    var draft := CrawlDraft(item, ai, now);
    outcome := env.insertOutcome(item.url);
    added, published := false, false;
    if outcome.Written? {
      var row := content.Insert(draft);
      added := true;
      published := draft.published;
    }
  }

  /** The log a due source gets when the table holds the URLs `stored`. */
  function SourceLog(source: Source, stored: set<string>, now: Timestamp, env: CronEnv): CrawlLog {
    var items := CrawlSource(source, env.crawl);
    var run := Ingested(items, stored, env);
    CrawlLog(source.id, |items|, |run.written|, PublishedCount(run.written, Drafter(now, env)), run.error, now, Some(now))
  }

  /** Partway through the candidate loop, at position `i`: what the whole
      loop does is what has been done, followed by what the rest of the
      candidates do against the table as it now is. */
  predicate Midway(items: seq<CrawledItem>, i: nat, rows: map<Id, ContentItem>, total: Ingest,
                   curated: seq<CrawledItem>, written: seq<CrawledItem>, env: CronEnv)
    requires i <= |items|
  {
    var rest := Ingested(items[i..], StoredUrls(rows), env);
    total.curated == curated + rest.curated && total.written == written + rest.written && total.error == rest.error
  }

  /** The loop invariant carries over one candidate: skipped, refused,
      written (its URL is then stored), or ending the loop with a throw. */
  lemma MidwayStep(items: seq<CrawledItem>, i: nat, rows: map<Id, ContentItem>, after: map<Id, ContentItem>,
                   total: Ingest, curated: seq<CrawledItem>, written: seq<CrawledItem>, env: CronEnv)
    requires i < |items| && Midway(items, i, rows, total, curated, written, env)
    ensures var item := items[i];
      && (item.url == "" || item.headline == "" || item.url in StoredUrls(rows) ==>
            after == rows ==> Midway(items, i + 1, after, total, curated, written, env))
      && (item.url != "" && item.headline != "" && item.url !in StoredUrls(rows) ==>
            match env.insertOutcome(item.url)
            case WriteThrew(message) => total == Ingest(curated + [item], written, Some(message))
            case WriteError(_) =>
              after == rows ==> Midway(items, i + 1, after, total, curated + [item], written, env)
            case Written =>
              StoredUrls(after) == StoredUrls(rows) + {item.url} ==>
                Midway(items, i + 1, after, total, curated + [item], written + [item], env))
  {
    var item := items[i];
    var stored := StoredUrls(rows);
    IngestedAt(items, i, stored, env);
    if item.url != "" && item.headline != "" && item.url !in stored {
      match env.insertOutcome(item.url)
      case WriteThrew(_) =>
      case WriteError(_) =>
        var rest := Ingested(items[i + 1..], stored, env);
        assert curated + ([item] + rest.curated) == curated + [item] + rest.curated;
      case Written =>
        var rest := Ingested(items[i + 1..], stored + {item.url}, env);
        assert curated + ([item] + rest.curated) == curated + [item] + rest.curated;
        assert written + ([item] + rest.written) == written + [item] + rest.written;
    }
  }

  /** One iteration of the candidate loop: skip, or curate and insert.
      A throwing insert sets the log's error and ends the loop. */
  method TakeCandidate(items: seq<CrawledItem>, i: nat, now: Timestamp, env: CronEnv, content: ContentTable,
                       log: CrawlLog, ghost total: Ingest, ghost curated: seq<CrawledItem>,
                       ghost written: seq<CrawledItem>, ghost rows0: map<Id, ContentItem>, ghost next0: Id)
    returns (log': CrawlLog, ghost curated': seq<CrawledItem>, ghost written': seq<CrawledItem>)
    requires i < |items| && content.Valid() && log.errors.None?
    requires log.items_new == |written| && log.items_published == PublishedCount(written, Drafter(now, env))
    requires content.rows == Numbered(rows0, written, next0, Drafter(now, env)) && content.nextId == next0 + |written|
    requires Midway(items, i, content.rows, total, curated, written, env)
    modifies content
    ensures content.Valid()
    ensures log' == CrawlLog(log.source_id, log.items_found, |written'|, PublishedCount(written', Drafter(now, env)),
                             log'.errors, log.started_at, log.completed_at)
    ensures content.rows == Numbered(rows0, written', next0, Drafter(now, env)) && content.nextId == next0 + |written'|
    ensures log'.errors.None? ==> Midway(items, i + 1, content.rows, total, curated', written', env)
    ensures log'.errors.Some? ==> total == Ingest(curated', written', log'.errors)
  {
    var item := items[i];
    ghost var stored := StoredUrls(content.rows);
    log', curated', written' := log, curated, written;
    assert content.HasUrl(item.url) <==> item.url in stored;
    if item.url == "" || item.headline == "" || content.HasUrl(item.url) {
      MidwayStep(items, i, content.rows, content.rows, total, curated, written, env);
      return;
    }
    ghost var rows, id := content.rows, content.nextId;
    var outcome, added, published := StoreCandidate(item, now, env, content);
    curated' := curated + [item];
    if outcome.WriteThrew? {
      MidwayStep(items, i, rows, content.rows, total, curated, written, env);
      log' := log.(errors := Some(outcome.message));
      return;
    }
    if added {
      StoredUrlsInsert(rows, id, content.rows[id]);
      assert Drafter(now, env)(item) == DraftOf(item, now, env);
      NumberedStep(rows0, written, item, next0, Drafter(now, env), rows, id, DraftOf(item, now, env).(id := id),
                   content.rows);
      MidwayStep(items, i, rows, content.rows, total, curated, written, env);
      written' := written + [item];
      log' := log.(items_new := log.items_new + 1);
      if published {
        log' := log'.(items_published := log'.items_published + 1);
      }
    } else {
      MidwayStep(items, i, rows, content.rows, total, curated, written, env);
    }
  }

  /** The candidate loop of one source over its crawled `items`. The ghost
      `curated` lists the candidates handed to the classifier. */
  method IngestCandidates(items: seq<CrawledItem>, now: Timestamp, env: CronEnv, content: ContentTable,
                          log: CrawlLog)
    returns (log': CrawlLog, ghost curated: seq<CrawledItem>)
    requires content.Valid()
    requires log.items_new == 0 && log.items_published == 0 && log.errors.None?
    modifies content
    ensures content.Valid()
    ensures var run := Ingested(items, StoredUrls(old(content.rows)), env);
      && log' == log.(items_new := |run.written|, items_published := PublishedCount(run.written, Drafter(now, env)),
                      errors := run.error)
      && curated == run.curated
      && content.rows == Numbered(old(content.rows), run.written, old(content.nextId), Drafter(now, env))
      && content.nextId == old(content.nextId) + |run.written|
  {
    ghost var total := Ingested(items, StoredUrls(content.rows), env);
    ghost var written: seq<CrawledItem> := [];
    log' := log;
    curated := [];
    assert items[0..] == items;
    var i := 0;
    while i < |items|
      invariant 0 <= i <= |items| && content.Valid()
      invariant log' == log.(items_new := |written|, items_published := PublishedCount(written, Drafter(now, env)))
      invariant content.rows == Numbered(old(content.rows), written, old(content.nextId), Drafter(now, env))
      invariant content.nextId == old(content.nextId) + |written|
      invariant Midway(items, i, content.rows, total, curated, written, env)
    {
      log', curated, written := TakeCandidate(items, i, now, env, content, log', total, curated, written,
                                              old(content.rows), old(content.nextId));
      if log'.errors.Some? {
        assert total.written == written && total.error == log'.errors;
        return;
      }
      i := i + 1;
    }
    assert items[i..] == [];
    assert total.written == written && total.error.None?;
  }

  /** The body of the per-source `try`: crawl, then dedup, curate and insert
      each candidate in order. A throwing insert ends the candidate loop and
      leaves its message in the log; the log is then completed. */
  method ProcessSource(source: Source, now: Timestamp, env: CronEnv, content: ContentTable)
    returns (log: CrawlLog, ghost curated: seq<CrawledItem>)
    requires content.Valid()
    modifies content
    ensures content.Valid()
    ensures var run := Ingested(CrawlSource(source, env.crawl), StoredUrls(old(content.rows)), env);
      && log == SourceLog(source, StoredUrls(old(content.rows)), now, env)
      && curated == run.curated
      && content.rows == Numbered(old(content.rows), run.written, old(content.nextId), Drafter(now, env))
      && content.nextId == old(content.nextId) + |run.written|
  {
    var items := CrawlSource(source, env.crawl);
    log := CrawlLog(source.id, |items|, 0, 0, None, now, None);
    log, curated := IngestCandidates(items, now, env, content, log);
    log := log.(completed_at := Some(now));
  }

  /** The result entry reported for a processed source. */
  predicate ReportsSource(r: CrawlResult, source: Source, now: Timestamp, env: CronEnv) {
    && r.source == source.name && r.log.source_id == source.id
    && r.log.items_published <= r.log.items_new <= r.log.items_found
    && r.log.items_found == |CrawlSource(source, env.crawl)|
    && r.log.started_at == now && r.log.completed_at == Some(now)
  }

  predicate ReportsAll(results: seq<CrawlResult>, due: seq<Source>, now: Timestamp, env: CronEnv) {
    |results| == |due| && forall k :: 0 <= k < |due| ==> ReportsSource(results[k], due[k], now, env)
  }

  /** The logs of the results, in order. */
  function LogsOf(results: seq<CrawlResult>): (r: seq<CrawlLog>)
    ensures |r| == |results| && forall k :: 0 <= k < |results| ==> r[k] == results[k].log
  {
    if results == [] then [] else LogsOf(results[..|results| - 1]) + [results[|results| - 1].log]
  }

  lemma ReportsAllAppend(results: seq<CrawlResult>, due: seq<Source>, r: CrawlResult, s: Source,
                         now: Timestamp, env: CronEnv)
    requires ReportsAll(results, due, now, env) && ReportsSource(r, s, now, env)
    ensures ReportsAll(results + [r], due + [s], now, env)
  {
  }

  lemma LogsOfAppend(results: seq<CrawlResult>, r: CrawlResult)
    ensures LogsOf(results + [r]) == LogsOf(results) + [r.log]
  {
    assert (results + [r])[..|results|] == results;
  }

  /** Appending a result's log to the table keeps the table equal to the
      logs of the results. */
  lemma LogsStep(logs0: seq<CrawlLog>, results: seq<CrawlResult>, result: CrawlResult,
                 entries: seq<CrawlLog>, entries': seq<CrawlLog>)
    requires entries == logs0 + LogsOf(results) && entries' == entries + [result.log]
    ensures entries' == logs0 + LogsOf(results + [result])
  {
    LogsOfAppend(results, result);
  }

  /** The ids of the sources. */
  function IdsOf(sources: seq<Source>): (ids: set<string>)
    ensures forall id :: id in ids <==> exists s :: s in sources && s.id == id
  {
    if sources == [] then {} else IdsOf(sources[..|sources| - 1]) + {sources[|sources| - 1].id}
  }

  /** The content rows `after` keep every row of `before` and add only rows
      the run may insert. */
  predicate OnlyCrawledRowsAdded(before: map<Id, ContentItem>, after: map<Id, ContentItem>) {
    && (forall id :: id in before ==> id in after && after[id] == before[id])
    && (forall id :: id in after && id !in before ==> CrawledRow(after[id]))
  }

  lemma OnlyCrawledRowsAddedTrans(a: map<Id, ContentItem>, b: map<Id, ContentItem>, c: map<Id, ContentItem>)
    requires OnlyCrawledRowsAdded(a, b) && OnlyCrawledRowsAdded(b, c)
    ensures OnlyCrawledRowsAdded(a, c)
  {
    forall id | id in c && id !in a ensures CrawledRow(c[id]) {
      if id in b {
        assert c[id] == b[id];
      }
    }
  }

  lemma StampedByAppend(rows: seq<Source>, done: seq<Source>, s: Source, now: Timestamp)
    ensures StampedBy(rows, done + [s], now) == StampId(StampedBy(rows, done, now), s.id, now)
  {
    assert (done + [s])[..|done|] == done;
  }

  /** One iteration of the source loop: a source that is not due is
      skipped; a due one is crawled and its result appended. */
  method VisitSource(source: Source, now: Timestamp, env: CronEnv,
                     content: ContentTable, sources: SourceTable, logs: CrawlLogTable,
                     results: seq<CrawlResult>, ghost due: seq<Source>, ghost rest: seq<Source>,
                     ghost rows0: map<Id, ContentItem>, ghost stamped0: seq<Source>, ghost logs0: seq<CrawlLog>)
    returns (results': seq<CrawlResult>, ghost due': seq<Source>)
    requires content.Valid()
    requires ReportsAll(results, due, now, env)
    requires logs.entries == logs0 + LogsOf(results)
    requires sources.rows == StampedBy(stamped0, due, now)
    requires OnlyCrawledRowsAdded(rows0, content.rows)
    modifies content, sources, logs
    ensures due' == due + (if IsDue(source, now) then [source] else [])
    ensures content.Valid()
    ensures ReportsAll(results', due', now, env)
    ensures logs.entries == logs0 + LogsOf(results')
    ensures sources.rows == StampedBy(stamped0, due', now)
    ensures OnlyCrawledRowsAdded(rows0, content.rows)
    ensures LogsOf(results') + RunLogs(rest, StoredUrls(content.rows), now, Visit(now, env))
         == LogsOf(results) + RunLogs([source] + rest, StoredUrls(old(content.rows)), now, Visit(now, env))
    ensures RunRows(rest, content.rows, content.nextId, now, Written(env), Drafter(now, env))
         == RunRows([source] + rest, old(content.rows), old(content.nextId), now, Written(env), Drafter(now, env))
  {
    ghost var rows1, next1, entries := content.rows, content.nextId, logs.entries;
    if !IsDue(source, now) {
      assert due + [] == due;
      RunRowsVisit(source, rest, rows1, next1, rows1, next1, now, Written(env), Drafter(now, env));
      RunLogsVisit(source, rest, StoredUrls(rows1), StoredUrls(rows1), LogsOf(results), LogsOf(results), now, Visit(now, env));
      return results, due;
    }
    var result := CrawlDueSource(source, now, env, content, sources, logs);
    LogsStep(logs0, results, result, entries, logs.entries);
    ReportsAllAppend(results, due, result, source, now, env);
    OnlyCrawledRowsAddedTrans(rows0, rows1, content.rows);
    StampedByAppend(stamped0, due, source, now);
    results' := results + [result];
    due' := due + [source];
    assert Visit(now, env)(source, StoredUrls(rows1))
        == (result.log, StoredUrls(rows1) + UrlsOf(SourceRun(source, StoredUrls(rows1), env).written));
    RunLogsVisit(source, rest, StoredUrls(rows1), StoredUrls(content.rows), LogsOf(results), LogsOf(results'),
                 now, Visit(now, env));
    assert Written(env)(source, StoredUrls(rows1)) == SourceRun(source, StoredUrls(rows1), env).written;
    RunRowsVisit(source, rest, rows1, next1, content.rows, content.nextId, now, Written(env), Drafter(now, env));
  }

  /** The candidates of `source` run through the candidate loop. */
  function SourceRun(source: Source, stored: set<string>, env: CronEnv): Ingest {
    Ingested(CrawlSource(source, env.crawl), stored, env)
  }

  /** Visiting a due source when the table holds the URLs `stored`: its
      log, and the URLs stored afterwards. */
  function Visit(now: Timestamp, env: CronEnv): (Source, set<string>) -> (CrawlLog, set<string>) {
    (s, stored) => (SourceLog(s, stored, now, env), stored + UrlsOf(SourceRun(s, stored, env).written))
  }

  /** The logs a run over `active` writes from the stored URLs `stored`
      on: a source that is not due is skipped, a due one is visited and
      the next sees the URLs the visit stored. */
  function RunLogs(active: seq<Source>, stored: set<string>, now: Timestamp,
                   visit: (Source, set<string>) -> (CrawlLog, set<string>)): seq<CrawlLog>
    decreases |active|
  {
    if active == [] then []
    else if !IsDue(active[0], now) then RunLogs(active[1..], stored, now, visit)
    else
      var (log, after) := visit(active[0], stored);
      [log] + RunLogs(active[1..], after, now, visit)
  }

  /** Visiting one source, in terms of the logs written so far and the
      URLs stored: what is left of the run is what it was. */
  lemma RunLogsVisit(source: Source, rest: seq<Source>, stored: set<string>, stored': set<string>,
                     logs: seq<CrawlLog>, logs': seq<CrawlLog>, now: Timestamp,
                     visit: (Source, set<string>) -> (CrawlLog, set<string>))
    requires IsDue(source, now) ==>
      logs' == logs + [visit(source, stored).0] && stored' == visit(source, stored).1
    requires !IsDue(source, now) ==> logs' == logs && stored' == stored
    ensures logs' + RunLogs(rest, stored', now, visit) == logs + RunLogs([source] + rest, stored, now, visit)
  {
    assert ([source] + rest)[1..] == rest;
  }

  /** The candidates a due source writes when the table holds the URLs
      `stored`. */
  function Written(env: CronEnv): (Source, set<string>) -> seq<CrawledItem> {
    (s, stored) => SourceRun(s, stored, env).written
  }

  /** The content table and the next id after a run over `active` from
      `rows` and `next` on: a source that is not due is skipped, a due one
      inserts the drafts of the candidates it writes under the next ids,
      and the next source sees the table so grown. */
  function RunRows(active: seq<Source>, rows: map<Id, ContentItem>, next: Id, now: Timestamp,
                   written: (Source, set<string>) -> seq<CrawledItem>,
                   draft: CrawledItem -> ContentItem): (map<Id, ContentItem>, Id)
    decreases |active|
  {
    if active == [] then (rows, next)
    else if !IsDue(active[0], now) then RunRows(active[1..], rows, next, now, written, draft)
    else
      var w := written(active[0], StoredUrls(rows));
      RunRows(active[1..], Numbered(rows, w, next, draft), next + |w|, now, written, draft)
  }

  /** Visiting one source, in terms of the table it leaves: what is left
      of the run is what it was. */
  lemma RunRowsVisit(source: Source, rest: seq<Source>, rows: map<Id, ContentItem>, next: Id,
                     rows': map<Id, ContentItem>, next': Id, now: Timestamp,
                     written: (Source, set<string>) -> seq<CrawledItem>, draft: CrawledItem -> ContentItem)
    requires IsDue(source, now) ==>
      var w := written(source, StoredUrls(rows));
      rows' == Numbered(rows, w, next, draft) && next' == next + |w|
    requires !IsDue(source, now) ==> rows' == rows && next' == next
    ensures RunRows(rest, rows', next', now, written, draft) == RunRows([source] + rest, rows, next, now, written, draft)
  {
    assert ([source] + rest)[1..] == rest;
  }

  /** The `items_new` counts of the logs, added up. */
  function NewCount(logs: seq<CrawlLog>): nat {
    if logs == [] then 0 else logs[0].items_new + NewCount(logs[1..])
  }

  /** Each visit counts the candidates it writes as new and stores
      their URLs. */
  lemma VisitCountsWritten(now: Timestamp, env: CronEnv)
    ensures forall s, stored ::
      && Visit(now, env)(s, stored).0.items_new == |Written(env)(s, stored)|
      && Visit(now, env)(s, stored).1 == stored + UrlsOf(Written(env)(s, stored))
  {
  }

  /** Over any visits that count and store what they write, the `items_new`
      of a run's logs add up to the number of ids its inserts use. */
  lemma {:induction false} RunRowsCount(active: seq<Source>, rows: map<Id, ContentItem>, next: Id, now: Timestamp,
                                        written: (Source, set<string>) -> seq<CrawledItem>,
                                        draft: CrawledItem -> ContentItem,
                                        visit: (Source, set<string>) -> (CrawlLog, set<string>))
    requires forall id :: id in rows ==> id < next
    requires forall c :: draft(c).url == c.url
    requires forall s, stored ::
      visit(s, stored).0.items_new == |written(s, stored)| && visit(s, stored).1 == stored + UrlsOf(written(s, stored))
    ensures RunRows(active, rows, next, now, written, draft).1
         == next + NewCount(RunLogs(active, StoredUrls(rows), now, visit))
    decreases |active|
  {
    if active != [] && !IsDue(active[0], now) {
      RunRowsCount(active[1..], rows, next, now, written, draft, visit);
    } else if active != [] {
      var w := written(active[0], StoredUrls(rows));
      var rows1 := Numbered(rows, w, next, draft);
      NumberedUrls(rows, w, next, draft);
      NumberedKeys(rows, w, next, draft);
      RunRowsCount(active[1..], rows1, next + |w|, now, written, draft, visit);
      var logs := RunLogs(active, StoredUrls(rows), now, visit);
      assert logs == [visit(active[0], StoredUrls(rows)).0] + RunLogs(active[1..], StoredUrls(rows1), now, visit);
      assert logs[1..] == RunLogs(active[1..], StoredUrls(rows1), now, visit);
    }
  }

  /** The rows a cron run inserts are exactly the ones its logs count as
      new: the next id moves on by the `items_new` of all the logs. */
  lemma RunCountsNew(active: seq<Source>, rows: map<Id, ContentItem>, next: Id, now: Timestamp, env: CronEnv)
    requires forall id :: id in rows ==> id < next
    ensures RunRows(active, rows, next, now, Written(env), Drafter(now, env)).1
         == next + NewCount(RunLogs(active, StoredUrls(rows), now, Visit(now, env)))
  {
    DrafterKeepsUrls(now, env);
    VisitCountsWritten(now, env);
    RunRowsCount(active, rows, next, now, Written(env), Drafter(now, env), Visit(now, env));
  }

  /** A run keeps every old row and adds rows under exactly the ids from
      `next` up to the next id it leaves. */
  lemma {:induction false} RunRowsKeeps(active: seq<Source>, rows: map<Id, ContentItem>, next: Id, now: Timestamp,
                                        written: (Source, set<string>) -> seq<CrawledItem>,
                                        draft: CrawledItem -> ContentItem)
    requires forall id :: id in rows ==> id < next
    ensures var r := RunRows(active, rows, next, now, written, draft);
      && next <= r.1
      && (forall id :: id in rows ==> id in r.0 && r.0[id] == rows[id])
      && (forall id :: id in r.0 <==> id in rows || next <= id < r.1)
    decreases |active|
  {
    if active != [] && !IsDue(active[0], now) {
      RunRowsKeeps(active[1..], rows, next, now, written, draft);
    } else if active != [] {
      var w := written(active[0], StoredUrls(rows));
      NumberedAdds(rows, w, next, draft);
      NumberedKeys(rows, w, next, draft);
      RunRowsKeeps(active[1..], Numbered(rows, w, next, draft), next + |w|, now, written, draft);
    }
  }

  /** What crawling a due source does to the table and reports: only
      crawled rows are added, the stored URLs grow by the written ones, and
      the log counts are ordered. */
  lemma SourceRunAdds(rows: map<Id, ContentItem>, next: Id, source: Source, now: Timestamp, env: CronEnv)
    requires forall id :: id in rows ==> id < next
    ensures var w := SourceRun(source, StoredUrls(rows), env).written;
      && OnlyCrawledRowsAdded(rows, Numbered(rows, w, next, Drafter(now, env)))
      && StoredUrls(Numbered(rows, w, next, Drafter(now, env))) == StoredUrls(rows) + UrlsOf(w)
    ensures var log := SourceLog(source, StoredUrls(rows), now, env);
      log.items_published <= log.items_new <= log.items_found
  {
    var items := CrawlSource(source, env.crawl);
    var run := Ingested(items, StoredUrls(rows), env);
    var draft := Drafter(now, env);
    NumberedAdds(rows, run.written, next, draft);
    DrafterKeepsUrls(now, env);
    NumberedUrls(rows, run.written, next, draft);
    IngestedCurated(items, StoredUrls(rows), env);
    var after := Numbered(rows, run.written, next, draft);
    forall id | id in after && id !in rows ensures CrawledRow(after[id]) {
      var c := run.written[id - next];
      assert c in run.written;
      assert draft(c) == DraftOf(c, now, env);
      DraftIsCrawled(c, now, env, id);
    }
  }

  /** One iteration of the source loop for a due source: process it, stamp
      it, log it and report it. */
  method CrawlDueSource(source: Source, now: Timestamp, env: CronEnv,
                        content: ContentTable, sources: SourceTable, logs: CrawlLogTable)
    returns (result: CrawlResult)
    requires content.Valid()
    modifies content, sources, logs
    ensures content.Valid()
    ensures ReportsSource(result, source, now, env)
    ensures result.log == SourceLog(source, StoredUrls(old(content.rows)), now, env)
    ensures logs.entries == old(logs.entries) + [result.log]
    ensures sources.rows == StampId(old(sources.rows), source.id, now)
    ensures var w := SourceRun(source, StoredUrls(old(content.rows)), env).written;
      && content.rows == Numbered(old(content.rows), w, old(content.nextId), Drafter(now, env))
      && content.nextId == old(content.nextId) + |w|
      && StoredUrls(content.rows) == StoredUrls(old(content.rows)) + UrlsOf(w)
    ensures OnlyCrawledRowsAdded(old(content.rows), content.rows)
  {
    SourceRunAdds(content.rows, content.nextId, source, now, env);
    var log, _ := ProcessSource(source, now, env, content);
    ghost var rows := content.rows;
    sources.Stamp(source.id, now);
    logs.Append(log);
    assert content.rows == rows;
    result := CrawlResult(source.name, log);
  }

  /** `POST /api/cron/crawl`. `authorization` is the request header,
      `secret` the configured CRON_SECRET, `sourcesFail` whether reading
      the sources fails; `now` is the clock for the whole run. */
  method RunCrawl(authorization: Option<string>, secret: Option<string>, sourcesFail: bool,
                  now: Timestamp, env: CronEnv,
                  content: ContentTable, sources: SourceTable, logs: CrawlLogTable)
    returns (response: Response<CrawlSummary>)
    requires content.Valid()
    modifies content, sources, logs
    ensures content.Valid()
    ensures !BearerMatches(authorization, secret) ==>
      response == Fail(401, "Unauthorized") && unchanged(content, sources, logs)
    ensures BearerMatches(authorization, secret) && sourcesFail ==>
      response == Fail(500, "Failed to fetch sources") && unchanged(content, sources, logs)
    ensures BearerMatches(authorization, secret) && !sourcesFail ==> response.Ok?
    ensures response.Ok? ==>
      var due := DueSources(ActiveSources(old(sources.rows)), now);
      && response.body.success
      && response.body.sources_processed == |response.body.results|
      && ReportsAll(response.body.results, due, now, env)
      && logs.entries == old(logs.entries) + LogsOf(response.body.results)
      && sources.rows == StampedBy(old(sources.rows), due, now)
      && LogsOf(response.body.results) == RunLogs(ActiveSources(old(sources.rows)), StoredUrls(old(content.rows)), now, Visit(now, env))
      && (content.rows, content.nextId)
         == RunRows(ActiveSources(old(sources.rows)), old(content.rows), old(content.nextId), now, Written(env),
                  Drafter(now, env))
    ensures OnlyCrawledRowsAdded(old(content.rows), content.rows)
  {
    if !BearerMatches(authorization, secret) {
      return Fail(401, "Unauthorized");
    }
    if sourcesFail {
      return Fail(500, "Failed to fetch sources");
    }
    var active := ActiveSources(sources.rows);
    var results := CrawlActive(active, now, env, content, sources, logs);
    return Ok(CrawlSummary(true, |results|, results));
  }

  /** `GET`: the manual trigger. The secret comes as a query parameter and
      must equal the configured one (an absent parameter never does); the
      request is then handed to `POST` with the matching bearer header. */
  method RunCrawlByQuery(secretParam: Option<string>, secret: Option<string>, sourcesFail: bool,
                         now: Timestamp, env: CronEnv,
                         content: ContentTable, sources: SourceTable, logs: CrawlLogTable)
    returns (response: Response<CrawlSummary>)
    requires content.Valid()
    modifies content, sources, logs
    ensures content.Valid()
    ensures secretParam.None? || secretParam != secret ==>
      response == Fail(401, "Unauthorized") && unchanged(content, sources, logs)
    ensures secretParam.Some? && secretParam == secret && sourcesFail ==>
      response == Fail(500, "Failed to fetch sources") && unchanged(content, sources, logs)
    ensures response.Ok? <==> secretParam.Some? && secretParam == secret && !sourcesFail
    ensures response.Ok? ==>
      var due := DueSources(ActiveSources(old(sources.rows)), now);
      && ReportsAll(response.body.results, due, now, env)
      && logs.entries == old(logs.entries) + LogsOf(response.body.results)
      && sources.rows == StampedBy(old(sources.rows), due, now)
      && LogsOf(response.body.results) == RunLogs(ActiveSources(old(sources.rows)), StoredUrls(old(content.rows)), now, Visit(now, env))
      && (content.rows, content.nextId)
         == RunRows(ActiveSources(old(sources.rows)), old(content.rows), old(content.nextId), now, Written(env),
                  Drafter(now, env))
    ensures OnlyCrawledRowsAdded(old(content.rows), content.rows)
  {
    if secretParam.None? || secretParam != secret {
      return Fail(401, "Unauthorized");
    }
    response := RunCrawl(Some("Bearer " + secret.value), secret, sourcesFail, now, env, content, sources, logs);
  }

  /** The loop over the active sources: a source that is not due is
      skipped, every due one is crawled, stamped and logged in turn. */
  method CrawlActive(active: seq<Source>, now: Timestamp, env: CronEnv,
                     content: ContentTable, sources: SourceTable, logs: CrawlLogTable)
    returns (results: seq<CrawlResult>)
    requires content.Valid()
    modifies content, sources, logs
    ensures content.Valid()
    ensures ReportsAll(results, DueSources(active, now), now, env)
    ensures logs.entries == old(logs.entries) + LogsOf(results)
    ensures sources.rows == StampedBy(old(sources.rows), DueSources(active, now), now)
    ensures OnlyCrawledRowsAdded(old(content.rows), content.rows)
    ensures LogsOf(results) == RunLogs(active, StoredUrls(old(content.rows)), now, Visit(now, env))
    ensures (content.rows, content.nextId) == RunRows(active, old(content.rows), old(content.nextId), now, Written(env), Drafter(now, env))
  {
    ghost var oldRows, rows0, logs0, next0 := sources.rows, content.rows, logs.entries, content.nextId;
    results := [];
    ghost var dueSoFar: seq<Source> := [];
    assert active[0..] == active;
    var k := 0;
    while k < |active|
      invariant 0 <= k <= |active|
      invariant content.Valid()
      invariant dueSoFar == DueSources(active[..k], now)
      invariant ReportsAll(results, dueSoFar, now, env)
      invariant logs.entries == logs0 + LogsOf(results)
      invariant sources.rows == StampedBy(oldRows, dueSoFar, now)
      invariant OnlyCrawledRowsAdded(rows0, content.rows)
      invariant LogsOf(results) + RunLogs(active[k..], StoredUrls(content.rows), now, Visit(now, env))
             == RunLogs(active, StoredUrls(rows0), now, Visit(now, env))
      invariant RunRows(active[k..], content.rows, content.nextId, now, Written(env), Drafter(now, env))
             == RunRows(active, rows0, next0, now, Written(env), Drafter(now, env))
    {
      DueSourcesStep(active, k, now);
      assert active[k..] == [active[k]] + active[k + 1..];
      results, dueSoFar := VisitSource(active[k], now, env, content, sources, logs,
                                       results, dueSoFar, active[k + 1..], rows0, oldRows, logs0);
      k := k + 1;
    }
    assert active[..|active|] == active;
    assert LogsOf(results) + [] == LogsOf(results);
  }

  /** Walking the active sources one at a time builds the due list. */
  lemma DueSourcesStep(active: seq<Source>, k: nat, now: Timestamp)
    requires k < |active|
    ensures DueSources(active[..k + 1], now)
         == DueSources(active[..k], now) + (if IsDue(active[k], now) then [active[k]] else [])
  {
    DueSourcesAppend(active[..k], active[k], now);
    assert active[..k + 1] == active[..k] + [active[k]];
  }

  lemma {:induction false} DueSourcesAppend(s: seq<Source>, x: Source, now: Timestamp)
    ensures DueSources(s + [x], now) == DueSources(s, now) + (if IsDue(x, now) then [x] else [])
  {
    if s == [] {
      assert [x][1..] == [];
    } else {
      assert (s + [x])[1..] == s[1..] + [x];
      DueSourcesAppend(s[1..], x, now);
    }
  }
}
