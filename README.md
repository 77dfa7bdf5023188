# Basketball Lobster — a verified model of the aggregator's core

Basketball Lobster is an NBA news aggregator. A scheduled job crawls RSS and
podcast feeds and YouTube channels. Each new item is summarised and scored
1 to 10 by a language-model classifier. Items scoring 5 or more are
published; items scoring 5 to 7 are also flagged for review. Users submit
links, vote on items and comments, write comments and edit their profile.
Moderators approve or delete items behind a bearer secret. The public feed
lists published items by "hot", "new" or "top" ranking.

This project models that core in Dafny and proves properties of it:

- `utils.dfy`: the hot-ranking formula's parts, HTML reference decoding and truncation (`src/lib/utils.ts`).
- `curator.dfy`: the classifier call, with reply cleaning, score clamping and the fallback (`src/lib/ai-curator.ts`).
- `crawler.dfy`: the feed and YouTube adapters and thumbnail extraction (`src/lib/crawler.ts`).
- `cron_crawl.dfy`: the crawl job (`src/app/api/cron/crawl/route.ts`).
- `submit.dfy`: link submission, with page title and meta description extraction (`src/app/api/submit/route.ts`).
- `feed.dfy`: the public feed (`src/app/api/feed/route.ts`).
- `admin_content.dfy`: the moderation queue (`src/app/api/admin/content/route.ts`).
- `admin_stats.dfy`: the moderation counts (`src/app/api/admin/stats/route.ts`).
- `profile.dfy`: the profile handlers (`src/app/api/profile/route.ts`).
- `vote.dfy` and `comment_vote.dfy`: the vote toggles (`src/app/api/vote/route.ts`, `src/app/api/comment-vote/route.ts`).
- `comments.dfy`: posting a comment (`src/app/api/comments/route.ts`).

Supporting modules:

- `types.dfy`: the records of `src/lib/types.ts`, JavaScript truthiness and the bearer-header check.
- `strings.dfy`: JavaScript `trim`, `trimEnd`, `indexOf` and `replace` with a string pattern.
- `sorting.dfy`: a stable descending sort.
- `content_store.dfy`: the content table and the query builder's filters, ordering and ranges.
- `vote_store.dfy`: the two vote tables.

Conventions of the model:

- Database tables are classes whose fields the handlers update: a `map` from id to row, or a `set` of (user, target) pairs. Rows are listed in increasing id order. Database orderings are the stable sort over that order, so equal keys keep increasing ids.
- Everything outside the process is a parameter:
  - the fetched pages, feeds and API replies
  - the classifier, `JSON.parse` and URL host parsing
  - the storage layer's error results
  - the clock, as one `now` per request
  - the configured secret and the API key
  A function-typed parameter returning `None` stands for a call that throws.
- The classifier parameter receives the request's parts (headline, source name, content excerpt). `Curator.Prompt` gives the message text built from them. A classifier of the text is one of the parts composed with `Prompt`, so the lemmas about any classifier cover it.
- Handler results are `Response<T>`: `Ok(body)` or `Fail(status, error)`, with the status codes and messages of the source.
- Query parameters and JSON fields are `Option`s. `None` means absent; JavaScript falsiness (`""`, null) is written out where the source tests it.

## Model

| member | source | states |
|---|---|---|
| Utils.RunThenSemicolon | src/lib/utils.ts:78 | a non-empty run of the allowed characters closed by `;`, as `+` then `;` in the reference pattern require |
| Utils.EntityLen | src/lib/utils.ts:78 | a match of the reference pattern starts with `&`, ends with `;`, has at least three characters and no other `&` |
| Utils.DecodeHtml | src/lib/utils.ts:73-79 | decoding never lengthens the text |
| Utils.KnownPrefix | src/lib/utils.ts:74-77 | finds the known reference the text starts with, or none of the eight starts it |
| Utils.NamedReferenceMatches | src/lib/utils.ts:78 | every `&letters;` is matched in full by the pattern |
| Utils.DecimalReferenceMatches | src/lib/utils.ts:78 | every `&#digits;` is matched in full |
| Utils.HexReferenceMatches | src/lib/utils.ts:78 | every `&#xdigits;` is matched in full (the `x?` branch) |
| Utils.KeysAreMatches | src/lib/utils.ts:74-78 | each of the eight table keys is a whole match of the pattern, so each can be replaced |
| Utils.KnownEntityIsWholeMatch | src/lib/utils.ts:74-78 | a known reference at the head of the text is exactly the match there, whatever follows |
| Utils.DecodeKnownNoAmpersand | src/lib/utils.ts:78 | text with no `&` passes through the reference walk unchanged |
| Utils.DecodeHtmlIsKnownReplacement | src/lib/utils.ts:73-79 | the regex-driven decoder equals an independent walk that replaces exactly the eight known references |
| Utils.DecodeKnownEntity | src/lib/utils.ts:74-78 | each known reference decodes to its character, whatever follows |
| Utils.EntityLenIgnoresSuffix | src/lib/utils.ts:78 | a match does not depend on the text after its `;` |
| Utils.DecodeUnknownToken | src/lib/utils.ts:78 | a match the table does not list (`entities[m] \|\| m`) is put back unchanged |
| Utils.DecodeWithoutAmpersand | src/lib/utils.ts:73-79 | text without `&` is returned unchanged |
| Utils.DecodeIsSinglePass | src/lib/utils.ts:78 | one global pass: `&amp;` followed by `lt;` decodes to `&lt;`, not `<` |
| Utils.Truncate | src/lib/utils.ts:82-85 | short text unchanged; longer text becomes a prefix of at most `maxLength` characters, with trailing blanks removed and `...` appended |
| Utils.RecencyBoost | src/lib/utils.ts:28-31 | the boost is one of 0, 2, 5, 10 |
| Utils.RecencyBoostNonIncreasing | src/lib/utils.ts:28-31 | an older item never gets a larger boost |
| Utils.RecencyBoostExpires | src/lib/utils.ts:28-31 | the boost is zero exactly from six hours of age |
| Utils.BaseScore | src/lib/utils.ts:36 | defines `aiScore * 2 + votes * 3 + recencyBoost`; its order properties are stated by `Utils.BaseScoreMonotone` |
| Utils.BaseScoreMonotone | src/lib/utils.ts:36 | more votes, a higher classifier score or a younger age never lower the base score; one vote outweighs one score point |
| Utils.Gravity | src/lib/utils.ts:43-48 | the decay exponent is positive |
| Utils.GravityOrder | src/lib/utils.ts:43-48 | podcasts decay slowest, then videos, then unknown types, then articles |
| Utils.HotScore | src/lib/utils.ts:18-51 | defines the base score over `Math.pow(hoursAge + 2, gravity)`, with `Math.pow` a positive parameter; its ranking property is stated by `Utils.HotScoreFollowsBaseScore` |
| Utils.HotScoreFollowsBaseScore | src/lib/utils.ts:18-51 | at equal age and type, a larger base score gives a larger or equal hot score, whatever `Math.pow` returns |
| Strings.TrimEnd | src/lib/utils.ts:84 | the result is a prefix ending in a non-blank, and only blanks were removed |
| Strings.TrimStart | src/lib/ai-curator.ts:47 | the result is a suffix starting with a non-blank, and only blanks were removed |
| Strings.Trim | src/lib/ai-curator.ts:47 | the result neither starts nor ends with a blank, and is empty exactly when the input is all blanks |
| Strings.TrimOffset | src/lib/ai-curator.ts:47 | trimming removes blanks from the two ends only: the result is a slice of the input with all-blank text on either side |
| Strings.TrimIdempotent | src/app/api/comments/route.ts:10-19 | trimming twice is trimming once |
| Strings.IndexOf | src/app/api/submit/route.ts:56 | the first occurrence of the pattern: it occurs there and nowhere before; none when it occurs nowhere |
| Strings.IndexFrom | src/app/api/submit/route.ts:56 | the scan from a position finds the first occurrence at or after it, or reports that there is none |
| Strings.ReplaceFirst | src/app/api/submit/route.ts:56 | defines `replace` with a string pattern: only the first occurrence found by `indexOf` is replaced; its cases are stated by `Submit.SourceNameCases` |
| Types.FirstTruthy | src/lib/crawler.ts:27-29 | an `a \|\| b \|\| …` chain yields the first non-empty operand, and nothing only when all are falsy |
| Types.BearerMatches | src/app/api/admin/content/route.ts:4-7 | defines the header test: the header must equal "Bearer " followed by the secret, an unset secret being written "undefined"; the handlers' contracts state their 401 through it |
| Curator.ContentPrefix | src/lib/ai-curator.ts:35 | at most 2000 characters, a prefix of the text, and the whole text when it is short |
| Curator.Prompt | src/lib/ai-curator.ts:8-35 | the message starts with the fixed instruction and ends with the content excerpt |
| Curator.StripFence | src/lib/ai-curator.ts:45-46 | removing fences never lengthens the reply |
| Curator.CleanReply | src/lib/ai-curator.ts:44-47 | defines the two fence removals and the trim; what the cleaned reply is, is stated by `Curator.CleanReplyIsFenceFree` and `Curator.CleanReplyWithoutBacktick` |
| Curator.StripFenceWithoutBacktick | src/lib/ai-curator.ts:45-46 | a reply without a backtick is untouched by fence removal |
| Curator.CleanReplyWithoutBacktick | src/lib/ai-curator.ts:44-47 | for a reply without a backtick, cleaning is trimming |
| Curator.StripFenceFirstChar | src/lib/ai-curator.ts:46 | fence removal does not create a leading backtick |
| Curator.KeptHeadIsNoFence | src/lib/ai-curator.ts:46 | a kept head character does not start a new fence |
| Curator.StripFenceLeavesNoFence | src/lib/ai-curator.ts:46 | no triple backtick is left after the global replace |
| Curator.TrimKeepsFenceFree | src/lib/ai-curator.ts:47 | trimming fence-free text keeps it fence-free |
| Curator.CleanReplyIsFenceFree | src/lib/ai-curator.ts:44-47 | the cleaned reply holds no fence and has no surrounding blanks |
| Curator.ClampScore | src/lib/ai-curator.ts:52 | the stored score is always in 1..10 |
| Curator.Round | src/lib/ai-curator.ts:52 | defines `Math.round` on a finite number as `floor(x + 0.5)`; stated by `Curator.ClampScoreExact` |
| Curator.ClampScoreExact | src/lib/ai-curator.ts:52 | a rounded score in range is kept, others go to the nearer bound; rounding is to the nearest integer, halves up |
| Curator.ClampKeepsInRangeIntegers | src/lib/ai-curator.ts:52 | an integer score 1..10 is stored as given |
| Curator.ClampScoreMonotone | src/lib/ai-curator.ts:52 | a higher classifier score never yields a lower stored score |
| Curator.CurateReply | src/lib/ai-curator.ts:40-63 | whatever the reply and the parser, the resulting score is in 1..10 |
| Curator.CurateContent | src/lib/ai-curator.ts:23-64 | whatever the classifier does, the result's score is in 1..10 |
| Curator.CurateContentOutcomes | src/lib/ai-curator.ts:28-63 | a failed or empty reply gives the fallback (headline, 5, fixed reason); a parsed reply keeps summary and reason and clamps the score; an unparsable one falls back |
| Curator.NonTextReplyFallsBack | src/lib/ai-curator.ts:40-62 | a first block that is not text is parsed as `""` and falls back |
| Curator.OnlyPrefixIsSent | src/lib/ai-curator.ts:35 | texts agreeing on their first 2000 characters are curated alike |
| Crawler.SrcValueAt | src/lib/crawler.ts:100 | a capture is a non-empty quote-free value written as `src="…"` |
| Crawler.LastSrcIn | src/lib/crawler.ts:100 | the greedy `[^>]+` settles on a `src="…"` inside the range |
| Crawler.ImgSrcAt | src/lib/crawler.ts:100 | a match at an `<img` has its `src` after at least one character and before any `>` |
| Crawler.FirstImgSrc | src/lib/crawler.ts:100-101 | the leftmost match's capture is non-empty and quote-free |
| Crawler.ExtractThumbnail | src/lib/crawler.ts:90-103 | defines the thumbnail chain: image enclosure, media thumbnail, image media content, first `<img src>`, else null; its priorities are stated by the three lemmas below |
| Crawler.ImageEnclosureWins | src/lib/crawler.ts:91-93 | an image enclosure's URL is the thumbnail |
| Crawler.MediaThumbnailBeatsContent | src/lib/crawler.ts:94-99 | without an enclosure, a `media:thumbnail` URL is the thumbnail |
| Crawler.ThumbnailIsNonEmpty | src/lib/crawler.ts:90-103 | a thumbnail found is non-empty; extraction throws only on a media element without attributes |
| Crawler.MapFeedEntry | src/lib/crawler.ts:26-35 | mapping succeeds exactly when thumbnail extraction does; the headline is non-empty; source name and type come from the source |
| Crawler.FeedEntryFallbacks | src/lib/crawler.ts:27-29 | url is link, else guid, else `""`; headline is title, else "Untitled"; content is the first non-empty of snippet, content, summary, title |
| Crawler.MapAll | src/lib/crawler.ts:26 | an `Array.map` whose callback can throw: it completes exactly when every element maps, and then maps each element in order |
| Crawler.MapAllPrefix | src/lib/crawler.ts:26 | mapping the first `n` elements throws exactly when one of those `n` throws; otherwise it gives their mappings in order |
| Crawler.KeptCount | src/lib/crawler.ts:26 | `slice(0, 20)` keeps all of a short list and twenty of a long one |
| Crawler.MapFeedEntries | src/lib/crawler.ts:26 | the map throws if any entry throws, else maps each entry in order |
| Crawler.CrawlFeed | src/lib/crawler.ts:23-40 | nothing when the feed cannot be read or one of the first twenty entries throws; otherwise exactly the first `min(20, n)` entries, each mapped, in feed order |
| Crawler.YtThumbnailPriority | src/lib/crawler.ts:76-80 | the high thumbnail wins, then medium, then default, else null |
| Crawler.MapYtItem | src/lib/crawler.ts:69-82 | an item maps exactly when it has id and snippet; the url is the watch prefix followed by the video id (or "undefined"), the thumbnail the priority choice, the type "video", the headline non-empty |
| Crawler.MapYtItems | src/lib/crawler.ts:69 | the map throws if any item throws, else maps each item in order |
| Crawler.CrawlYouTube | src/lib/crawler.ts:43-87 | nothing without an API key or channel id, on a failed request, an error reply or an empty list, or when an item throws; otherwise exactly the listed items mapped in order |
| Crawler.YouTubeErrorYieldsNothing | src/lib/crawler.ts:60-63 | an error reply yields no candidates |
| Crawler.CrawlSource | src/lib/crawler.ts:106-118 | "rss" and "podcast_rss" go to the feed adapter, "youtube_api" to the YouTube one, anything else yields nothing |
| Crawler.CrawlSourceBounds | src/lib/crawler.ts:106-118 | feed sources yield at most 20 candidates; every candidate has a headline |
| CronCrawl.IsDue | src/app/api/cron/crawl/route.ts:33-38 | defines the skip test: never crawled, or the interval has elapsed; stated by `CronCrawl.DueSources` and `CronCrawl.StampedSourceNotDue` |
| CronCrawl.CrawlPublished | src/app/api/cron/crawl/route.ts:76 | defines `score >= 5`; the bands are stated by `CronCrawl.CrawlPolicyBands` |
| CronCrawl.CrawlNeedsReview | src/app/api/cron/crawl/route.ts:77 | defines `score >= 5 && score <= 7`; the bands are stated by `CronCrawl.CrawlPolicyBands` |
| CronCrawl.CrawlPolicyBands | src/app/api/cron/crawl/route.ts:76-77 | flagged rows are published; 8 and up is published unflagged; below 5 is neither |
| CronCrawl.CrawlDraft | src/app/api/cron/crawl/route.ts:80-93 | the row carries the item, the classifier's summary and score, and publish/review flags by the crawl bands |
| CronCrawl.ActiveSources | src/app/api/cron/crawl/route.ts:22-25 | exactly the active sources |
| CronCrawl.DueSources | src/app/api/cron/crawl/route.ts:31-39 | exactly the sources never crawled or whose interval has elapsed |
| CronCrawl.DueSourcesStep | src/app/api/cron/crawl/route.ts:31-39 | walking the sources one at a time builds the due list |
| CronCrawl.DueSourcesAppend | src/app/api/cron/crawl/route.ts:31-39 | a further source joins the due list exactly when it is due |
| CronCrawl.StampId | src/app/api/cron/crawl/route.ts:111-114 | only the rows with the id get `last_crawled_at := now` |
| CronCrawl.StampedBy | src/app/api/cron/crawl/route.ts:110-114 | stamping keeps the number of sources |
| CronCrawl.StampedByMeaning | src/app/api/cron/crawl/route.ts:110-114 | after the job a source is stamped exactly when it was crawled |
| CronCrawl.StampedByAppend | src/app/api/cron/crawl/route.ts:110-114 | stamping one more source is one more `update … .eq('id', …)` |
| CronCrawl.StampedSourceNotDue | src/app/api/cron/crawl/route.ts:33-38 | a source stamped now is not due again within its interval |
| CronCrawl.IdsOf | src/app/api/cron/crawl/route.ts:114 | exactly the ids of the given sources |
| CronCrawl.SourceTable.Stamp | src/app/api/cron/crawl/route.ts:111-114 | the update stamps the rows with the id |
| CronCrawl.CrawlLogTable.Append | src/app/api/cron/crawl/route.ts:117 | the log entry is appended |
| CronCrawl.Ingested | src/app/api/cron/crawl/route.ts:56-102 | the reference definition of the candidate loop: skip a candidate without URL or headline or with a stored URL, else curate and insert it; a refused insert goes on, a throw ends the loop; its meaning is stated by the four lemmas below |
| CronCrawl.IngestedAt | src/app/api/cron/crawl/route.ts:56-102 | one step of that loop at any position |
| CronCrawl.IngestedWritesSuccesses | src/app/api/cron/crawl/route.ts:95-101 | the rows written are exactly the curated candidates whose insert succeeds, in order |
| CronCrawl.IngestedCurated | src/app/api/cron/crawl/route.ts:56-77 | only crawled, well-formed candidates with an unstored URL are curated; every written one was curated; a throw comes from a curated candidate's insert |
| CronCrawl.IngestedCoversNew | src/app/api/cron/crawl/route.ts:56-73 | unless an insert throws, every well-formed candidate with a new URL is curated (or shares its URL with one that is) |
| CronCrawl.IngestedUrlsFresh | src/app/api/cron/crawl/route.ts:59-66 | no written URL was stored before, and none is written twice |
| CronCrawl.WrittenOf | src/app/api/cron/crawl/route.ts:95-100 | the successful inserts among the curated candidates, never more than those |
| CronCrawl.PublishedCount | src/app/api/cron/crawl/route.ts:100-101 | the number of published drafts among the written candidates, never more than those |
| CronCrawl.DraftOf | src/app/api/cron/crawl/route.ts:69-93 | defines the row for a candidate: curated, then `CrawlDraft`; stated by `CronCrawl.DraftIsCrawled` |
| CronCrawl.DraftIsCrawled | src/app/api/cron/crawl/route.ts:69-93 | the draft of a well-formed candidate is a crawled row: score in 1..10, flags by the crawl bands, not user-submitted |
| CronCrawl.DrafterKeepsUrls | src/app/api/cron/crawl/route.ts:81 | every draft keeps its candidate's URL |
| CronCrawl.Numbered | src/app/api/cron/crawl/route.ts:80-101 | defines the table after the written drafts are inserted in order, the `k`-th under id `next + k`; stated by the lemmas below |
| CronCrawl.NumberedSnoc | src/app/api/cron/crawl/route.ts:80-101 | one more written candidate adds its draft under the next id and counts if published |
| CronCrawl.NumberedStep | src/app/api/cron/crawl/route.ts:80-101 | the same step in the terms of the loop's state |
| CronCrawl.NumberedKeys | src/app/api/cron/crawl/route.ts:80-93 | the ids after the inserts are the old ones and the numbered new ones |
| CronCrawl.NumberedAt | src/app/api/cron/crawl/route.ts:80-93 | each old row is kept, and each new id holds the draft of its candidate |
| CronCrawl.NumberedAdds | src/app/api/cron/crawl/route.ts:80-93 | inserting from a fresh id keeps every old row and adds exactly the numbered drafts |
| CronCrawl.NumberedUrls | src/app/api/cron/crawl/route.ts:59-93 | the stored URLs grow by exactly the written URLs |
| CronCrawl.NumberedUrlsStep | src/app/api/cron/crawl/route.ts:59-93 | the last inserted draft adds its URL |
| CronCrawl.StoreCandidate | src/app/api/cron/crawl/route.ts:68-100 | the candidate is curated and inserted; a row is added exactly when the insert writes, with the next id and the crawl flags, and counts as published by the crawl bands |
| CronCrawl.SourceLog | src/app/api/cron/crawl/route.ts:41-108 | defines the log of a due source: the candidates found, the written ones, the published ones among them, a throw's message, the clock |
| CronCrawl.MidwayStep | src/app/api/cron/crawl/route.ts:56-102 | the candidate loop's invariant carries over a skipped, refused, written or throwing candidate |
| CronCrawl.TakeCandidate | src/app/api/cron/crawl/route.ts:56-102 | one candidate: the counts and the table follow the written candidates so far; a throw ends the loop with the reference result |
| CronCrawl.IngestCandidates | src/app/api/cron/crawl/route.ts:56-106 | the loop curates exactly the reference loop's candidates; `items_new` is the number written, `items_published` the published ones among them, `errors` a throw's message; the table gains exactly their drafts under consecutive ids |
| CronCrawl.ProcessSource | src/app/api/cron/crawl/route.ts:41-108 | the log is the reference log of the source (found, new, published, errors, completion); the table gains exactly the drafts of the written candidates under consecutive new ids |
| CronCrawl.SourceRunAdds | src/app/api/cron/crawl/route.ts:56-101 | a due source adds only crawled rows, grows the stored URLs by the written ones, and reports published ≤ new ≤ found |
| CronCrawl.LogsOf | src/app/api/cron/crawl/route.ts:117-118 | the logged entries are the results' log entries, in order |
| CronCrawl.LogsOfAppend | src/app/api/cron/crawl/route.ts:117-118 | one more result adds its log entry at the end |
| CronCrawl.LogsStep | src/app/api/cron/crawl/route.ts:117-118 | appending a result's log keeps the table equal to the logs of the results |
| CronCrawl.ReportsAllAppend | src/app/api/cron/crawl/route.ts:118 | one more reported due source keeps every source reported |
| CronCrawl.OnlyCrawledRowsAddedTrans | src/app/api/cron/crawl/route.ts:31-119 | adding only crawled rows twice adds only crawled rows |
| CronCrawl.CrawlDueSource | src/app/api/cron/crawl/route.ts:41-118 | one due source: the reference log, appended and reported; the source stamped; the table gains exactly the drafts of the written candidates, and the next id moves on by their number |
| CronCrawl.Visit | src/app/api/cron/crawl/route.ts:41-118 | defines a due source's visit as its log and the URLs stored afterwards |
| CronCrawl.RunLogs | src/app/api/cron/crawl/route.ts:31-119 | defines the logs of a whole run, each due source seeing the URLs the earlier ones stored |
| CronCrawl.RunLogsVisit | src/app/api/cron/crawl/route.ts:31-119 | visiting one source leaves the rest of the run as it was |
| CronCrawl.Written | src/app/api/cron/crawl/route.ts:56-101 | defines the candidates a due source writes against the stored URLs; stated by `IngestedWritesSuccesses` |
| CronCrawl.RunRows | src/app/api/cron/crawl/route.ts:31-119 | defines the content table and next id after a whole run: each due source inserts the drafts of its written candidates under the next ids, against the table the earlier ones left; stated by `RunRowsKeeps` and `RunCountsNew` |
| CronCrawl.RunRowsVisit | src/app/api/cron/crawl/route.ts:31-119 | visiting one source leaves the rest of the run's table as it was |
| CronCrawl.NewCount | src/app/api/cron/crawl/route.ts:99 | defines the sum of the logs' `items_new`; stated by `RunCountsNew` |
| CronCrawl.VisitCountsWritten | src/app/api/cron/crawl/route.ts:95-101 | a visit counts exactly the candidates it writes as new and stores their URLs |
| CronCrawl.RunRowsCount | src/app/api/cron/crawl/route.ts:80-101 | for any visit that counts and stores what it writes, the run's ids advance by the sum of its logs' `items_new` |
| CronCrawl.RunCountsNew | src/app/api/cron/crawl/route.ts:80-101 | the rows a cron run inserts are exactly the ones its logs count as new: the next id advances by the sum of `items_new` |
| CronCrawl.RunRowsKeeps | src/app/api/cron/crawl/route.ts:80-93 | a run keeps every old row and adds rows under exactly the ids from the old next id up to the new one |
| CronCrawl.VisitSource | src/app/api/cron/crawl/route.ts:31-119 | a source that is not due is skipped; a due one adds its result and log entry, is stamped, adds only crawled rows, writes the reference log and leaves the table the reference run (`RunRows`) reaches after it |
| CronCrawl.CrawlActive | src/app/api/cron/crawl/route.ts:31-119 | one result per due source in order; logs appended and equal to the reference run's logs; exactly the due sources stamped; the final content table and next id are those of the reference run `RunRows` |
| CronCrawl.RunCrawl | src/app/api/cron/crawl/route.ts:10-130 | 401 on a wrong bearer header, 500 when sources cannot be read (nothing changes); otherwise every due source is reported, stamped and logged with the reference run's counts, and the content table is the reference run's table `RunRows` |
| CronCrawl.RunCrawlByQuery | src/app/api/cron/crawl/route.ts:133-148 | 401 unless the query secret equals the configured one; then as `POST`, with the same logs, stamps and final content table |
| Submit.TitleAt | src/app/api/submit/route.ts:35 | a title capture is non-empty and holds no `<` |
| Submit.FirstTitle | src/app/api/submit/route.ts:35 | the leftmost match's capture is non-empty and holds no `<` |
| Submit.FirstTitleSkips | src/app/api/submit/route.ts:35 | the search passes positions where no `<title` starts |
| Submit.FirstTitleAt | src/app/api/submit/route.ts:35 | a title element with no `<title` before it is the first title, and its text is the capture |
| Submit.TitleAtHead | src/app/api/submit/route.ts:35 | `<title>x</title>` at a position is matched with capture `x` |
| Submit.TitleOfPage | src/app/api/submit/route.ts:35 | a page whose first title tag is `<title>x</title>` yields `x` |
| Submit.ReadPage | src/app/api/submit/route.ts:26-42 | the scrape yields the page headline and, through `contentText \|\| headline`, the curation text |
| Submit.ContentValueAt | src/app/api/submit/route.ts:38 | a content capture is non-empty and quote-free |
| Submit.FirstNameEnd | src/app/api/submit/route.ts:38 | a `name="description"` attribute found lies within the tag |
| Submit.LastContentValue | src/app/api/submit/route.ts:38 | the greedy `[^>]*` settles on a `content="…"` inside the range |
| Submit.MetaAt | src/app/api/submit/route.ts:38 | a description capture at a `<meta` is non-empty and quote-free |
| Submit.FirstMeta | src/app/api/submit/route.ts:38-39 | the leftmost description capture is non-empty and quote-free |
| Submit.PageHeadline | src/app/api/submit/route.ts:27-36 | the URL when the page cannot be fetched, the trimmed title when one matches |
| Submit.CurationText | src/app/api/submit/route.ts:38-45 | the meta description if found, else the headline |
| Submit.SubmitPublished | src/app/api/submit/route.ts:47 | defines `score >= 4`; the bands are stated by `Submit.SubmitPolicyBands` |
| Submit.SubmitNeedsReview | src/app/api/submit/route.ts:48 | defines `score < 6`; the bands are stated by `Submit.SubmitPolicyBands` |
| Submit.SubmitPolicyBands | src/app/api/submit/route.ts:47-48 | up to 3 unpublished and flagged; 4–5 published and flagged; 6 and up published unflagged |
| Submit.SourceName | src/app/api/submit/route.ts:56 | defines the source name as the host with its first "www." removed; stated by `Submit.SourceNameCases` |
| Submit.SourceNameCases | src/app/api/submit/route.ts:56 | a leading `www.` is dropped; a host with no `www.` anywhere is kept; in `awww.com` the inner `www.` is the one removed |
| Submit.SubmissionDraft | src/app/api/submit/route.ts:50-64 | the row carries url, headline, type, submitter and the submission bands |
| Submit.PostSubmit | src/app/api/submit/route.ts:5-82 | 400 on a missing field, 409 on a stored URL, 500 on a bad URL or insert error (table unchanged); otherwise one row with the next id and the live/pending message |
| Feed.OrDefault | src/app/api/feed/route.ts:8-13 | a parameter, or its default when absent or empty |
| Feed.LimitOf | src/app/api/feed/route.ts:11 | the limit is the requested one capped at 50 |
| Feed.OffsetOf | src/app/api/feed/route.ts:15 | the offset of a page from one on is non-negative |
| Feed.WindowMs | src/app/api/feed/route.ts:30-61 | "new" has no window; "top" looks back 1, 7 or 30 days; hot and anything else 3 days |
| Feed.AiScoreOr5 | src/app/api/feed/route.ts:80 | a missing or zero score counts as 5 |
| Feed.FeedHotScore | src/app/api/feed/route.ts:77-81 | defines `(vote_count + (ai_quality_score \|\| 5)) / (hoursAge + 2)^1.5`, with `Math.pow` a positive parameter; `Feed.HotRanked` orders by it |
| Feed.Scored | src/app/api/feed/route.ts:75-83 | each row gets its hot score, in order |
| Feed.Plain | src/app/api/feed/route.ts:71 | each row is passed on without a score, in order |
| Feed.HotRanked | src/app/api/feed/route.ts:74-85 | the page's scored rows, reordered by descending hot score; every item is a row of the page |
| Feed.MarkVoted | src/app/api/feed/route.ts:88-101 | each item says whether the user voted on it; rows and scores are unchanged |
| Feed.HasMoreMeansNextPage | src/app/api/feed/route.ts:108 | `has_more` holds exactly when the next page is non-empty |
| Feed.Selection | src/app/api/feed/route.ts:19-61 | exactly the published rows of the type within the sort's window |
| Feed.Narrow | src/app/api/feed/route.ts:19-61 | the chained filters compute the selection |
| Feed.PageRows | src/app/api/feed/route.ts:63 | at most `limit` rows, all stored and selected |
| Feed.GetFeed | src/app/api/feed/route.ts:6-113 | total, page, capped limit and `has_more` are right; every item is stored and selected; items are the ordered page, hot-ranked for "hot", with vote marks for a user |
| ContentStore.Where | src/app/api/feed/route.ts:22-26 | an `.eq` filter keeps exactly the matching rows |
| ContentStore.InIdOrderRowsStored | src/app/api/feed/route.ts:19-20 | each listed row is stored under its own id |
| ContentStore.InIdOrderComplete | src/app/api/feed/route.ts:19-20 | every stored row is listed |
| ContentStore.InIdOrderIncreasing | src/app/api/feed/route.ts:19-20 | the listing is in increasing id order |
| ContentStore.ContentTable.Ordered | src/app/api/feed/route.ts:19-20 | the listing holds exactly the stored rows |
| ContentStore.WhereWhere | src/app/api/admin/content/route.ts:27-41 | two chained filters are one filter by the conjunction |
| ContentStore.WhereAll | src/app/api/admin/content/route.ts:27-37 | a status that matches no case filters nothing |
| ContentStore.CountWhere | src/app/api/admin/stats/route.ts:12-17 | an exact count never exceeds the number of rows |
| ContentStore.CountIsFilteredLength | src/app/api/admin/stats/route.ts:12-17 | an exact count is the number of matching rows |
| ContentStore.Page | src/app/api/admin/content/route.ts:43-45 | `range` returns at most `limit` rows, consecutive from the offset |
| ContentStore.PageBounds | src/app/api/admin/content/route.ts:45-56 | a page is non-empty exactly when rows exist at the offset |
| ContentStore.OrderDesc | src/app/api/admin/content/route.ts:44 | `order(…, descending)` is a sorted permutation, and rows with equal keys keep their increasing id order |
| ContentStore.ApproveRows | src/app/api/admin/content/route.ts:79-84 | targeted rows become published and unflagged; others are unchanged |
| ContentStore.DeleteRows | src/app/api/admin/content/route.ts:104-107 | exactly the targeted rows are removed |
| ContentStore.ApproveIdempotent | src/app/api/admin/content/route.ts:79-84 | approving twice is approving once |
| ContentStore.ApproveKeepsKeys | src/app/api/admin/content/route.ts:79-84 | approval keeps ids and URLs, so URLs stay unique |
| ContentStore.DeleteIdempotent | src/app/api/admin/content/route.ts:104-107 | deleting twice is deleting once; no target survives |
| ContentStore.StoredUrlsInsert | src/app/api/cron/crawl/route.ts:80-93 | a row stored under a fresh id adds its URL and no other |
| ContentStore.ContentTable.Insert | src/app/api/submit/route.ts:50-66 | a new URL gets the next id; a stored URL changes nothing |
| ContentStore.ContentTable.Approve | src/app/api/admin/content/route.ts:81-84 | the table becomes the approved rows |
| ContentStore.ContentTable.Delete | src/app/api/admin/content/route.ts:104-107 | the table loses the targeted rows |
| Sorting.InsertDesc | src/app/api/feed/route.ts:84 | insertion adds exactly the element |
| Sorting.InsertDescSorted | src/app/api/feed/route.ts:84 | insertion into a sorted sequence keeps it sorted |
| Sorting.InsertDescBounded | src/app/api/feed/route.ts:84 | insertion brings in no key above a bound that the input and the element respect |
| Sorting.SortDesc | src/app/api/feed/route.ts:84 | the sort is a permutation |
| Sorting.SortDescSorted | src/app/api/feed/route.ts:84 | the sort's result is in descending key order |
| Sorting.SortDescKeepsSorted | src/app/api/feed/route.ts:84 | an already ordered sequence comes back unchanged |
| Sorting.InsertDescWithKey | src/app/api/feed/route.ts:84 | insertion puts the element ahead of those with its key and keeps the order among the rest |
| Sorting.SortDescStable | src/app/api/feed/route.ts:84 | the sort is stable: for every key, the elements carrying it come out in input order |
| AdminContent.StatusMatches | src/app/api/admin/content/route.ts:27-37 | defines the status switch: "review", "unpublished", "published", anything else unfiltered; stated by `AdminContent.StatusesPartition` and `AdminStats.QueueCountsAddUp` |
| AdminContent.StatusesPartition | src/app/api/admin/content/route.ts:27-37 | every row is in exactly one of "review", "unpublished", "published" |
| AdminContent.ApprovedRowIsPublished | src/app/api/admin/content/route.ts:79 | an approved row lands in the "published" queue |
| AdminContent.OffsetOf | src/app/api/admin/content/route.ts:19 | the offset of a page from one on is non-negative |
| AdminContent.Queue | src/app/api/admin/content/route.ts:27-41 | exactly the rows of the status and type |
| AdminContent.Narrow | src/app/api/admin/content/route.ts:23-41 | the query builder computes the queue |
| AdminContent.QueuePage | src/app/api/admin/content/route.ts:43-45 | at most `limit` rows, all stored and in the queue |
| AdminContent.GetQueue | src/app/api/admin/content/route.ts:9-58 | 401 exactly on a wrong header; items are the newest-first page; total and `has_more` are exact |
| AdminContent.Targets | src/app/api/admin/content/route.ts:73 | `ids` when given, even empty, else the single `id` |
| AdminContent.PatchQueue | src/app/api/admin/content/route.ts:60-91 | 401, 400 "Missing id/ids and action", 400 "Invalid action", 500 on a store error; success exactly for "approve", then targets approved and `updated` is the target count |
| AdminContent.DeleteFromQueue | src/app/api/admin/content/route.ts:93-114 | 401 or 500 change nothing; otherwise targets deleted and `deleted` is the target count |
| AdminContent.DeleteWithoutTargetsRemovesNothing | src/app/api/admin/content/route.ts:100-113 | a delete without `id` or `ids` removes nothing but reports one deletion |
| AdminStats.CountOrZero | src/app/api/admin/stats/route.ts:20-23 | a failed count shows 0, otherwise the exact count |
| AdminStats.GetStats | src/app/api/admin/stats/route.ts:4-25 | 401 exactly on a wrong header; each figure is its queue's size, or 0 if that count failed |
| AdminStats.QueueCountsAddUp | src/app/api/admin/stats/route.ts:12-17 | the three queue counts add up to the row count |
| AdminStats.StatsAddUp | src/app/api/admin/stats/route.ts:19-24 | with no failed count, review + unpublished + published = all |
| AdminStats.ReviewCountIsQueueTotal | src/app/api/admin/stats/route.ts:13 | the review figure counts the rows the default queue listing shows |
| Profile.MatchesCharset | src/app/api/profile/route.ts:48 | `^[a-zA-Z0-9_-]+$` holds exactly for non-empty names of those characters |
| Profile.CheckUsername | src/app/api/profile/route.ts:41-50 | a name passes exactly when trimmed it is 2–30 allowed characters; too short and too long get their messages |
| Profile.CheckTrimmed | src/app/api/profile/route.ts:43-50 | on a trimmed name: none of the three messages exactly for a well-formed name; the length messages for the lengths |
| Profile.WellFormedIsTrimmed | src/app/api/profile/route.ts:41-50 | a well-formed name is its own trim and passes the checks |
| Profile.Applied | src/app/api/profile/route.ts:63-76 | each present key replaces its field; the rest of the row is kept |
| Profile.OwnNameIsFree | src/app/api/profile/route.ts:52-57 | re-submitting one's own name never collides |
| Profile.ProfileTable.Update | src/app/api/profile/route.ts:73-78 | only the caller's row changes; usernames stay unique |
| Profile.GetProfile | src/app/api/profile/route.ts:4-24 | 401 without a session; the caller's row and e-mail exactly when the row can be read |
| Profile.PatchProfile | src/app/api/profile/route.ts:26-88 | 401, then the three 400 name messages, 409 on a taken name, 400 with no fields, 500 on errors (nothing changes); on success only the caller's row changes |
| Profile.RenamedRowIsUnique | src/app/api/profile/route.ts:52-63 | after an accepted rename no other row holds the new name |
| Profile.ReplaceKeepsUnique | src/app/api/profile/route.ts:52-63 | replacing one row by a profile whose name no other row holds keeps names unique |
| VoteStore.Toggled | src/app/api/vote/route.ts:22-38 | a toggle flips the pair and no other |
| VoteStore.ToggleTwice | src/app/api/vote/route.ts:22-38 | voting twice restores the table |
| VoteStore.TogglesCommute | src/app/api/vote/route.ts:22-38 | votes on different pairs commute |
| VoteStore.PairTable.Add | src/app/api/vote/route.ts:29-32 | the insert adds the pair |
| VoteStore.PairTable.Remove | src/app/api/vote/route.ts:24 | the delete removes the pair |
| VoteRoute.ToggleVote | src/app/api/vote/route.ts:4-42 | 500 on a body that is not JSON, 400 on a missing field; success exactly when the vote was held or the insert succeeds; a held vote is removed (unless the delete fails) with `voted: false`; otherwise added with `voted: true`, or 500 with the insert's message |
| VoteRoute.PostVote | src/app/api/vote/route.ts:4-42 | the toggle over content votes: success exactly when the vote was held or the insert succeeds; the votes become the toggle and `voted` says whether the vote now exists; 500 with the insert's message otherwise |
| CommentVoteRoute.PostCommentVote | src/app/api/comment-vote/route.ts:4-39 | the same toggle over comment votes, with its own 400 message, the same success condition and the insert's 500 |
| Comments.Missing | src/app/api/comments/route.ts:10 | rejects exactly a missing id, a missing user or an all-blank body; throws on a non-string body |
| Comments.CommentTable.Insert | src/app/api/comments/route.ts:14-23 | the row gets the next, unused id |
| Comments.PostComment | src/app/api/comments/route.ts:4-33 | 400 "Missing required fields", 500 on errors (nothing changes); otherwise one new row with the trimmed, non-blank body and `parent_id` |

## Left out

- I/O is left out: network fetches, the language-model API, the database client and logging become parameters or disappear. Timeouts and `User-Agent` headers are not modelled.
- Concurrency is left out. Each handler runs alone, so races between the duplicate-URL or username check and the write are not modelled.
- Utils.HotScore: `Math.pow` is a parameter known only to be positive, and floating-point division is exact real division.
- The hour fractions and the `Date` parsing of ISO strings are integer milliseconds.
- Utils.timeAgo and `CONTENT_TYPE_CONFIG` are left out: display formatting and constants.
- Lengths and slices count Unicode scalar values, not the UTF-16 code units of JavaScript.
- Utils.Truncate: its cut point may differ from the source for text outside the Basic Multilingual Plane, because of those units.
- Curator.ContentPrefix: the same holds for its 2000-character cut.
- `Math.round` and `parseInt` returning `NaN` are left out, and `JSON.parse` is a parameter. A classifier score that is not a number is therefore not modelled.
- Feed.GetFeed: requires `page` and `limit` to have parsed to numbers of at least 1. For zero, negative or `NaN` values the source relies on the database's range semantics, which are not modelled.
- Feed.GetFeed: models a storage read that succeeds. In the source a read error gives 500 with the storage message.
- AdminContent.GetQueue: requires `page` and `limit` of at least 1, for the same reason as the feed.
- AdminContent.GetQueue: models a storage read that succeeds; a read error gives 500 in the source.
- The feed's `total` and the queue's `total` are exact counts; the source's `null` count is not modelled.
- Rows with equal ordering keys come back in increasing id order. The database makes no promise about ties.
- Read errors of the duplicate and existing-vote lookups are left out; the source ignores them and treats them as "not found".
- CronCrawl.CrawlDueSource: the `sources` update and the `crawl_log` insert always succeed in the model. The source ignores both results (src/app/api/cron/crawl/route.ts:111-117), so there a failed write leaves `last_crawled_at` unchanged or loses the log row while the run still reports the source.
- CronCrawl.ProcessSource: a throw is modelled only for the insert (`insertOutcome`). The crawl and the classifier never throw, because the adapters and the curator catch their own errors.
- The error messages of exceptions (a body that is not JSON, `trim` on a non-string, a failed insert) are parameters, since their text belongs to the runtime or the storage layer.
- Submit.PostSubmit: a URL that `new URL` rejects gives 500 "Invalid URL". Parsing the host is a parameter.
- Submit.PostSubmit: a request body that is not JSON (a 500 in the source) is not modelled; the request is already decoded.
- Crawler.ExtractThumbnail: media attributes that are not strings are not modelled.
- Admin PATCH and DELETE with a body that is not JSON throw outside any `try`. The framework's 500 for that case is not modelled.
- Content and comment ids are natural numbers from a counter, not UUIDs. A falsy id in a request is modelled only as an absent one.
- Profile.PatchProfile: an `avatar_url` that is neither a string nor null is not modelled.
- Comments.PostComment: the joined profile in the reply is not modelled.
- The fallback reason of the curator keeps the source's characters `â€”` where an em dash was evidently meant.
- The UI pages, the auth callback and sign-out routes, `test-crawl.js` and `src/app/api/content/[id]/route.ts` are not part of this model.
