/** src/lib/crawler.ts: the two source adapters (syndicated feed and YouTube
    channel listing), the thumbnail priority chain and the dispatch on the
    source's crawl type. The network fetches are parameters returning
    `None` where the call throws. */
module Crawler {
  import opened Strings
  import opened Types

  /** A candidate produced by an adapter (`CrawledItem`). */
  datatype CrawledItem = CrawledItem(
    url: string,
    headline: string,
    content: string,
    author: Option<string>,
    source_name: string,
    content_type: string,
    thumbnail_url: Option<string>,
    source_published_at: Option<string>)

  /** The result of code that can throw. */
  datatype Outcome<T> = Done(value: T) | Threw

  /** `xs.map(f)` with an `f` that can throw: the first throw ends the map,
      otherwise every element is mapped in order. */
  function MapAll<A, B>(f: A -> Outcome<B>, xs: seq<A>): (r: Outcome<seq<B>>)
    ensures r.Done? <==> forall i :: 0 <= i < |xs| ==> f(xs[i]).Done?
    ensures r.Done? ==> |r.value| == |xs| && forall i :: 0 <= i < |xs| ==> r.value[i] == f(xs[i]).value
  {
    if xs == [] then Done([])
    else
      match f(xs[0])
      case Threw => Threw
      case Done(first) =>
        match MapAll(f, xs[1..])
        case Threw => Threw
        case Done(rest) =>
          assert forall i :: 1 <= i < |xs| ==> xs[i] == xs[1..][i - 1];
          Done([first] + rest)
  }

  // ---------------------------------------------------------------------
  // Feed entries as the feed parser hands them over
  // ---------------------------------------------------------------------

  datatype Enclosure = Enclosure(url: Option<string>, mimeType: Option<string>)

  /** The `$` attribute object of a `media:*` extension element. */
  datatype MediaAttrs = MediaAttrs(url: Option<string>, medium: Option<string>)

  /** A `media:*` element; `attrs` is `None` when it has no `$` object. */
  datatype MediaElement = MediaElement(attrs: Option<MediaAttrs>)

  datatype FeedEntry = FeedEntry(
    link: Option<string>,
    guid: Option<string>,
    title: Option<string>,
    contentSnippet: Option<string>,
    content: Option<string>,
    summary: Option<string>,
    creator: Option<string>,
    author: Option<string>,
    isoDate: Option<string>,
    pubDate: Option<string>,
    enclosure: Option<Enclosure>,
    mediaThumbnail: Option<MediaElement>,
    mediaContent: Option<MediaElement>)

  /** The number of feed entries the feed adapter keeps. */
  const FeedItemCap: nat := 20

  // ---------------------------------------------------------------------
  // extractThumbnail
  // ---------------------------------------------------------------------

  /** A non-empty double-quoted `src="…"` attribute at the start of `t`:
      its value. */
  function SrcValueAt(t: string): (r: Option<string>)
    ensures r.Some? ==> r.value != [] && '"' !in r.value
                        && StartsWith(t, "src=\"" + r.value + "\"")
  {
    if StartsWith(t, "src=\"") then
      var n := RunLength(t[5..], c => c != '"');
      if 0 < n && 5 + n < |t| then
        var v := t[5..5 + n];
        assert t[..5 + n + 1] == "src=\"" + v + "\"";
        Some(v)
      else None
    else None
  }

  /** The `src` value of the match that starts at the latest position `q`
      with `lo <= q < hi`: the greedy `[^>]+` before `src=` tries the
      longest span first. */
  function LastSrcIn(t: string, lo: nat, hi: nat): (r: Option<string>)
    requires hi <= |t| + 1
    ensures r.Some? ==> exists q :: lo <= q < hi && SrcValueAt(t[q..]) == r
    decreases hi
  {
    if hi <= lo then None
    else
      match SrcValueAt(t[hi - 1..])
      case Some(v) => Some(v)
      case None => LastSrcIn(t, lo, hi - 1)
  }

  /** No `>` between positions `lo` and `hi`. */
  predicate NoTagEnd(t: string, lo: nat, hi: nat)
    requires hi <= |t|
  {
    forall j :: lo <= j < hi ==> t[j] != '>'
  }

  /** The capture of `/<img[^>]+src="([^"]+)"/` for a match starting at
      position `p`, where `t` has `<img`. */
  function ImgSrcAt(t: string, p: nat): (r: Option<string>)
    requires p + 4 <= |t| && StartsWith(t[p..], "<img")
    ensures r.Some? ==> exists q :: p + 5 <= q <= |t| && SrcValueAt(t[q..]) == r
                                    && NoTagEnd(t, p + 4, q)
  {
    var g := RunLength(t[p + 4..], c => c != '>');
    assert forall j :: p + 4 <= j < p + 4 + g ==> t[j] != '>' by {
      forall j | p + 4 <= j < p + 4 + g ensures t[j] != '>' {
        assert t[j] == t[p + 4..][j - p - 4];
      }
    }
    LastSrcIn(t, p + 5, p + 5 + g)
  }

  /** `t.match(/<img[^>]+src="([^"]+)"/)`: the capture of the leftmost
      match, trying each `<img` from position `from` on. */
  function FirstImgSrc(t: string, from: nat): (r: Option<string>)
    requires from <= |t|
    ensures r.Some? ==> r.value != [] && '"' !in r.value
    decreases |t| - from
  {
    if from + 4 > |t| then None
    else if StartsWith(t[from..], "<img") then
      match ImgSrcAt(t, from)
      case Some(v) => Some(v)
      case None => FirstImgSrc(t, from + 1)
    else FirstImgSrc(t, from + 1)
  }

  /** `extractThumbnail(item)`: an image enclosure, else a media thumbnail,
      else image media content, else an `<img src>` in the content, else
      null. Reading `.url` of a `media:*` element that has no `$` object
      throws. */
  function ExtractThumbnail(e: FeedEntry): Outcome<Option<string>>
  {
    if e.enclosure.Some? && Truthy(e.enclosure.value.url)
       && e.enclosure.value.mimeType.Some? && StartsWith(e.enclosure.value.mimeType.value, "image")
    then Done(e.enclosure.value.url)
    else if e.mediaThumbnail.Some? && e.mediaThumbnail.value.attrs.None? then Threw
    else if e.mediaThumbnail.Some? && Truthy(e.mediaThumbnail.value.attrs.value.url)
    then Done(e.mediaThumbnail.value.attrs.value.url)
    else if e.mediaContent.Some? && e.mediaContent.value.attrs.None? then Threw
    else if e.mediaContent.Some? && Truthy(e.mediaContent.value.attrs.value.url)
            && e.mediaContent.value.attrs.value.medium == Some("image")
    then Done(e.mediaContent.value.attrs.value.url)
    else
      var body := FirstTruthyOr([e.content], "");
      Done(FirstImgSrc(body, 0))
  }

  /** An image enclosure with a URL wins over every later rule. */
  lemma ImageEnclosureWins(e: FeedEntry, url: string, mimeType: string)
    requires e.enclosure == Some(Enclosure(Some(url), Some(mimeType)))
    requires url != "" && StartsWith(mimeType, "image")
    ensures ExtractThumbnail(e) == Done(Some(url))
  {
  }

  /** Without an image enclosure, a media thumbnail URL wins over media
      content and embedded images. */
  lemma MediaThumbnailBeatsContent(e: FeedEntry, url: string)
    requires e.enclosure.None? && e.mediaThumbnail == Some(MediaElement(Some(MediaAttrs(Some(url), None))))
    requires url != ""
    ensures ExtractThumbnail(e) == Done(Some(url))
  {
  }

  /** A thumbnail found by the chain is never the empty string, and the
      chain throws only on a `media:*` element without attributes. */
  lemma ThumbnailIsNonEmpty(e: FeedEntry)
    ensures ExtractThumbnail(e).Done? && ExtractThumbnail(e).value.Some? ==> ExtractThumbnail(e).value.value != ""
    ensures ExtractThumbnail(e).Threw? ==>
      (e.mediaThumbnail.Some? && e.mediaThumbnail.value.attrs.None?)
      || (e.mediaContent.Some? && e.mediaContent.value.attrs.None?)
  {
  }

  // ---------------------------------------------------------------------
  // The syndicated-feed adapter (crawlRSS)
  // ---------------------------------------------------------------------

  /** One feed entry as a candidate: the `||` fallback chains of the
      mapper, with kind and source name taken from the source. */
  function MapFeedEntry(source: Source, e: FeedEntry): (r: Outcome<CrawledItem>)
    ensures r.Done? <==> ExtractThumbnail(e).Done?
    ensures r.Done? ==> r.value.headline != ""
                        && r.value.source_name == source.name
                        && r.value.content_type == source.content_type
  {
    match ExtractThumbnail(e)
    case Threw => Threw
    case Done(thumbnail) =>
      Done(CrawledItem(
        url := FirstTruthyOr([e.link, e.guid], ""),
        headline := FirstTruthyOr([e.title], "Untitled"),
        content := FirstTruthyOr([e.contentSnippet, e.content, e.summary, e.title], ""),
        author := FirstTruthy([e.creator, e.author]),
        source_name := source.name,
        content_type := source.content_type,
        thumbnail_url := thumbnail,
        source_published_at := FirstTruthy([e.isoDate, e.pubDate])))
  }

  /** The fallbacks of the feed mapper: url is the link, else the guid,
      else ""; the headline is the title, else "Untitled"; the content is
      the first truthy of snippet, content, summary and title, else "". */
  lemma FeedEntryFallbacks(source: Source, e: FeedEntry)
    requires ExtractThumbnail(e).Done?
    ensures var c := MapFeedEntry(source, e).value;
      && (Truthy(e.link) ==> c.url == e.link.value)
      && (!Truthy(e.link) && Truthy(e.guid) ==> c.url == e.guid.value)
      && (!Truthy(e.link) && !Truthy(e.guid) ==> c.url == "")
      && (Truthy(e.title) ==> c.headline == e.title.value)
      && (!Truthy(e.title) ==> c.headline == "Untitled")
      && (Truthy(e.contentSnippet) ==> c.content == e.contentSnippet.value)
      && (!Truthy(e.contentSnippet) && Truthy(e.content) ==> c.content == e.content.value)
      && (!Truthy(e.contentSnippet) && !Truthy(e.content) && Truthy(e.summary) ==> c.content == e.summary.value)
      && (!Truthy(e.contentSnippet) && !Truthy(e.content) && !Truthy(e.summary) ==>
            c.content == (if Truthy(e.title) then e.title.value else ""))
  {
    var urls := [e.link, e.guid];
    assert !Truthy(urls[0]) ==> FirstTruthy(urls) == FirstTruthy(urls[1..]);
    assert !Truthy(urls[1]) ==> FirstTruthy(urls[1..]) == FirstTruthy(urls[1..][1..]);
    var texts := [e.contentSnippet, e.content, e.summary, e.title];
    assert !Truthy(texts[0]) ==> FirstTruthy(texts) == FirstTruthy(texts[1..]);
    assert !Truthy(texts[1]) ==> FirstTruthy(texts[1..]) == FirstTruthy(texts[2..]);
    assert !Truthy(texts[2]) ==> FirstTruthy(texts[2..]) == FirstTruthy(texts[3..]);
    assert !Truthy(texts[3]) ==> FirstTruthy(texts[3..]) == FirstTruthy(texts[4..]);
  }

  /** `entries.map(mapper)`: throws if any entry's mapping throws. */
  function MapFeedEntries(source: Source, entries: seq<FeedEntry>): (r: Outcome<seq<CrawledItem>>)
    ensures r.Done? <==> forall i :: 0 <= i < |entries| ==> MapFeedEntry(source, entries[i]).Done?
    ensures r.Done? ==> |r.value| == |entries|
                        && forall i :: 0 <= i < |entries| ==> r.value[i] == MapFeedEntry(source, entries[i]).value
  {
    MapAll(e => MapFeedEntry(source, e), entries)
  }

  /** Mapping the first `n` elements throws exactly when one of them
      throws. */
  lemma MapAllPrefix<A, B>(f: A -> Outcome<B>, xs: seq<A>, n: nat)
    requires n <= |xs|
    ensures (exists i :: 0 <= i < n && f(xs[i]).Threw?) <==> MapAll(f, xs[..n]).Threw?
    ensures MapAll(f, xs[..n]).Done? ==>
      |MapAll(f, xs[..n]).value| == n && forall i :: 0 <= i < n ==> MapAll(f, xs[..n]).value[i] == f(xs[i]).value
  {
    assert forall i :: 0 <= i < n ==> xs[..n][i] == xs[i];
  }

  /** How many of `n` feed entries the adapter keeps: `slice(0, 20)`. */
  function KeptCount(n: nat): (k: nat)
    ensures k <= n && k <= FeedItemCap
    ensures k == n || k == FeedItemCap
  {
    if n <= FeedItemCap then n else FeedItemCap
  }

  /** `crawlRSS(source)`: the first twenty entries, mapped in feed order;
      `[]` when the fetch or a mapping throws. `feed` is what the feed
      parser returns for the source's URL (an absent item list is an
      empty one). */
  function CrawlFeed(source: Source, feed: Option<seq<FeedEntry>>): (r: seq<CrawledItem>)
    ensures |r| <= FeedItemCap
    ensures feed.None? ==> r == []
    ensures feed.Some? && (exists i :: 0 <= i < KeptCount(|feed.value|) && MapFeedEntry(source, feed.value[i]).Threw?) ==>
      r == []
    ensures feed.Some? && (forall i :: 0 <= i < KeptCount(|feed.value|) ==> MapFeedEntry(source, feed.value[i]).Done?) ==>
      |r| == KeptCount(|feed.value|)
    ensures feed.Some? ==> forall i :: 0 <= i < |r| ==> i < |feed.value| && MapFeedEntry(source, feed.value[i]) == Done(r[i])
  {
    match feed
    case None => []
    case Some(entries) =>
      var kept := entries[..KeptCount(|entries|)];
      MapAllPrefix(e => MapFeedEntry(source, e), entries, KeptCount(|entries|));
      match MapFeedEntries(source, kept)
      case Threw => []
      case Done(items) => items
  }

  // ---------------------------------------------------------------------
  // The channel-listing adapter (crawlYouTubeAPI)
  // ---------------------------------------------------------------------

  datatype YtThumbnail = YtThumbnail(url: Option<string>)
  datatype YtThumbnails = YtThumbnails(high: Option<YtThumbnail>, medium: Option<YtThumbnail>, defaultSize: Option<YtThumbnail>)
  datatype YtSnippet = YtSnippet(
    title: Option<string>,
    description: Option<string>,
    channelTitle: Option<string>,
    publishedAt: Option<string>,
    thumbnails: Option<YtThumbnails>)
  datatype YtVideoRef = YtVideoRef(videoId: Option<string>)
  datatype YtItem = YtItem(id: Option<YtVideoRef>, snippet: Option<YtSnippet>)

  /** The decoded reply of the search endpoint: whether it carries an
      `error` object, and its `items` list if present. */
  datatype YtReply = YtReply(hasError: bool, items: Option<seq<YtItem>>)

  const WatchUrlPrefix: string := "https://www.youtube.com/watch?v="

  /** The search request: the channel's ten newest videos. */
  function SearchUrl(channelId: string, apiKey: string): string {
    "https://www.googleapis.com/youtube/v3/search?"
      + "part=snippet&channelId=" + channelId + "&order=date&maxResults=10&type=video&key=" + apiKey
  }

  function ThumbUrl(t: Option<YtThumbnail>): Option<string> {
    if t.Some? then t.value.url else None
  }

  /** `high?.url || medium?.url || default?.url || null`. */
  function YtThumbnailUrl(t: Option<YtThumbnails>): (r: Option<string>)
  {
    match t
    case None => None
    case Some(ts) => FirstTruthy([ThumbUrl(ts.high), ThumbUrl(ts.medium), ThumbUrl(ts.defaultSize)])
  }

  /** The high-resolution thumbnail wins, then the medium one, then the
      default one; with none of them the thumbnail is null. */
  lemma YtThumbnailPriority(ts: YtThumbnails)
    ensures Truthy(ThumbUrl(ts.high)) ==> YtThumbnailUrl(Some(ts)) == ThumbUrl(ts.high)
    ensures !Truthy(ThumbUrl(ts.high)) && Truthy(ThumbUrl(ts.medium)) ==>
              YtThumbnailUrl(Some(ts)) == ThumbUrl(ts.medium)
    ensures !Truthy(ThumbUrl(ts.high)) && !Truthy(ThumbUrl(ts.medium)) && Truthy(ThumbUrl(ts.defaultSize)) ==>
              YtThumbnailUrl(Some(ts)) == ThumbUrl(ts.defaultSize)
    ensures !Truthy(ThumbUrl(ts.high)) && !Truthy(ThumbUrl(ts.medium)) && !Truthy(ThumbUrl(ts.defaultSize)) ==>
              YtThumbnailUrl(Some(ts)) == None
  {
    var opts := [ThumbUrl(ts.high), ThumbUrl(ts.medium), ThumbUrl(ts.defaultSize)];
    assert opts[1..] == [ThumbUrl(ts.medium), ThumbUrl(ts.defaultSize)];
    assert opts[1..][1..] == [ThumbUrl(ts.defaultSize)];
    assert opts[1..][1..][1..] == [];
    assert !Truthy(opts[0]) ==> FirstTruthy(opts) == FirstTruthy(opts[1..]);
    assert !Truthy(opts[1]) ==> FirstTruthy(opts[1..]) == FirstTruthy(opts[1..][1..]);
  }

  /** One listing item as a candidate; a missing `id` or `snippet` object
      throws, a missing `videoId` is spelled "undefined" by the template. */
  function MapYtItem(source: Source, item: YtItem): (r: Outcome<CrawledItem>)
    ensures r.Done? <==> item.id.Some? && item.snippet.Some?
    ensures r.Done? ==> StartsWith(r.value.url, WatchUrlPrefix) && r.value.content_type == VideoType
                        && r.value.headline != "" && r.value.source_name == source.name
    ensures r.Done? ==>
      && r.value.url[|WatchUrlPrefix|..] == (if item.id.value.videoId.Some? then item.id.value.videoId.value else "undefined")
      && r.value.thumbnail_url == YtThumbnailUrl(item.snippet.value.thumbnails)
  {
    if item.id.None? || item.snippet.None? then Threw
    else
      var sn := item.snippet.value;
      var videoId := if item.id.value.videoId.Some? then item.id.value.videoId.value else "undefined";
      Done(CrawledItem(
        url := WatchUrlPrefix + videoId,
        headline := FirstTruthyOr([sn.title], "Untitled"),
        content := FirstTruthyOr([sn.description, sn.title], ""),
        author := FirstTruthy([sn.channelTitle]),
        source_name := source.name,
        content_type := VideoType,
        thumbnail_url := YtThumbnailUrl(sn.thumbnails),
        source_published_at := FirstTruthy([sn.publishedAt])))
  }

  function MapYtItems(source: Source, items: seq<YtItem>): (r: Outcome<seq<CrawledItem>>)
    ensures r.Done? <==> forall i :: 0 <= i < |items| ==> MapYtItem(source, items[i]).Done?
    ensures r.Done? ==> |r.value| == |items|
                        && forall i :: 0 <= i < |items| ==> r.value[i] == MapYtItem(source, items[i]).value
  {
    MapAll(item => MapYtItem(source, item), items)
  }

  /** `source.config?.channel_id`. */
  function ChannelId(source: Source): Option<string> {
    if source.config.Some? && "channel_id" in source.config.value
    then Some(source.config.value["channel_id"]) else None
  }

  /** The request succeeded, and its reply carries no error and a non-empty
      item list. */
  predicate ListingHasItems(reply: Option<YtReply>) {
    reply.Some? && !reply.value.hasError && reply.value.items.Some? && reply.value.items.value != []
  }

  /** `crawlYouTubeAPI(source)`: `[]` without an API key or channel id, when
      the request throws, when the reply carries an error, or when it lists
      nothing; otherwise every listed video as a candidate. `fetchListing`
      is the decoded reply for a request URL. */
  function CrawlYouTube(source: Source, apiKey: Option<string>,
                        fetchListing: string -> Option<YtReply>): (r: seq<CrawledItem>)
    ensures !Truthy(apiKey) || !Truthy(ChannelId(source)) ==> r == []
    ensures forall i :: 0 <= i < |r| ==>
      StartsWith(r[i].url, WatchUrlPrefix) && r[i].content_type == VideoType && r[i].headline != ""
    ensures Truthy(apiKey) && Truthy(ChannelId(source)) ==>
      var reply := fetchListing(SearchUrl(ChannelId(source).value, apiKey.value));
      if !ListingHasItems(reply) then r == []
      else
        var items := reply.value.items.value;
        && ((exists i :: 0 <= i < |items| && MapYtItem(source, items[i]).Threw?) ==> r == [])
        && ((forall i :: 0 <= i < |items| ==> MapYtItem(source, items[i]).Done?) ==>
              |r| == |items| && forall i :: 0 <= i < |items| ==> r[i] == MapYtItem(source, items[i]).value)
  {
    if !Truthy(apiKey) || !Truthy(ChannelId(source)) then []
    else
      match fetchListing(SearchUrl(ChannelId(source).value, apiKey.value))
      case None => []
      case Some(reply) =>
        if !ListingHasItems(Some(reply)) then []
        else
          match MapYtItems(source, reply.items.value)
          case Threw => []
          case Done(items) => items
  }

  /** An error reply yields no candidates. */
  lemma YouTubeErrorYieldsNothing(source: Source, apiKey: Option<string>,
                                  fetchListing: string -> Option<YtReply>)
    requires Truthy(apiKey) && Truthy(ChannelId(source))
    requires var reply := fetchListing(SearchUrl(ChannelId(source).value, apiKey.value));
             reply.Some? && reply.value.hasError
    ensures CrawlYouTube(source, apiKey, fetchListing) == []
  {
  }

  // ---------------------------------------------------------------------
  // crawlSource
  // ---------------------------------------------------------------------

  /** The outside world the adapters talk to: the parsed feed for a URL,
      the YouTube API key of the environment, and the decoded listing reply
      for a request URL. `None` stands for a call that throws. */
  datatype CrawlEnv = CrawlEnv(
    fetchFeed: string -> Option<seq<FeedEntry>>,
    youTubeApiKey: Option<string>,
    fetchListing: string -> Option<YtReply>)

  /** `crawlSource(source)`: dispatch on the crawl type. */
  function CrawlSource(source: Source, env: CrawlEnv): (r: seq<CrawledItem>)
    ensures source.crawl_type == "rss" || source.crawl_type == "podcast_rss" ==>
      r == CrawlFeed(source, env.fetchFeed(source.url))
    ensures source.crawl_type == "youtube_api" ==>
      r == CrawlYouTube(source, env.youTubeApiKey, env.fetchListing)
    ensures source.crawl_type !in {"rss", "podcast_rss", "youtube_api"} ==> r == []
  {
    match source.crawl_type
    case "rss" => CrawlFeed(source, env.fetchFeed(source.url))
    case "youtube_api" => CrawlYouTube(source, env.youTubeApiKey, env.fetchListing)
    case "podcast_rss" => CrawlFeed(source, env.fetchFeed(source.url))
    case _ => []
  }

  /** Whatever the source and the outside world, a crawl never yields more
      than twenty feed candidates, and every candidate has a headline. */
  lemma CrawlSourceBounds(source: Source, env: CrawlEnv)
    ensures source.crawl_type != "youtube_api" ==> |CrawlSource(source, env)| <= FeedItemCap
    ensures forall i :: 0 <= i < |CrawlSource(source, env)| ==> CrawlSource(source, env)[i].headline != ""
  {
    var r := CrawlSource(source, env);
    if source.crawl_type == "rss" || source.crawl_type == "podcast_rss" {
      var feed := env.fetchFeed(source.url);
      forall i | 0 <= i < |r| ensures r[i].headline != "" {
        assert r[i] == MapFeedEntry(source, feed.value[i]).value;
      }
    }
  }
}
