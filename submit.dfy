/** src/app/api/submit/route.ts: a signed-in reader submits a link. The
    page fetch, the URL parser's host name, the classifier and the storage
    layer's verdict on the insert are parameters. */
module Submit {
  import opened Strings
  import opened Types
  import opened Curator
  import opened ContentStore

  // ---------------------------------------------------------------------
  // The title: /<title[^>]*>([^<]+)<\/title>/i
  // ---------------------------------------------------------------------

  /** The character classes of the expressions below. */
  predicate NotTagEnd(c: char) { c != '>' }
  predicate NotTagStart(c: char) { c != '<' }

  /** The capture of the title expression for a match starting at `p`,
      where `t` has `<title` (in any case) at `p`. `[^>]*` can only end at
      the first `>`, and `[^<]+` can only end right before a `<`. */
  function TitleAt(t: string, p: nat): (r: Option<string>)
    requires p + 6 <= |t| && StartsWithIgnoreCase(t[p..], "<title")
    ensures r.Some? ==> r.value != [] && '<' !in r.value
  {
    var g := RunLength(t[p + 6..], NotTagEnd);
    if p + 6 + g == |t| then None
    else
      var v := p + 7 + g;
      var n := RunLength(t[v..], NotTagStart);
      if 0 < n && StartsWithIgnoreCase(t[v + n..], "</title>") then
        assert forall i :: 0 <= i < n ==> t[v..v + n][i] == t[v..][i];
        Some(t[v..v + n])
      else None
  }

  /** The capture of the leftmost match, trying each `<title` from `from`
      on. */
  function FirstTitle(t: string, from: nat): (r: Option<string>)
    requires from <= |t|
    ensures r.Some? ==> r.value != [] && '<' !in r.value
    decreases |t| - from
  {
    if from + 6 > |t| then None
    else if StartsWithIgnoreCase(t[from..], "<title") then
      match TitleAt(t, from)
      case Some(v) => Some(v)
      case None => FirstTitle(t, from + 1)
    else FirstTitle(t, from + 1)
  }

  /** No `<title` (in any case) starts before position `to`. */
  predicate NoTitleTagBefore(t: string, to: nat) {
    forall p :: 0 <= p < to && p + 6 <= |t| ==> !StartsWithIgnoreCase(t[p..], "<title")
  }

  lemma {:induction false} FirstTitleSkips(t: string, from: nat, to: nat)
    requires from <= to <= |t| && NoTitleTagBefore(t, to)
    ensures FirstTitle(t, from) == FirstTitle(t, to)
    decreases (to as int) - from
  {
    if from < to && from + 6 <= |t| {
      FirstTitleSkips(t, from + 1, to);
    }
  }

  lemma {:induction false} RunLengthStopsAt(x: string, rest: string, ok: char -> bool)
    requires forall i :: 0 <= i < |x| ==> ok(x[i])
    requires rest != [] && !ok(rest[0])
    ensures RunLength(x + rest, ok) == |x|
  {
    if x != [] {
      assert (x + rest)[1..] == x[1..] + rest;
      RunLengthStopsAt(x[1..], rest, ok);
    }
  }

  /** A literal without upper-case letters matches itself ignoring case. */
  lemma CaseFreeMatch(s: string, w: string)
    requires StartsWith(s, w) && forall i :: 0 <= i < |w| ==> !('A' <= w[i] <= 'Z')
    ensures StartsWithIgnoreCase(s, w)
  {
    assert forall i :: 0 <= i < |w| ==> s[..|w|][i] == s[i];
  }

  /** The opening tag of `<title>x</title>…` at `p`. */
  lemma TitleOpenTag(t: string, p: nat, x: string, after: string)
    requires p <= |t| && t[p..] == "<title>" + x + "</title>" + after
    ensures p + 7 <= |t| && StartsWithIgnoreCase(t[p..], "<title") && RunLength(t[p + 6..], NotTagEnd) == 0
  {
    var u := t[p..];
    assert u[..6] == "<title";
    CaseFreeMatch(u, "<title");
    assert t[p + 6..] == u[6..];
    assert u[6] == '>';
  }

  /** Text free of `<` followed by the closing tag. */
  lemma TextThenClose(w: string, x: string, after: string)
    requires w == x + ("</title>" + after) && '<' !in x
    ensures RunLength(w, NotTagStart) == |x|
    ensures StartsWithIgnoreCase(w[|x|..], "</title>") && w[..|x|] == x
  {
    RunLengthStopsAt(x, "</title>" + after, NotTagStart);
    assert w[|x|..] == "</title>" + after;
    assert ("</title>" + after)[..8] == "</title>";
    CaseFreeMatch("</title>" + after, "</title>");
  }

  /** The text and the closing tag of `<title>x</title>…` at `p`. */
  lemma TitleText(t: string, p: nat, x: string, after: string)
    requires p <= |t| && t[p..] == "<title>" + x + "</title>" + after
    requires '<' !in x
    ensures p + 7 + |x| <= |t|
    ensures RunLength(t[p + 7..], NotTagStart) == |x|
    ensures StartsWithIgnoreCase(t[p + 7 + |x|..], "</title>") && t[p + 7..p + 7 + |x|] == x
  {
    var w := t[p + 7..];
    assert w == x + ("</title>" + after) by {
      assert w == t[p..][7..];
      assert t[p..] == "<title>" + (x + ("</title>" + after));
    }
    TextThenClose(w, x, after);
    assert t[p + 7 + |x|..] == w[|x|..];
    assert t[p + 7..p + 7 + |x|] == w[..|x|];
  }

  /** The title expression at the head of `<title>x</title>…`. */
  lemma TitleAtHead(t: string, p: nat, x: string, after: string)
    requires p <= |t| && t[p..] == "<title>" + x + "</title>" + after
    requires x != [] && '<' !in x
    ensures p + 6 <= |t| && StartsWithIgnoreCase(t[p..], "<title") && TitleAt(t, p) == Some(x)
  {
    TitleOpenTag(t, p, x, after);
    TitleText(t, p, x, after);
  }

  /** A title element at `p` with no `<title` before it is the first title. */
  lemma FirstTitleAt(t: string, p: nat, x: string, after: string)
    requires p <= |t| && t[p..] == "<title>" + x + "</title>" + after
    requires x != [] && '<' !in x
    requires NoTitleTagBefore(t, p)
    ensures FirstTitle(t, 0) == Some(x)
  {
    FirstTitleSkips(t, 0, p);
    TitleAtHead(t, p, x, after);
    assert FirstTitle(t, p) == Some(x);
  }

  /** A page whose first title element is `<title>x</title>`, with `x`
      non-empty and free of `<`, has title `x`. */
  lemma TitleOfPage(before: string, x: string, after: string)
    requires x != [] && '<' !in x
    requires NoTitleTagBefore(before + "<title>" + x + "</title>" + after, |before|)
    ensures FirstTitle(before + "<title>" + x + "</title>" + after, 0) == Some(x)
  {
    var rest := "<title>" + x + "</title>" + after;
    var t := before + rest;
    assert t == before + "<title>" + x + "</title>" + after;
    assert t[|before|..] == rest;
    FirstTitleAt(t, |before|, x, after);
  }

  // ---------------------------------------------------------------------
  // The description:
  // /<meta[^>]*name=["']description["'][^>]*content=["']([^"']+)["']/i
  // ---------------------------------------------------------------------

  predicate IsQuote(c: char) {
    c == '"' || c == '\''
  }

  predicate NotQuote(c: char) { !IsQuote(c) }

  /** `name="description"` (either quote, any case) at position `a`. */
  predicate NameAt(t: string, a: nat) {
    && a + 18 <= |t|
    && StartsWithIgnoreCase(t[a..], "name=") && IsQuote(t[a + 5])
    && StartsWithIgnoreCase(t[a + 6..], "description") && IsQuote(t[a + 17])
  }

  /** `content="…"` at position `c` with a non-empty value closed by a
      quote: the value. `[^"']+` stops only before a quote. */
  function ContentValueAt(t: string, c: nat): (r: Option<string>)
    ensures r.Some? ==> r.value != [] && forall i :: 0 <= i < |r.value| ==> !IsQuote(r.value[i])
  {
    if c + 9 <= |t| && StartsWithIgnoreCase(t[c..], "content=") && IsQuote(t[c + 8]) then
      var v := c + 9;
      var n := RunLength(t[v..], NotQuote);
      if 0 < n && v + n < |t| then
        QuoteFreeRun(t, v, n, t[v..v + n]);
        Some(t[v..v + n])
      else None
    else None
  }

  /** The run of non-quotes measured at `v` holds no quote. */
  lemma QuoteFreeRun(t: string, v: nat, n: nat, w: string)
    requires v + n <= |t| && n == RunLength(t[v..], NotQuote) && w == t[v..v + n]
    ensures forall i :: 0 <= i < |w| ==> !IsQuote(w[i])
  {
    forall i | 0 <= i < |w| ensures !IsQuote(w[i]) {
      assert w[i] == t[v..][i];
    }
  }

  /** The end of the leftmost `name="description"` that starts at `a` or
      later and ends by `e`. */
  function FirstNameEnd(t: string, a: nat, e: nat): (r: Option<nat>)
    ensures r.Some? ==> a + 18 <= r.value <= e && NameAt(t, r.value - 18)
    decreases e - a
  {
    if a + 18 > e then None
    else if NameAt(t, a) then Some(a + 18)
    else FirstNameEnd(t, a + 1, e)
  }

  /** The value at the latest `content=` position `c` with `lo <= c < hi`
      that yields one: the greedy `[^>]*` tries the longest span first. */
  function LastContentValue(t: string, lo: nat, hi: int): (r: Option<string>)
    ensures r.Some? ==> r.value != [] && forall i :: 0 <= i < |r.value| ==> !IsQuote(r.value[i])
    ensures r.Some? ==> exists c :: lo <= c < hi && ContentValueAt(t, c) == r
    decreases hi
  {
    if hi <= lo then None
    else
      match ContentValueAt(t, hi - 1)
      case Some(v) => Some(v)
      case None => LastContentValue(t, lo, hi - 1)
  }

  /** The capture for a match starting at `p`, where `t` has `<meta` at
      `p`. Everything before the value's opening quote lies before the
      first `>` after `<meta`, at `e`; the first `[^>]*` backtracks from
      the longest span, and the answer is the latest `content=` that
      follows some `name="description"` and yields a value. */
  function MetaAt(t: string, p: nat): (r: Option<string>)
    requires p + 5 <= |t| && StartsWithIgnoreCase(t[p..], "<meta")
    ensures r.Some? ==> r.value != [] && forall i :: 0 <= i < |r.value| ==> !IsQuote(r.value[i])
  {
    var e := p + 5 + RunLength(t[p + 5..], NotTagEnd);
    match FirstNameEnd(t, p + 5, e)
    case None => None
    case Some(lo) => LastContentValue(t, lo, e - 8)
  }

  /** The capture of the leftmost match, trying each `<meta` from `from`
      on. */
  function FirstMeta(t: string, from: nat): (r: Option<string>)
    requires from <= |t|
    ensures r.Some? ==> r.value != [] && forall i :: 0 <= i < |r.value| ==> !IsQuote(r.value[i])
    decreases |t| - from
  {
    if from + 5 > |t| then None
    else if StartsWithIgnoreCase(t[from..], "<meta") then
      match MetaAt(t, from)
      case Some(v) => Some(v)
      case None => FirstMeta(t, from + 1)
    else FirstMeta(t, from + 1)
  }

  // ---------------------------------------------------------------------
  // What the handler derives from the fetched page
  // ---------------------------------------------------------------------

  /** The headline: the trimmed title if the page was fetched and has one,
      else the URL itself. */
  function PageHeadline(url: string, page: Option<string>): (h: string)
    ensures page.None? ==> h == url
    ensures page.Some? && FirstTitle(page.value, 0).Some? ==> h == Trim(FirstTitle(page.value, 0).value)
  {
    match page
    case None => url
    case Some(html) =>
      match FirstTitle(html, 0)
      case Some(title) => Trim(title)
      case None => url
  }

  /** The text given to the classifier: the description if one was found,
      else the headline (`contentText || headline`). */
  function CurationText(url: string, page: Option<string>): (text: string)
    ensures page.None? ==> text == url
    ensures page.Some? && FirstMeta(page.value, 0).Some? ==> text == FirstMeta(page.value, 0).value
    ensures page.Some? && FirstMeta(page.value, 0).None? ==> text == PageHeadline(url, page)
  {
    match page
    case None => url
    case Some(html) =>
      match FirstMeta(html, 0)
      case Some(description) => description
      case None => PageHeadline(url, page)
  }

  /** The submission policy: published at score 4 and above. */
  predicate SubmitPublished(score: int) {
    score >= 4
  }

  /** The submission policy: flagged for review below 6. */
  predicate SubmitNeedsReview(score: int) {
    score < 6
  }

  /** The three bands of the submission policy; unlike ingestion, a hidden
      submission is also flagged. */
  lemma SubmitPolicyBands(score: int)
    ensures score <= 3 ==> !SubmitPublished(score) && SubmitNeedsReview(score)
    ensures 4 <= score <= 5 ==> SubmitPublished(score) && SubmitNeedsReview(score)
    ensures score >= 6 ==> SubmitPublished(score) && !SubmitNeedsReview(score)
  {
  }

  /** The source name: the host with its first "www." removed. */
  function SourceName(host: string): string {
    ReplaceFirst(host, "www.", "")
  }

  /** A leading "www." is dropped and a host without "www." is kept; the
      first "www." is removed wherever it occurs, so "awww.com" becomes
      "acom". */
  lemma SourceNameCases(host: string)
    ensures StartsWith(host, "www.") ==> SourceName(host) == host[4..]
    ensures (forall j :: 0 <= j <= |host| ==> !OccursAt(host, "www.", j)) ==> SourceName(host) == host
    ensures SourceName("awww.com") == "acom"
  {
    if StartsWith(host, "www.") {
      assert OccursAt(host, "www.", 0);
    }
    if forall j :: 0 <= j <= |host| ==> !OccursAt(host, "www.", j) {
      assert IndexOf(host, "www.").None?;
    }
    assert IndexOf("awww.com", "www.") == Some(1) by {
      assert "awww.com"[0..4] == "awww";
      assert !OccursAt("awww.com", "www.", 0);
      assert "awww.com"[1..5] == "www.";
    }
  }

  const MissingFields: string := "Missing required fields"
  const AlreadySubmitted: string := "This URL has already been submitted"
  const InvalidUrl: string := "Invalid URL"
  const LiveMessage: string := "Your submission is live!"
  const PendingMessage: string := "Your submission is pending review."

  /** The JSON body of the request; an absent key is `None`. */
  datatype SubmitRequest = SubmitRequest(url: Option<string>, content_type: Option<string>, user_id: Option<string>)

  datatype SubmitReply = SubmitReply(content: ContentItem, published: bool, message: string)

  /** The collaborators: `fetchPage` is the page body (`None` when the
      fetch throws or times out), `hostOf` is `new URL(url).hostname`
      (`None` when the URL does not parse), and `insertError` the storage
      layer's error for the insert, if any. */
  datatype SubmitEnv = SubmitEnv(
    fetchPage: string -> Option<string>,
    hostOf: string -> Option<string>,
    classify: CurationRequest -> ClassifierReply,
    parseJson: string -> Option<ParsedReply>,
    insertError: Option<string>)

  /** The row inserted for an accepted submission. */
  function SubmissionDraft(url: string, contentType: string, userId: UserId, headline: string,
                           ai: AIResponse, sourceName: string, now: Timestamp): (row: ContentItem)
    ensures row.url == url && row.headline == headline && row.content_type == contentType
    ensures row.is_user_submitted && row.submitted_by == Some(userId)
    ensures row.published == SubmitPublished(ai.score) && row.needs_review == SubmitNeedsReview(ai.score)
    ensures row.ai_quality_score == Some(ai.score) && row.summary == Some(ai.summary)
    ensures row.source_name == sourceName
  {
    ContentItem(
      id := 0,
      url := url,
      headline := headline,
      summary := Some(ai.summary),
      source_name := sourceName,
      author := None,
      content_type := contentType,
      thumbnail_url := None,
      ai_quality_score := Some(ai.score),
      ai_score_reason := Some(ai.reason),
      vote_count := 0,
      comment_count := 0,
      is_user_submitted := true,
      submitted_by := Some(userId),
      published := SubmitPublished(ai.score),
      needs_review := SubmitNeedsReview(ai.score),
      source_published_at := None,
      created_at := now,
      updated_at := now)
  }

  /** The title and description scrape: the headline defaults to the URL and
      the description to empty, each replaced when the page yields a match. */
  method ReadPage(url: string, page: Option<string>) returns (headline: string, contentText: string)
    ensures headline == PageHeadline(url, page)
    ensures (if contentText != "" then contentText else headline) == CurationText(url, page)
  {
    headline := url;
    contentText := "";
    if page.Some? {
      var titleMatch := FirstTitle(page.value, 0);
      if titleMatch.Some? {
        headline := Trim(titleMatch.value);
      }
      var descMatch := FirstMeta(page.value, 0);
      if descMatch.Some? {
        contentText := descMatch.value;
      }
    }
  }

  /** `POST /api/submit`. */
  method PostSubmit(request: SubmitRequest, now: Timestamp, env: SubmitEnv, content: ContentTable)
    returns (response: Response<SubmitReply>)
    requires content.Valid()
    modifies content
    ensures content.Valid()
    ensures !Truthy(request.url) || !Truthy(request.content_type) || !Truthy(request.user_id) ==>
      response == Fail(400, MissingFields) && unchanged(content)
    ensures Truthy(request.url) && Truthy(request.content_type) && Truthy(request.user_id)
            && old(content.HasUrl(request.url.value)) ==>
      response == Fail(409, AlreadySubmitted) && unchanged(content)
    ensures response.Ok? <==>
      && Truthy(request.url) && Truthy(request.content_type) && Truthy(request.user_id)
      && !old(content.HasUrl(request.url.value))
      && env.hostOf(request.url.value).Some? && env.insertError.None?
    ensures !response.Ok? ==> unchanged(content)
    ensures Truthy(request.url) && Truthy(request.content_type) && Truthy(request.user_id)
            && !old(content.HasUrl(request.url.value)) && env.hostOf(request.url.value).None? ==>
      response == Fail(500, InvalidUrl)
    ensures Truthy(request.url) && Truthy(request.content_type) && Truthy(request.user_id)
            && !old(content.HasUrl(request.url.value)) && env.hostOf(request.url.value).Some?
            && env.insertError.Some? ==>
      response == Fail(500, env.insertError.value)
    ensures response.Ok? ==>
      var url := request.url.value;
      var page := env.fetchPage(url);
      var headline := PageHeadline(url, page);
      var ai := CurateContent(headline, "User Submission", CurationText(url, page), env.classify, env.parseJson);
      var row := response.body.content;
      && row == SubmissionDraft(url, request.content_type.value, request.user_id.value, headline, ai,
                                SourceName(env.hostOf(url).value), now).(id := old(content.nextId))
      && content.rows == old(content.rows)[row.id := row]
      && content.nextId == old(content.nextId) + 1
      && response.body.published == row.published
      && response.body.message == (if row.published then LiveMessage else PendingMessage)
  {
    if !Truthy(request.url) || !Truthy(request.content_type) || !Truthy(request.user_id) {
      return Fail(400, MissingFields);
    }
    var url := request.url.value;
    if content.HasUrl(url) {
      return Fail(409, AlreadySubmitted);
    }
    var headline, contentText := ReadPage(url, env.fetchPage(url));
    var ai := CurateContent(headline, "User Submission", if contentText != "" then contentText else headline,
                            env.classify, env.parseJson);
    var published := ai.score >= 4;
    var host := env.hostOf(url);
    if host.None? {
      return Fail(500, InvalidUrl);
    }
    if env.insertError.Some? {
      return Fail(500, env.insertError.value);
    }
    var row := content.Insert(SubmissionDraft(url, request.content_type.value, request.user_id.value,
                                              headline, ai, SourceName(host.value), now));
    response := Ok(SubmitReply(row.value, published,
                               if published then LiveMessage else PendingMessage));
  }
}
