/** src/lib/ai-curator.ts: the classifier call's input and the
    post-processing of its reply. The model call and `JSON.parse` are
    parameters. */
module Curator {
  import opened Strings
  import opened Types

  /** The number of characters of the content text sent to the classifier. */
  const ContentCharLimit: nat := 2000

  /** The fixed instruction that precedes the item in the classifier
      request. */
  const CurationPrompt: string :=
    "You are a basketball content curator for an NBA fan community called Basketball Lobster.\n\n"
    + "Given the following content, do two things:\n"
    + "1. Write a 2-3 sentence summary that captures the key takeaway for NBA fans.\n"
    + "   Be concise, informative, and engaging. Do not use clickbait language.\n"
    + "2. Rate the content quality on a scale of 1-10 based on:\n"
    + "   - NBA relevance (must be primarily about NBA, non-NBA content scores 1-2)\n"
    + "   - Quality of analysis or reporting\n"
    + "   - Timeliness and newsworthiness\n"
    + "   - Engagement potential for serious basketball fans\n"
    + "   Score higher for: breaking news/trades, player stories/narratives, hot takes/debate content\n\n"
    + "Return ONLY a valid JSON object with no other text:\n"
    + "{\"summary\": \"your 2-3 sentence summary\", \"score\": 7, \"reason\": \"brief explanation\"}"

  /** The reason recorded when curation fails, with the em dash stored as
      the three characters its UTF-8 bytes read as in Windows-1252. */
  const FallbackReason: string := "AI scoring failed \U{00E2}\U{20AC}\U{201D} flagged for manual review"

  /** The neutral score given when curation fails. */
  const FallbackScore: int := 5

  /** `contentText.slice(0, 2000)`. */
  function ContentPrefix(text: string): (r: string)
    ensures |r| <= ContentCharLimit && StartsWith(text, r)
    ensures |text| <= ContentCharLimit ==> r == text
  {
    if |text| <= ContentCharLimit then text else text[..ContentCharLimit]
  }

  /** The classifier call's variable parts: the headline, the source name
      and the excerpt of the content text. */
  datatype CurationRequest = CurationRequest(headline: string, sourceName: string, excerpt: string)

  /** The text of the single user message sent for `req`: the fixed
      instruction, then the three labelled parts, the excerpt last. */
  function Prompt(req: CurationRequest): (text: string)
    ensures StartsWith(text, CurationPrompt)
    ensures |req.excerpt| <= |text| && text[|text| - |req.excerpt|..] == req.excerpt
  {
    CurationPrompt + "\n\nHeadline: " + req.headline + "\nSource: " + req.sourceName
      + "\nContent: " + req.excerpt
  }

  /** The request built from `curateContent`'s arguments. */
  function RequestFor(headline: string, sourceName: string, contentText: string): CurationRequest {
    CurationRequest(headline, sourceName, ContentPrefix(contentText))
  }

  // ---------------------------------------------------------------------
  // Cleaning the reply text
  // ---------------------------------------------------------------------

  /** The global replace of `fence` followed by optional whitespace: every occurrence of `fence`, with the
      whitespace that follows it, is deleted in one left-to-right pass. */
  function StripFence(s: string, fence: string): (r: string)
    requires fence != []
    ensures |r| <= |s|
    decreases |s|
  {
    if s == [] then []
    else if StartsWith(s, fence) then
      var rest := s[|fence|..];
      StripFence(rest[RunLength(rest, IsSpace)..], fence)
    else [s[0]] + StripFence(s[1..], fence)
  }

  const JsonFence: string := "```json"
  const Fence: string := "```"

  /** The reply cleaning: drop "```json" fences, then bare "```" fences,
      then trim. */
  function CleanReply(reply: string): string {
    Trim(StripFence(StripFence(reply, JsonFence), Fence))
  }

  /** A fence that starts with a backtick leaves text without backticks
      alone. */
  lemma {:induction false} StripFenceWithoutBacktick(s: string, fence: string)
    requires fence != [] && fence[0] == '`' && '`' !in s
    ensures StripFence(s, fence) == s
    decreases |s|
  {
    if s != [] {
      assert s[0] != fence[0];
      StripFenceWithoutBacktick(s[1..], fence);
    }
  }

  /** A reply with no backtick is only trimmed. */
  lemma CleanReplyWithoutBacktick(reply: string)
    requires '`' !in reply
    ensures CleanReply(reply) == Trim(reply)
  {
    StripFenceWithoutBacktick(reply, JsonFence);
    StripFenceWithoutBacktick(reply, Fence);
  }

  predicate HasFenceAt(s: string, i: nat)
    requires i + 3 <= |s|
  {
    s[i] == '`' && s[i + 1] == '`' && s[i + 2] == '`'
  }

  /** No three backticks in a row anywhere in `s`. */
  predicate FenceFree(s: string) {
    forall i :: 0 <= i && i + 3 <= |s| ==> !HasFenceAt(s, i)
  }

  /** What the bare-fence pass leaves starts with a backtick only if its
      input did. */
  lemma StripFenceFirstChar(s: string)
    requires StripFence(s, Fence) != [] && StripFence(s, Fence)[0] == '`'
    ensures s != [] && s[0] == '`'
  {
  }

  /** Three backticks at the head of a string are the bare fence. */
  lemma FenceAtHead(s: string)
    requires |s| >= 3 && s[0] == '`' && s[1] == '`' && s[2] == '`'
    ensures StartsWith(s, Fence)
  {
    assert s[..3] == Fence;
  }

  /** When the scan keeps the first character, what it produces does not
      start with a fence. */
  lemma KeptHeadIsNoFence(s: string)
    requires s != [] && !StartsWith(s, Fence)
    ensures var r := StripFence(s, Fence); !(|r| >= 3 && HasFenceAt(r, 0))
  {
    var r := StripFence(s, Fence);
    if |r| >= 3 && HasFenceAt(r, 0) {
      var t := s[1..];
      var u := StripFence(t, Fence);
      assert r == [s[0]] + u;
      assert u != [] && u[0] == '`' && |u| >= 2 && u[1] == '`';
      StripFenceFirstChar(t);
      if !StartsWith(t, Fence) {
        assert u == [t[0]] + StripFence(t[1..], Fence);
        StripFenceFirstChar(t[1..]);
      }
      assert s[0] == '`' && s[1] == t[0] && s[2] == t[1];
      FenceAtHead(s);
    }
  }

  /** After the bare-fence pass no three backticks in a row remain: the
      scan never leaves a fence behind and never creates one by joining
      what surrounds a deleted fence. */
  lemma {:induction false} StripFenceLeavesNoFence(s: string)
    ensures FenceFree(StripFence(s, Fence))
    decreases |s|
  {
    if s != [] {
      if StartsWith(s, Fence) {
        var rest := s[|Fence|..];
        StripFenceLeavesNoFence(rest[RunLength(rest, IsSpace)..]);
      } else {
        var tail := StripFence(s[1..], Fence);
        StripFenceLeavesNoFence(s[1..]);
        var r := [s[0]] + tail;
        assert StripFence(s, Fence) == r;
        KeptHeadIsNoFence(s);
        forall i | 1 <= i && i + 3 <= |r| ensures !HasFenceAt(r, i) {
          assert !HasFenceAt(tail, i - 1);
        }
      }
    }
  }

  /** A slice of fence-free text is fence-free. */
  lemma FenceFreeSlice(s: string, lo: nat, hi: nat)
    requires lo <= hi <= |s| && FenceFree(s)
    ensures FenceFree(s[lo..hi])
  {
    var c := s[lo..hi];
    forall i | 0 <= i && i + 3 <= |c| ensures !HasFenceAt(c, i) {
      assert !HasFenceAt(s, lo + i);
    }
  }

  /** Trimming fence-free text keeps it fence-free. */
  lemma TrimKeepsFenceFree(s: string)
    requires FenceFree(s)
    ensures FenceFree(Trim(s))
  {
    var t, lo := Trim(s), TrimOffset(s);
    var hi := lo + |t|;
    assert t == s[lo..hi];
    FenceFreeSlice(s, lo, hi);
  }

  /** The cleaned reply holds no fence and has no surrounding whitespace. */
  lemma CleanReplyIsFenceFree(reply: string)
    ensures FenceFree(CleanReply(reply))
    ensures var c := CleanReply(reply); c == [] || (!IsSpace(c[0]) && !IsSpace(c[|c| - 1]))
  {
    var once := StripFence(reply, JsonFence);
    StripFenceLeavesNoFence(once);
    TrimKeepsFenceFree(StripFence(once, Fence));
  }

  // ---------------------------------------------------------------------
  // Score clamp and the whole curation
  // ---------------------------------------------------------------------

  /** `Math.round(x)` for a finite number: the nearest integer, halves
      rounded up. */
  function Round(x: real): int {
    (x + 0.5).Floor
  }

  /** `Math.max(1, Math.min(10, Math.round(x)))`. */
  function ClampScore(x: real): (score: int)
    ensures 1 <= score <= 10
  {
    var n := Round(x);
    if n > 10 then 10 else if n < 1 then 1 else n
  }

  /** The clamp rounds to the nearest integer when that is in range, and
      leaves an integer score of 1 to 10 as it is. */
  lemma ClampScoreExact(x: real)
    ensures 1 <= Round(x) <= 10 ==> ClampScore(x) == Round(x)
    ensures Round(x) > 10 ==> ClampScore(x) == 10
    ensures Round(x) < 1 ==> ClampScore(x) == 1
    ensures x - 0.5 < Round(x) as real <= x + 0.5
  {
  }

  lemma ClampKeepsInRangeIntegers(n: int)
    requires 1 <= n <= 10
    ensures ClampScore(n as real) == n
  {
    assert (n as real + 0.5).Floor == n;
  }

  /** A higher classifier score never clamps to a lower one. */
  lemma ClampScoreMonotone(x: real, y: real)
    requires x <= y
    ensures ClampScore(x) <= ClampScore(y)
  {
    assert (x + 0.5).Floor <= (y + 0.5).Floor;
  }

  /** The first content block of the classifier's reply. */
  datatype ContentBlock = TextBlock(text: string) | OtherBlock

  /** The classifier call: `Failed` when it throws, otherwise the reply's
      content blocks. */
  datatype ClassifierReply = Failed | Reply(content: seq<ContentBlock>)

  /** What `JSON.parse` yields for a well-formed reply object. */
  datatype ParsedReply = ParsedReply(summary: string, score: real, reason: string)

  /** The record returned on any failure. */
  function Fallback(headline: string): AIResponse {
    AIResponse(headline, FallbackScore, FallbackReason)
  }

  /** What `curateContent` makes of the classifier's reply: the first
      block's text, cleaned and parsed, with the score clamped; the fallback
      record when the call failed, the reply is empty or the parse throws.
      Reading the first block of an empty reply throws. */
  function CurateReply(headline: string, reply: ClassifierReply,
                       parseJson: string -> Option<ParsedReply>): (r: AIResponse)
    ensures 1 <= r.score <= 10
  {
    match reply
    case Failed => Fallback(headline)
    case Reply(content) =>
      if content == [] then Fallback(headline)
      else
        var responseText := if content[0].TextBlock? then content[0].text else "";
        match parseJson(CleanReply(responseText))
        case None => Fallback(headline)
        case Some(parsed) => AIResponse(parsed.summary, ClampScore(parsed.score), parsed.reason)
  }

  /** `curateContent(headline, sourceName, contentText)`. `classify` is the
      model call on the request whose text `Prompt` gives; `parseJson` is
      `JSON.parse`, `None` when it throws. */
  function CurateContent(headline: string, sourceName: string, contentText: string,
                         classify: CurationRequest -> ClassifierReply,
                         parseJson: string -> Option<ParsedReply>): (r: AIResponse)
    ensures 1 <= r.score <= 10
  {
    CurateReply(headline, classify(RequestFor(headline, sourceName, contentText)), parseJson)
  }

  /** On success the summary and the reason are passed through as parsed,
      and only the score is rewritten; on failure the fixed record comes
      back. */
  lemma CurateContentOutcomes(headline: string, sourceName: string, contentText: string,
                              classify: CurationRequest -> ClassifierReply,
                              parseJson: string -> Option<ParsedReply>)
    ensures var reply := classify(RequestFor(headline, sourceName, contentText));
      var r := CurateContent(headline, sourceName, contentText, classify, parseJson);
      && (reply.Failed? || reply.content == [] ==> r == AIResponse(headline, 5, FallbackReason))
      && (reply.Reply? && reply.content != [] && reply.content[0].TextBlock? ==>
            match parseJson(CleanReply(reply.content[0].text))
            case None => r == AIResponse(headline, 5, FallbackReason)
            case Some(p) => r.summary == p.summary && r.reason == p.reason && r.score == ClampScore(p.score))
  {
  }

  /** A reply that is not text becomes "", which `JSON.parse` rejects, so
      the result is the fallback. */
  lemma NonTextReplyFallsBack(headline: string, sourceName: string, contentText: string,
                              classify: CurationRequest -> ClassifierReply,
                              parseJson: string -> Option<ParsedReply>)
    requires parseJson("") == None
    requires var reply := classify(RequestFor(headline, sourceName, contentText));
             reply.Reply? && reply.content != [] && reply.content[0].OtherBlock?
    ensures CurateContent(headline, sourceName, contentText, classify, parseJson) == Fallback(headline)
  {
    assert Trim("") == "";
  }

  /** Only the first 2000 characters of the content text reach the
      classifier: texts that agree on them are curated alike. */
  lemma OnlyPrefixIsSent(headline: string, sourceName: string, text1: string, text2: string,
                         classify: CurationRequest -> ClassifierReply,
                         parseJson: string -> Option<ParsedReply>)
    requires |text1| >= ContentCharLimit && |text2| >= ContentCharLimit
    requires text1[..ContentCharLimit] == text2[..ContentCharLimit]
    ensures CurateContent(headline, sourceName, text1, classify, parseJson)
         == CurateContent(headline, sourceName, text2, classify, parseJson)
  {
    assert ContentPrefix(text1) == ContentPrefix(text2);
  }
}
