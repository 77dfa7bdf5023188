/** src/lib/utils.ts: HTML character-reference decoding, truncation, and the
    integer and table parts of the hot-ranking formula. */
module Utils {
  import opened Strings

  // ---------------------------------------------------------------------
  // decodeHtml
  // ---------------------------------------------------------------------

  predicate IsHexDigit(c: char) {
    ('0' <= c <= '9') || ('a' <= c <= 'f') || ('A' <= c <= 'F')
  }

  predicate IsAsciiLetter(c: char) {
    ('a' <= c <= 'z') || ('A' <= c <= 'Z')
  }

  /** The eight character references the decoder knows, each with its
      character (a subset of the named and numeric references of the HTML
      Living Standard, section 13.5). */
  const Entities: map<string, char> := map[
    "&amp;" := '&', "&lt;" := '<', "&gt;" := '>', "&quot;" := '"',
    "&#39;" := '\'', "&#x27;" := '\'', "&apos;" := '\'', "&#x2F;" := '/'
  ]

  /** Length of a non-empty run of characters satisfying `ok` at the start of
      `t` together with the `;` that closes it; 0 when there is no such run. */
  function RunThenSemicolon(t: string, ok: char -> bool): (n: nat)
    ensures n <= |t|
    ensures n > 0 ==> n >= 2 && t[n - 1] == ';' && forall j :: 0 <= j < n - 1 ==> ok(t[j])
  {
    var h := RunLength(t, ok);
    if 0 < h < |t| && t[h] == ';' then h + 1 else 0
  }

  /** The length of the match of the decoder's pattern
      `&(?:#x?[0-9a-fA-F]+|[a-zA-Z]+);` at the very start of `s`, or 0 when
      the pattern does not match there. The `x?` is tried first and, when the
      rest fails after it, without it. */
  function EntityLen(s: string): (n: nat)
    ensures n <= |s|
    ensures n > 0 ==> n >= 3 && s[0] == '&' && s[n - 1] == ';'
    ensures n > 0 ==> forall j :: 1 <= j < n ==> s[j] != '&'
  {
    if |s| < 3 || s[0] != '&' then 0
    else if s[1] == '#' then
      var x := if s[2] == 'x' then RunThenSemicolon(s[3..], IsHexDigit) else 0;
      if x > 0 then 3 + x
      else
        var h := RunThenSemicolon(s[2..], IsHexDigit);
        if h > 0 then 2 + h else 0
    else
      var a := RunThenSemicolon(s[1..], IsAsciiLetter);
      if a > 0 then 1 + a else 0
  }

  /** `decodeHtml(text)`: one left-to-right pass of the global replace. Each
      match of the pattern is looked up in `Entities`; a known reference is
      replaced by its character, any other match is put back unchanged, and
      the scan resumes after the match. */
  function DecodeHtml(s: string): (r: string)
    ensures |r| <= |s|
    decreases |s|
  {
    if s == [] then []
    else
      var n := EntityLen(s);
      if n > 0 then
        var token := s[..n];
        (if token in Entities then [Entities[token]] else token) + DecodeHtml(s[n..])
      else
        [s[0]] + DecodeHtml(s[1..])
  }

  /** The known reference that `s` starts with, if any. */
  function KnownPrefix(s: string): (k: Option<string>)
    ensures k.Some? ==> k.value in Entities && StartsWith(s, k.value)
    ensures k.None? ==> forall key :: key in Entities ==> !StartsWith(s, key)
  {
    if s == [] || s[0] != '&' then None
    else if StartsWith(s, "&amp;") then Some("&amp;")
    else if StartsWith(s, "&lt;") then Some("&lt;")
    else if StartsWith(s, "&gt;") then Some("&gt;")
    else if StartsWith(s, "&quot;") then Some("&quot;")
    else if StartsWith(s, "&#39;") then Some("&#39;")
    else if StartsWith(s, "&#x27;") then Some("&#x27;")
    else if StartsWith(s, "&apos;") then Some("&apos;")
    else if StartsWith(s, "&#x2F;") then Some("&#x2F;")
    else None
  }

  /** Reference definition: walk the text and, wherever one of the known
      references starts, emit its character and skip it; copy every other
      character. */
  function DecodeKnown(s: string): (r: string)
    decreases |s|
  {
    if s == [] then []
    else
      match KnownPrefix(s)
      case Some(k) => [Entities[k]] + DecodeKnown(s[|k|..])
      case None => [s[0]] + DecodeKnown(s[1..])
  }

  /** A named reference `&letters;` is, in full, a match of the pattern. */
  lemma NamedReferenceMatches(k: string)
    requires |k| >= 3 && k[0] == '&' && k[1] != '#' && k[|k| - 1] == ';'
    requires forall j :: 1 <= j < |k| - 1 ==> IsAsciiLetter(k[j])
    ensures EntityLen(k) == |k|
  {
    assert k[1..][|k| - 2] == ';';
    assert RunLength(k[1..], IsAsciiLetter) == |k| - 2;
  }

  /** A decimal reference `&#digits;` is, in full, a match of the pattern. */
  lemma DecimalReferenceMatches(k: string)
    requires |k| >= 4 && k[0] == '&' && k[1] == '#' && k[2] != 'x' && k[|k| - 1] == ';'
    requires forall j :: 2 <= j < |k| - 1 ==> IsHexDigit(k[j])
    ensures EntityLen(k) == |k|
  {
    assert k[2..][|k| - 3] == ';';
    assert RunLength(k[2..], IsHexDigit) == |k| - 3;
  }

  /** A hexadecimal reference `&#xdigits;` is, in full, a match of the pattern. */
  lemma HexReferenceMatches(k: string)
    requires |k| >= 5 && k[0] == '&' && k[1] == '#' && k[2] == 'x' && k[|k| - 1] == ';'
    requires forall j :: 3 <= j < |k| - 1 ==> IsHexDigit(k[j])
    ensures EntityLen(k) == |k|
  {
    assert k[3..][|k| - 4] == ';';
    assert RunLength(k[3..], IsHexDigit) == |k| - 4;
  }

  /** Each of the eight keys is, in full, a match of the pattern. */
  lemma KeysAreMatches(k: string)
    requires k in Entities
    ensures EntityLen(k) == |k| > 0
  {
    if k == "&amp;" || k == "&lt;" || k == "&gt;" || k == "&quot;" || k == "&apos;" {
      NamedReferenceMatches(k);
    } else if k == "&#39;" {
      DecimalReferenceMatches(k);
    } else {
      HexReferenceMatches(k);
    }
  }

  /** A known reference at the start of the text is exactly the pattern's
      match there, whatever follows it. */
  lemma KnownEntityIsWholeMatch(s: string, k: string)
    requires k in Entities && StartsWith(s, k)
    ensures EntityLen(s) == |k|
  {
    KeysAreMatches(k);
    EntityLenIgnoresSuffix(k, s[|k|..]);
    assert s == k + s[|k|..];
  }

  /** The reference walk copies a first character that is not `&`. */
  lemma DecodeKnownPlain(s: string)
    requires s != [] && s[0] != '&'
    ensures DecodeKnown(s) == [s[0]] + DecodeKnown(s[1..])
  {
    assert KnownPrefix(s) == None;
  }

  /** Text that contains no `&` passes through the reference walk unchanged. */
  lemma {:induction false} DecodeKnownNoAmpersand(u: string, v: string)
    requires forall j :: 0 <= j < |u| ==> u[j] != '&'
    ensures DecodeKnown(u + v) == u + DecodeKnown(v)
    decreases |u|
  {
    if u != [] {
      var s := u + v;
      SplitHead(u, v);
      DecodeKnownPlain(s);
      DecodeKnownNoAmpersand(u[1..], v);
      Regroup(DecodeKnown(s), DecodeKnown(s[1..]), u[0], u[1..], u, DecodeKnown(v));
    } else {
      assert u + v == v;
    }
  }

  /** The head and the tail of a concatenation with a non-empty left side. */
  lemma SplitHead(u: string, v: string)
    requires u != []
    ensures (u + v)[0] == u[0] && (u + v)[1..] == u[1..] + v && u == [u[0]] + u[1..]
  {
  }

  /** A character and a piece copied ahead of the rest of the output. */
  lemma Regroup(whole: string, tail: string, head: char, piece: string, prefix: string, later: string)
    requires whole == [head] + tail && tail == piece + later && prefix == [head] + piece
    ensures whole == prefix + later
  {
  }

  /** The decoder equals the reference walk: it replaces exactly the eight
      known references and leaves every other character in place. */
  lemma {:induction false} DecodeHtmlIsKnownReplacement(s: string)
    ensures DecodeHtml(s) == DecodeKnown(s)
    decreases |s|
  {
    if s != [] {
      var n := EntityLen(s);
      if KnownPrefix(s).Some? {
        var k := KnownPrefix(s).value;
        KnownEntityIsWholeMatch(s, k);
        assert s[..n] == k;
        DecodeHtmlIsKnownReplacement(s[n..]);
      } else if n > 0 {
        UnknownTokenStep(s);
        DecodeHtmlIsKnownReplacement(s[n..]);
      } else {
        DecodeHtmlIsKnownReplacement(s[1..]);
      }
    }
  }

  /** A match of the pattern that is not a known reference is copied by
      both the decoder and the reference walk. */
  lemma UnknownTokenStep(s: string)
    requires s != [] && KnownPrefix(s).None? && EntityLen(s) > 0
    ensures DecodeHtml(s) == s[..EntityLen(s)] + DecodeHtml(s[EntityLen(s)..])
    ensures DecodeKnown(s) == s[..EntityLen(s)] + DecodeKnown(s[EntityLen(s)..])
  {
    var n := EntityLen(s);
    NotKnownToken(s, s[..n]);
    CopiedByWalk(s, n);
  }

  /** A prefix of text that starts with no known reference is not one. */
  lemma NotKnownToken(s: string, token: string)
    requires KnownPrefix(s).None? && |token| <= |s| && s[..|token|] == token
    ensures token !in Entities
  {
    assert StartsWith(s, token);
  }

  /** The reference walk copies the first `n` characters when the text
      starts with no known reference and no `&` follows within them. */
  lemma CopiedByWalk(s: string, n: nat)
    requires s != [] && KnownPrefix(s).None? && 1 <= n <= |s|
    requires forall j :: 1 <= j < n ==> s[j] != '&'
    ensures DecodeKnown(s) == s[..n] + DecodeKnown(s[n..])
  {
    DecodeKnownCopy(s);
    var t := s[1..n];
    SplitAt(s, n);
    DecodeKnownNoAmpersand(t, s[n..]);
    Regroup(DecodeKnown(s), DecodeKnown(s[1..]), s[0], t, s[..n], DecodeKnown(s[n..]));
  }

  /** The pieces of `s` around position `n`, its first character apart. */
  lemma SplitAt(s: string, n: nat)
    requires 1 <= n <= |s|
    ensures s[1..] == s[1..n] + s[n..] && s[..n] == [s[0]] + s[1..n]
    ensures forall j :: 0 <= j < n - 1 ==> s[1..n][j] == s[j + 1]
  {
  }

  /** The reference walk copies the first character of text that starts
      with no known reference. */
  lemma DecodeKnownCopy(s: string)
    requires s != [] && KnownPrefix(s).None?
    ensures DecodeKnown(s) == [s[0]] + DecodeKnown(s[1..])
  {
  }

  /** Each known reference is decoded to its character, whatever follows. */
  lemma DecodeKnownEntity(k: string, rest: string)
    requires k in Entities
    ensures DecodeHtml(k + rest) == [Entities[k]] + DecodeHtml(rest)
  {
    var s := k + rest;
    assert StartsWith(s, k);
    KnownEntityIsWholeMatch(s, k);
    assert s[..|k|] == k && s[|k|..] == rest;
  }

  /** The matcher looks no further than the `;` that ends a match. */
  lemma EntityLenIgnoresSuffix(token: string, rest: string)
    requires EntityLen(token) == |token| > 0
    ensures EntityLen(token + rest) == |token|
  {
    var s := token + rest;
    assert s[..|token|] == token;
    if token[1] == '#' {
      if token[2] == 'x' {
        assert s[3..] == token[3..] + rest;
        RunThenSemicolonIgnoresSuffix(token[3..], rest, IsHexDigit);
      }
      assert s[2..] == token[2..] + rest;
      RunThenSemicolonIgnoresSuffix(token[2..], rest, IsHexDigit);
    } else {
      assert s[1..] == token[1..] + rest;
      RunThenSemicolonIgnoresSuffix(token[1..], rest, IsAsciiLetter);
    }
  }

  /** A run ended by `;` (a character `ok` rejects) is measured the same
      whatever follows it. */
  lemma RunThenSemicolonIgnoresSuffix(t: string, rest: string, ok: char -> bool)
    requires t != [] && t[|t| - 1] == ';' && !ok(';')
    ensures RunThenSemicolon(t + rest, ok) == RunThenSemicolon(t, ok)
  {
    RunLengthIgnoresSuffix(t, rest, ok);
    var h := RunLength(t, ok);
    assert (t + rest)[h] == t[h];
  }

  lemma RunLengthIgnoresSuffix(t: string, rest: string, ok: char -> bool)
    requires RunLength(t, ok) < |t|
    ensures RunLength(t + rest, ok) == RunLength(t, ok)
  {
    var h, h' := RunLength(t, ok), RunLength(t + rest, ok);
    assert forall i :: 0 <= i <= h ==> (t + rest)[i] == t[i];
  }

  /** Any other entity-shaped token (one the pattern matches but the table
      does not list) is left exactly as it is. */
  lemma DecodeUnknownToken(token: string, rest: string)
    requires EntityLen(token) == |token| > 0 && token !in Entities
    ensures DecodeHtml(token + rest) == token + DecodeHtml(rest)
  {
    EntityLenIgnoresSuffix(token, rest);
    var s := token + rest;
    assert s[..|token|] == token && s[|token|..] == rest;
  }

  /** Text without `&` is returned unchanged. */
  lemma {:induction false} DecodeWithoutAmpersand(s: string)
    requires '&' !in s
    ensures DecodeHtml(s) == s
    decreases |s|
  {
    if s != [] {
      DecodeWithoutAmpersand(s[1..]);
    }
  }

  /** One pass only: the `&` produced by decoding `&amp;` is never examined
      again, so `&amp;lt;` decodes to `&lt;` and not to `<`. */
  lemma DecodeIsSinglePass(rest: string)
    requires '&' !in rest
    ensures DecodeHtml("&amp;" + rest) == "&" + rest
  {
    DecodeKnownEntity("&amp;", rest);
    DecodeWithoutAmpersand(rest);
    assert Entities["&amp;"] == '&' && "&" == ['&'];
  }

  // ---------------------------------------------------------------------
  // truncate
  // ---------------------------------------------------------------------

  /** `truncate(text, maxLength)`: short text is returned as it is; longer
      text is cut to `maxLength` characters, stripped of trailing
      whitespace, and given an ellipsis. */
  function Truncate(text: string, maxLength: nat): (r: string)
    ensures |text| <= maxLength ==> r == text
    ensures |text| > maxLength ==>
      && |r| >= 3 && r[|r| - 3..] == "..."
      && |r| <= maxLength + 3
      && StartsWith(text, r[..|r| - 3])
      && (|r| == 3 || !IsSpace(r[|r| - 4]))
      && AllSpace(text[|r| - 3..maxLength])
  {
    if |text| <= maxLength then text
    else
      var kept := TrimEnd(text[..maxLength]);
      var r := kept + "...";
      assert r[..|r| - 3] == kept;
      assert text[|kept|..maxLength] == text[..maxLength][|kept|..];
      r
  }

  // ---------------------------------------------------------------------
  // calculateHotScore: recency boost, base score, gravity
  // ---------------------------------------------------------------------

  const HourMs: int := 60 * 60 * 1000

  /** The freshness bonus for an item `ageMs` milliseconds old: 10 in its
      first hour, 5 until three hours, 2 until six hours, then nothing.
      `hoursAge < h` is `ageMs < h * HourMs` for integer milliseconds. */
  function RecencyBoost(ageMs: int): (boost: int)
    ensures boost in {0, 2, 5, 10}
  {
    if ageMs < HourMs then 10
    else if ageMs < 3 * HourMs then 5
    else if ageMs < 6 * HourMs then 2
    else 0
  }

  /** An older item never gets a larger boost. */
  lemma RecencyBoostNonIncreasing(younger: int, older: int)
    requires younger <= older
    ensures RecencyBoost(older) <= RecencyBoost(younger)
  {
  }

  /** Once an item is six hours old the boost is gone for good. */
  lemma RecencyBoostExpires(ageMs: int)
    ensures RecencyBoost(ageMs) == 0 <==> ageMs >= 6 * HourMs
  {
  }

  /** The numerator of the hot score. */
  function BaseScore(votes: int, aiScore: int, ageMs: int): int {
    aiScore * 2 + votes * 3 + RecencyBoost(ageMs)
  }

  /** More votes, a higher classifier score or a younger age never lower the
      base score, and each extra vote is worth more than an extra point of
      classifier score. */
  lemma BaseScoreMonotone(votes: int, aiScore: int, ageMs: int, votes': int, aiScore': int, ageMs': int)
    requires votes <= votes' && aiScore <= aiScore' && ageMs' <= ageMs
    ensures BaseScore(votes, aiScore, ageMs) <= BaseScore(votes', aiScore', ageMs')
    ensures BaseScore(votes + 1, aiScore, ageMs) > BaseScore(votes, aiScore + 1, ageMs)
  {
    RecencyBoostNonIncreasing(ageMs', ageMs);
  }

  /** The per-type decay exponent: `gravityMap[contentType] || 1.0`. */
  function Gravity(contentType: string): (g: real)
    ensures g > 0.0
  {
    if contentType == "article" then 1.2
    else if contentType == "video" then 0.8
    else if contentType == "podcast" then 0.6
    else 1.0
  }

  /** Podcasts decay slowest, then videos, then articles; unknown types sit
      between videos and articles. */
  lemma GravityOrder(other: string)
    requires other != "article" && other != "video" && other != "podcast"
    ensures Gravity("podcast") < Gravity("video") < Gravity(other) < Gravity("article")
  {
  }

  type PositiveReal = r: real | r > 0.0 witness 1.0

  /** `calculateHotScore`: the base score divided by `(hoursAge + 2)` raised
      to the type's gravity. Exponentiation is floating-point `Math.pow`,
      passed in as `pow`; all the model knows of it is that it is positive. */
  function HotScore(votes: int, aiScore: int, ageMs: int, contentType: string,
                    pow: (real, real) -> PositiveReal): real
  {
    BaseScore(votes, aiScore, ageMs) as real
      / pow(ageMs as real / HourMs as real + 2.0, Gravity(contentType))
  }

  /** At the same age and type, the item with the larger base score is the
      hotter one, whatever the decay turns out to be. */
  lemma HotScoreFollowsBaseScore(votes: int, aiScore: int, votes': int, aiScore': int,
                                 ageMs: int, contentType: string, pow: (real, real) -> PositiveReal)
    requires BaseScore(votes, aiScore, ageMs) <= BaseScore(votes', aiScore', ageMs)
    ensures HotScore(votes, aiScore, ageMs, contentType, pow) <= HotScore(votes', aiScore', ageMs, contentType, pow)
  {
    var d := pow(ageMs as real / HourMs as real + 2.0, Gravity(contentType));
    var b, b' := BaseScore(votes, aiScore, ageMs) as real, BaseScore(votes', aiScore', ageMs) as real;
    assert b / d <= b' / d by {
      assert b' / d - b / d == (b' - b) / d;
    }
  }
}
