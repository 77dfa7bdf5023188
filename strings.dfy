/** Character classes and string helpers shared by the route handlers and
    the library code: JavaScript's whitespace set (used by `trim`,
    `trimEnd` and the regular-expression class `\s`), prefixes, first
    occurrences and ASCII case-insensitive comparison. */
module Strings {

  /** JavaScript's WhiteSpace and LineTerminator code points: the set that
      `String.prototype.trim` removes and that `\s` matches. */
  predicate IsSpace(c: char) {
    ('\t' <= c <= '\r') || c == ' ' || c == '\U{00A0}' || c == '\U{1680}'
    || ('\U{2000}' <= c <= '\U{200A}') || c == '\U{2028}' || c == '\U{2029}'
    || c == '\U{202F}' || c == '\U{205F}' || c == '\U{3000}' || c == '\U{FEFF}'
  }

  predicate AllSpace(s: string) {
    forall i :: 0 <= i < |s| ==> IsSpace(s[i])
  }

  lemma AllSpaceAppend(a: string, b: string)
    requires AllSpace(a) && AllSpace(b)
    ensures AllSpace(a + b)
  {
  }

  predicate StartsWith(s: string, prefix: string) {
    |prefix| <= |s| && s[..|prefix|] == prefix
  }

  /** `text.trimEnd()`: the longest prefix that does not end in whitespace. */
  function TrimEnd(s: string): (r: string)
    ensures StartsWith(s, r)
    ensures r == [] || !IsSpace(r[|r| - 1])
    ensures AllSpace(s[|r|..])
  {
    if s != [] && IsSpace(s[|s| - 1]) then
      var r := TrimEnd(s[..|s| - 1]);
      assert s[|r|..] == s[..|s| - 1][|r|..] + [s[|s| - 1]];
      AllSpaceAppend(s[..|s| - 1][|r|..], [s[|s| - 1]]);
      r
    else s
  }

  /** `text.trimStart()`: the longest suffix that does not start with whitespace. */
  function TrimStart(s: string): (r: string)
    ensures |r| <= |s| && r == s[|s| - |r|..]
    ensures r == [] || !IsSpace(r[0])
    ensures AllSpace(s[..|s| - |r|])
  {
    if s != [] && IsSpace(s[0]) then
      var r := TrimStart(s[1..]);
      assert s[..|s| - |r|] == [s[0]] + s[1..][..|s[1..]| - |r|];
      AllSpaceAppend([s[0]], s[1..][..|s[1..]| - |r|]);
      r
    else s
  }

  /** `text.trim()`: `s` without its leading and trailing whitespace. */
  function Trim(s: string): (r: string)
    ensures r == [] || (!IsSpace(r[0]) && !IsSpace(r[|r| - 1]))
    ensures r == [] <==> AllSpace(s)
  {
    var e := TrimEnd(s);
    var r := TrimStart(e);
    assert r == [] ==> AllSpace(s) by {
      if r == [] {
        assert s == e[..|e|] + s[|e|..];
      }
    }
    r
  }

  /** Where `Trim(s)` sits in `s`: what it removes is whitespace, from
      both ends only. */
  function TrimOffset(s: string): (lo: nat)
    ensures lo + |Trim(s)| <= |s| && Trim(s) == s[lo..lo + |Trim(s)|]
    ensures AllSpace(s[..lo]) && AllSpace(s[lo + |Trim(s)|..])
  {
    var e := TrimEnd(s);
    var lo := |e| - |Trim(s)|;
    TrimInside(s, e, TrimStart(e));
    lo
  }

  /** Trimming the end, then the start, leaves a slice of `s` between two
      runs of whitespace. */
  lemma TrimInside(s: string, e: string, r: string)
    requires e == TrimEnd(s) && r == TrimStart(e)
    ensures Trim(s) == r && |e| <= |s|
    ensures r == s[|e| - |r|..|e|]
    ensures AllSpace(s[..|e| - |r|]) && AllSpace(s[|e|..])
  {
    PrefixSlices(s, e, |e| - |r|);
  }

  /** Slices of a prefix of `s` are slices of `s`. */
  lemma PrefixSlices(s: string, e: string, lo: nat)
    requires lo <= |e| <= |s| && e == s[..|e|]
    ensures e[lo..] == s[lo..|e|] && e[..lo] == s[..lo]
  {
  }

  /** A string that neither starts nor ends with whitespace is its own trim. */
  lemma TrimOfTrimmed(s: string)
    requires s == [] || (!IsSpace(s[0]) && !IsSpace(s[|s| - 1]))
    ensures Trim(s) == s
  {
    assert TrimEnd(s) == s;
  }

  /** Trimming twice is trimming once. */
  lemma TrimIdempotent(s: string)
    ensures Trim(Trim(s)) == Trim(s)
  {
    TrimOfTrimmed(Trim(s));
  }

  /** The longest prefix of `s` all of whose characters satisfy `ok`. */
  function RunLength(s: string, ok: char -> bool): (n: nat)
    ensures n <= |s|
    ensures forall i :: 0 <= i < n ==> ok(s[i])
    ensures n < |s| ==> !ok(s[n])
  {
    if s != [] && ok(s[0]) then 1 + RunLength(s[1..], ok) else 0
  }

  /** `pat` occurs in `s` at index `j`. */
  predicate OccursAt(s: string, pat: string, j: nat) {
    j + |pat| <= |s| && s[j..j + |pat|] == pat
  }

  /** The first occurrence of `pat` in `s` at or after `from`. */
  function IndexFrom(s: string, pat: string, from: nat): (r: Option<nat>)
    requires from <= |s|
    ensures r.Some? ==> from <= r.value && OccursAt(s, pat, r.value)
    ensures r.Some? ==> forall j :: from <= j < r.value ==> !OccursAt(s, pat, j)
    ensures r.None? ==> forall j :: from <= j <= |s| ==> !OccursAt(s, pat, j)
    decreases |s| - from
  {
    if OccursAt(s, pat, from) then Some(from)
    else if from == |s| then None
    else IndexFrom(s, pat, from + 1)
  }

  /** The index of the first occurrence of `pat` in `s`, as `indexOf` finds it. */
  function IndexOf(s: string, pat: string): (r: Option<nat>)
    ensures r.Some? ==> OccursAt(s, pat, r.value) && forall j :: 0 <= j < r.value ==> !OccursAt(s, pat, j)
    ensures r.None? ==> forall j :: 0 <= j <= |s| ==> !OccursAt(s, pat, j)
  {
    IndexFrom(s, pat, 0)
  }

  /** `s.replace(pat, rep)` with a string pattern: only the first occurrence
      is replaced. */
  function ReplaceFirst(s: string, pat: string, rep: string): (r: string)
  {
    match IndexOf(s, pat)
    case None => s
    case Some(k) => s[..k] + rep + s[k + |pat|..]
  }

  /** ASCII lower-casing, the folding a JavaScript `/i` regular expression
      without the `u` flag applies: no other character folds onto an ASCII
      letter. */
  function Lower(c: char): char {
    if 'A' <= c <= 'Z' then (c as int + 32) as char else c
  }

  /** `s` starts with `lowered` ignoring ASCII case; `lowered` is written in
      lower case. */
  predicate StartsWithIgnoreCase(s: string, lowered: string) {
    |lowered| <= |s| && forall i :: 0 <= i < |lowered| ==> Lower(s[i]) == lowered[i]
  }

  datatype Option<+T> = None | Some(value: T)
}
