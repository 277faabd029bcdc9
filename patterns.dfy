/** The regular expressions of the scrapers, each written out as the search Python's `re`
    module performs: a literal followed by a greedy run of one character class. */
module Patterns {
  import opened Wrappers
  import opened Decimal

  predicate StartsWith(s: string, lit: string) {
    |lit| <= |s| && forall i :: 0 <= i < |lit| ==> s[i] == lit[i]
  }

  /** `[a-z0-9]` */
  predicate IsLowerAlnum(c: char) {
    ('a' <= c <= 'z') || IsDigit(c)
  }

  /** The longest prefix of `s` whose characters are all in `cls` (a greedy `+` or `*`). */
  function Run(s: string, cls: char -> bool): string
    decreases |s|
  {
    if s == [] || !cls(s[0]) then [] else [s[0]] + Run(s[1..], cls)
  }

  /** A greedy run is a prefix, all its characters are in the class, and it stops at the
      first character that is not. */
  lemma {:induction false} RunSpec(s: string, cls: char -> bool)
    ensures var g := Run(s, cls);
      && |g| <= |s| && g == s[..|g|]
      && (forall k :: 0 <= k < |g| ==> cls(g[k]))
      && (|g| < |s| ==> !cls(s[|g|]))
    decreases |s|
  {
    if s != [] && cls(s[0]) {
      RunSpec(s[1..], cls);
    }
  }

  /** `lit` followed by at least one character of `cls` starts at index `j` of `s`. */
  predicate MatchesAt(s: string, j: nat, lit: string, cls: char -> bool) {
    j + |lit| < |s| && StartsWith(s[j..], lit) && cls(s[j + |lit|])
  }

  /** Where `re.search(lit + '([cls]+)', s)` finds its match. */
  function SearchIndex(s: string, lit: string, cls: char -> bool): Option<nat>
    decreases |s|
  {
    if |s| <= |lit| then None
    else if StartsWith(s, lit) && cls(s[|lit|]) then Some(0)
    else match SearchIndex(s[1..], lit, cls)
      case None => None
      case Some(i) => Some(i + 1)
  }

  /** The search finds the leftmost index at which the pattern matches, and finds nothing
      exactly when it matches nowhere. */
  lemma {:induction false} SearchIndexSpec(s: string, lit: string, cls: char -> bool)
    ensures var r := SearchIndex(s, lit, cls);
      && (r.Some? ==> MatchesAt(s, r.value, lit, cls))
      && (forall j :: 0 <= j < (if r.Some? then r.value else |s|) ==> !MatchesAt(s, j, lit, cls))
    decreases |s|
  {
    assert s[0..] == s;
    if |s| <= |lit| {
    } else if StartsWith(s, lit) && cls(s[|lit|]) {
    } else {
      SearchIndexSpec(s[1..], lit, cls);
      forall j | 1 <= j < |s|
        ensures MatchesAt(s, j, lit, cls) <==> MatchesAt(s[1..], j - 1, lit, cls)
      {
        assert s[j..] == s[1..][j - 1..];
      }
    }
  }

  /** `m.group(1)` of `re.search(lit + '([cls]+)', s)`, or None when there is no match. */
  function SearchGroup(s: string, lit: string, cls: char -> bool): Option<string> {
    match SearchIndex(s, lit, cls)
    case None => None
    case Some(i) =>
      SearchIndexSpec(s, lit, cls);
      Some(Run(s[i + |lit|..], cls))
  }

  /** There is a group exactly when the pattern matches somewhere, and the group is a
      non-empty run of the class. */
  lemma SearchGroupSpec(s: string, lit: string, cls: char -> bool)
    ensures var g := SearchGroup(s, lit, cls);
      && (g.None? <==> forall j :: 0 <= j < |s| ==> !MatchesAt(s, j, lit, cls))
      && (g.Some? ==> |g.value| >= 1 && forall k :: 0 <= k < |g.value| ==> cls(g.value[k]))
  {
    SearchIndexSpec(s, lit, cls);
    match SearchIndex(s, lit, cls)
    case None =>
    case Some(i) =>
      RunSpec(s[i + |lit|..], cls);
  }

  /** `hafta-(\d+)` searched in an article link: the episode number as a digit string. */
  function HaftaNumber(link: string): Option<string> {
    SearchGroup(link, "hafta-", IsDigit)
  }

  const ApiPath := "/acast-rest/shows/5ec3d9497cef7479d2ef4798/episodes/"

  /** `/acast-rest/shows/5ec3d9497cef7479d2ef4798/episodes/([a-z0-9]+)` searched in a
      request URL: the episode identifier. */
  function ApiEpisodeId(url: string): Option<string> {
    SearchGroup(url, ApiPath, IsLowerAlnum)
  }

  const LabelPrefix := "click to read Hafta "

  /** `^click to read Hafta \d+:` matched against an aria-label: the greedy digit run
      cannot give back a digit to make room for the colon, so it must be followed by one. */
  predicate LabelMatches(aria: string) {
    && StartsWith(aria, LabelPrefix)
    && var digits := Run(aria[|LabelPrefix|..], IsDigit);
    && |digits| >= 1
    && |LabelPrefix| + |digits| < |aria|
    && aria[|LabelPrefix| + |digits|] == ':'
  }
}
