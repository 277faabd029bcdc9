/** The two tag-stripping regular expressions of the feed generators, written out as the
    left-to-right scans `re.sub` performs. */
module Markup {
  import opened Wrappers
  import opened JsonValues

  /** `a` can be obtained from `b` by deleting characters. */
  ghost predicate IsSubsequence(a: string, b: string)
    decreases |b|
  {
    if a == [] then true
    else if b == [] then false
    else (a[0] == b[0] && IsSubsequence(a[1..], b[1..])) || IsSubsequence(a, b[1..])
  }

  lemma {:induction false} SubsequenceCons(c: char, a: string, b: string)
    requires IsSubsequence(a, b)
    ensures IsSubsequence([c] + a, [c] + b)
  {
    assert ([c] + a)[1..] == a && ([c] + b)[1..] == b;
  }

  lemma {:induction false} SubsequenceDrop(a: string, b: string, k: nat)
    requires k <= |b| && IsSubsequence(a, b[k..])
    ensures IsSubsequence(a, b)
    decreases k
  {
    if k > 0 {
      var c := b[k - 1..];
      assert c[1..] == b[k..];
      assert IsSubsequence(a, c);
      SubsequenceDrop(a, b, k - 1);
    }
  }

  lemma {:induction false} SubsequenceRefl(a: string)
    ensures IsSubsequence(a, a)
    decreases |a|
  {
    if a != [] {
      SubsequenceRefl(a[1..]);
    }
  }

  // ---------------------------------------------------------------------------
  // `re.sub('<.*?>', '', text)` (hafta_scraper.py): `.` does not match a newline, and the
  // lazy `*?` stops at the nearest `>`.

  /** Where a tag that opens just before `r` ends: the index of the first `>` in `r`,
      provided `stop` does not come before it. The line cleaner stops at a newline, the
      summary stripper at another `<`. */
  function FirstGt(r: string, stop: char): (e: Option<nat>)
    requires stop != '>'
    ensures e.Some? ==> e.value < |r| && r[e.value] == '>'
    ensures e.Some? ==> forall k :: 0 <= k < e.value ==> r[k] != stop && r[k] != '>'
    ensures e.None? ==> forall k :: 0 <= k < |r| && r[k] == '>' ==> exists m :: 0 <= m < k && r[m] == stop
    decreases |r|
  {
    if r == [] || r[0] == stop then None
    else if r[0] == '>' then Some(0)
    else match FirstGt(r[1..], stop)
      case None => (assert forall k :: 1 <= k < |r| && r[k] == '>' ==> r[1..][k - 1] == '>'; None)
      case Some(j) => Some(j + 1)
  }

  /** Deletes every `<` together with everything up to the nearest following `>` on the
      same line; a `<` with no `>` after it on its line stays. */
  function CleanTags(s: string): string
    decreases |s|
  {
    if s == [] then []
    else if s[0] == '<' && FirstGt(s[1..], '\n').Some? then CleanTags(s[FirstGt(s[1..], '\n').value + 2..])
    else [s[0]] + CleanTags(s[1..])
  }

  /** `clean_html_tags(text)`: None or an empty string give ""; `re.sub` raises on any
      other value that is not a string. */
  function CleanHtmlTags(text: Json): (r: Result<string>)
    ensures !Truthy(text) ==> r == Ok("")
    ensures text.JStr? ==> r == Ok(CleanTags(text.s))
    ensures Truthy(text) && !text.JStr? ==> r.Err?
  {
    if !Truthy(text) then Ok("")
    else if text.JStr? then Ok(CleanTags(text.s))
    else Err("TypeError")
  }

  /** No `<` of `t` is closed by a `>` later on its line. */
  ghost predicate NoLineTag(t: string)
    decreases |t|
  {
    t == [] || ((t[0] == '<' ==> FirstGt(t[1..], '\n') == None) && NoLineTag(t[1..]))
  }

  /** The cleaner only deletes characters. */
  lemma {:induction false} CleanTagsSubsequence(s: string)
    ensures IsSubsequence(CleanTags(s), s)
    decreases |s|
  {
    if s == [] {
    } else if s[0] == '<' && FirstGt(s[1..], '\n').Some? {
      var k := FirstGt(s[1..], '\n').value + 2;
      CleanTagsSubsequence(s[k..]);
      SubsequenceDrop(CleanTags(s), s, k);
    } else {
      CleanTagsSubsequence(s[1..]);
      SubsequenceCons(s[0], CleanTags(s[1..]), s[1..]);
      assert [s[0]] + s[1..] == s;
    }
  }

  /** Text without a closable `<` passes through unchanged. */
  lemma {:induction false} CleanTagsFixedPoint(t: string)
    requires NoLineTag(t)
    ensures CleanTags(t) == t
    decreases |t|
  {
    if t != [] {
      CleanTagsFixedPoint(t[1..]);
      assert [t[0]] + t[1..] == t;
    }
  }

  /** Deleting tags never brings a `>` onto a line that had none: newlines are never
      deleted, since a tag does not span lines. */
  lemma {:induction false} CleanTagsKeepsUnclosed(r: string)
    requires FirstGt(r, '\n') == None
    ensures FirstGt(CleanTags(r), '\n') == None
    decreases |r|
  {
    if r != [] && r[0] != '\n' {
      assert FirstGt(r[1..], '\n') == None;
      CleanTagsKeepsUnclosed(r[1..]);
      var c := CleanTags(r);
      assert c == [r[0]] + CleanTags(r[1..]);
      assert c[1..] == CleanTags(r[1..]);
    }
  }

  /** What the cleaner leaves contains no closable tag. */
  lemma {:induction false} CleanTagsNoLineTag(s: string)
    ensures NoLineTag(CleanTags(s))
    decreases |s|
  {
    if s == [] {
    } else if s[0] == '<' && FirstGt(s[1..], '\n').Some? {
      CleanTagsNoLineTag(s[FirstGt(s[1..], '\n').value + 2..]);
    } else {
      CleanTagsNoLineTag(s[1..]);
      if s[0] == '<' {
        CleanTagsKeepsUnclosed(s[1..]);
      }
      var c := CleanTags(s);
      assert c[1..] == CleanTags(s[1..]);
    }
  }

  /** Cleaning twice is cleaning once. */
  lemma CleanTagsIdempotent(s: string)
    ensures CleanTags(CleanTags(s)) == CleanTags(s)
  {
    CleanTagsNoLineTag(s);
    CleanTagsFixedPoint(CleanTags(s));
  }

  // ---------------------------------------------------------------------------
  // `re.sub('<[^<]+?>', '', summary)` (json_to_rss.py): a `<`, at least one character
  // other than `<`, then the first `>`; newlines are allowed inside.

  /** Where the tag that opens just before `r` ends: `r[0]` is the one character `[^<]+?`
      must take (it may be `>`), and the tag closes at the first `>` after it. */
  function SummaryTagEnd(r: string): (e: Option<nat>)
    ensures e.Some? ==> 1 <= e.value < |r| && r[e.value] == '>'
    ensures e.Some? ==> forall k :: 0 <= k < e.value ==> r[k] != '<'
  {
    if r == [] || r[0] == '<' then None
    else match FirstGt(r[1..], '<')
      case None => None
      case Some(j) => Some(j + 1)
  }

  function StripSummaryTags(s: string): string
    decreases |s|
  {
    if s == [] then []
    else if s[0] == '<' && SummaryTagEnd(s[1..]).Some? then StripSummaryTags(s[SummaryTagEnd(s[1..]).value + 2..])
    else [s[0]] + StripSummaryTags(s[1..])
  }

  /** The summary stripper only deletes characters. */
  lemma {:induction false} StripSummarySubsequence(s: string)
    ensures IsSubsequence(StripSummaryTags(s), s)
    decreases |s|
  {
    if s == [] {
    } else if s[0] == '<' && SummaryTagEnd(s[1..]).Some? {
      var k := SummaryTagEnd(s[1..]).value + 2;
      StripSummarySubsequence(s[k..]);
      SubsequenceDrop(StripSummaryTags(s), s, k);
    } else {
      StripSummarySubsequence(s[1..]);
      SubsequenceCons(s[0], StripSummaryTags(s[1..]), s[1..]);
      assert [s[0]] + s[1..] == s;
    }
  }

  /** Text without `<` passes through unchanged. */
  lemma {:induction false} StripSummaryPlainText(s: string)
    requires forall i :: 0 <= i < |s| ==> s[i] != '<'
    ensures StripSummaryTags(s) == s
    decreases |s|
  {
    if s != [] {
      StripSummaryPlainText(s[1..]);
      assert [s[0]] + s[1..] == s;
    }
  }

  /** Unlike the line-bound cleaner, one pass of the summary stripper can leave a tag
      behind: deleting the inner tag of `<a<b>>` joins `<a` and `>`. */
  lemma StripSummaryNotIdempotent()
    ensures StripSummaryTags("<a<b>>") == "<a>"
    ensures StripSummaryTags("<a>") == ""
  {
    assert SummaryTagEnd("a<b>>") == None;
    assert StripSummaryTags("<a<b>>") == "<" + StripSummaryTags("a<b>>");
    assert SummaryTagEnd("b>>") == Some(1);
    assert StripSummaryTags("<b>>") == StripSummaryTags(">");
    assert SummaryTagEnd("a>") == Some(1);
  }
}
