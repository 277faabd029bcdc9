/** json_to_rss.py: the metadata rows become the lines of an RSS document, one `<item>`
    block per row, joined with newlines. */
module RssLines {
  import opened Wrappers
  import opened Decimal
  import opened JsonValues
  import opened Http
  import opened Cdata
  import opened Markup
  import opened Duration
  import opened Lines
  import opened PyFloat

  // ---------------------------------------------------------------------------
  // get_file_size

  /** `get_file_size(url)`: the `Content-Length` header when it is a digit string, 1 when
      it is missing, not a digit string, or the request raised. */
  function FileSize(h: Head): nat {
    match h
    case HeadAnswered(Some(size)) => if AllDigits(size) then ParseDigits(size) else 1
    case _ => 1
  }

  /** A length the server reports in decimal is read back as itself; an unusable answer
      falls back to 1. */
  lemma FileSizeSpec(n: nat, size: string)
    ensures FileSize(HeadAnswered(Some(NatToString(n)))) == n
    ensures !AllDigits(size) ==> FileSize(HeadAnswered(Some(size))) == 1
    ensures FileSize(HeadAnswered(None)) == 1 && FileSize(HeadRaised) == 1
  {
    ParseNatToString(n);
  }

  // ---------------------------------------------------------------------------
  // The guid: `url.split("/")[-1].split(".")[0]`

  /** The last `/`-separated field of `s`. */
  function AfterLastSlash(s: string): string
    decreases |s|
  {
    if s == [] || s[|s| - 1] == '/' then [] else AfterLastSlash(s[..|s| - 1]) + [s[|s| - 1]]
  }

  /** The first `.`-separated field of `s`. */
  function BeforeFirstDot(s: string): string
    decreases |s|
  {
    if s == [] || s[0] == '.' then [] else [s[0]] + BeforeFirstDot(s[1..])
  }

  function Guid(url: string): string {
    BeforeFirstDot(AfterLastSlash(url))
  }

  /** The last field is a suffix of the string. */
  lemma {:induction false} AfterLastSlashSuffix(s: string)
    ensures |AfterLastSlash(s)| <= |s| && AfterLastSlash(s) == s[|s| - |AfterLastSlash(s)|..]
    decreases |s|
  {
    if s != [] && s[|s| - 1] != '/' {
      var init := s[..|s| - 1];
      AfterLastSlashSuffix(init);
      var g := AfterLastSlash(init);
      assert AfterLastSlash(s) == g + [s[|s| - 1]];
      assert init[|init| - |g|..] + [s[|s| - 1]] == s[|s| - |g| - 1..];
    }
  }

  /** The last field holds no `/`. */
  lemma {:induction false} AfterLastSlashPlain(s: string)
    ensures forall i :: 0 <= i < |AfterLastSlash(s)| ==> AfterLastSlash(s)[i] != '/'
    decreases |s|
  {
    if s != [] && s[|s| - 1] != '/' {
      var init := s[..|s| - 1];
      AfterLastSlashPlain(init);
      var g := AfterLastSlash(init);
      assert AfterLastSlash(s) == g + [s[|s| - 1]];
      forall i | 0 <= i < |AfterLastSlash(s)| ensures AfterLastSlash(s)[i] != '/' {
        if i < |g| {
          assert AfterLastSlash(s)[i] == g[i];
        }
      }
    }
  }

  /** The last field starts the string or follows a `/`. */
  lemma {:induction false} AfterLastSlashStart(s: string)
    ensures |AfterLastSlash(s)| < |s| ==> s[|s| - |AfterLastSlash(s)| - 1] == '/'
    decreases |s|
  {
    if s != [] && s[|s| - 1] != '/' {
      var init := s[..|s| - 1];
      AfterLastSlashStart(init);
      var g := AfterLastSlash(init);
      assert AfterLastSlash(s) == g + [s[|s| - 1]];
      if |g| < |init| {
        assert s[|s| - |g| - 2] == init[|init| - |g| - 1];
      }
    }
  }

  /** The last field is a suffix without `/` that starts the string or follows a `/`. */
  lemma AfterLastSlashSpec(s: string)
    ensures var f := AfterLastSlash(s);
      && |f| <= |s| && f == s[|s| - |f|..]
      && (forall i :: 0 <= i < |f| ==> f[i] != '/')
      && (|f| < |s| ==> s[|s| - |f| - 1] == '/')
  {
    AfterLastSlashSuffix(s);
    AfterLastSlashPlain(s);
    AfterLastSlashStart(s);
  }

  /** The first field is a prefix without `.` that ends the string or precedes a `.`. */
  lemma {:induction false} BeforeFirstDotSpec(s: string)
    ensures var f := BeforeFirstDot(s);
      && |f| <= |s| && f == s[..|f|]
      && (forall i :: 0 <= i < |f| ==> f[i] != '.')
      && (|f| < |s| ==> s[|f|] == '.')
    decreases |s|
  {
    if s != [] && s[0] != '.' {
      BeforeFirstDotSpec(s[1..]);
    }
  }

  /** The last field after a `/` is everything after it when that holds no `/`. */
  lemma {:induction false} LastFieldAfterSlash(prefix: string, tail: string)
    requires forall i :: 0 <= i < |tail| ==> tail[i] != '/'
    ensures AfterLastSlash(prefix + "/" + tail) == tail
    decreases |tail|
  {
    var s := prefix + "/" + tail;
    if tail != [] {
      var init := tail[..|tail| - 1];
      assert s[..|s| - 1] == prefix + "/" + init;
      assert s[|s| - 1] == tail[|tail| - 1];
      LastFieldAfterSlash(prefix, init);
      assert init + [tail[|tail| - 1]] == tail;
    }
  }

  /** The first field before a `.` is everything before it when that holds no `.`. */
  lemma {:induction false} FirstFieldBeforeDot(name: string, rest: string)
    requires forall i :: 0 <= i < |name| ==> name[i] != '.'
    ensures BeforeFirstDot(name + "." + rest) == name
    decreases |name|
  {
    var s := name + "." + rest;
    if name != [] {
      assert s[0] == name[0];
      assert s[1..] == name[1..] + "." + rest;
      FirstFieldBeforeDot(name[1..], rest);
      assert [name[0]] + name[1..] == name;
    }
  }

  /** The guid of a stream URL is the file name without its extension. */
  lemma GuidOfFile(dir: string, name: string, ext: string)
    requires forall i :: 0 <= i < |name| ==> name[i] != '/' && name[i] != '.'
    requires forall i :: 0 <= i < |ext| ==> ext[i] != '/'
    ensures Guid(dir + "/" + name + "." + ext) == name
  {
    var tail := name + "." + ext;
    assert dir + "/" + name + "." + ext == dir + "/" + tail;
    assert forall i :: 0 <= i < |tail| ==> tail[i] != '/' by {
      forall i | 0 <= i < |tail| ensures tail[i] != '/' {
        if i < |name| {
          assert tail[i] == name[i];
        } else if i > |name| {
          assert tail[i] == ext[i - |name| - 1];
        }
      }
    }
    LastFieldAfterSlash(dir, tail);
    FirstFieldBeforeDot(name, ext);
  }

  /** Whatever the URL, the guid holds neither `/` nor `.`. */
  lemma GuidClean(url: string)
    ensures forall i :: 0 <= i < |Guid(url)| ==> Guid(url)[i] != '/' && Guid(url)[i] != '.'
  {
    var f := AfterLastSlash(url);
    AfterLastSlashSpec(url);
    BeforeFirstDotSpec(f);
  }

  // ---------------------------------------------------------------------------
  // Fields of a row

  /** `pub_date.replace('Z', '+00:00')`. */
  function ReplaceZ(s: string): string
    decreases |s|
  {
    if s == [] then []
    else (if s[0] == 'Z' then "+00:00" else [s[0]]) + ReplaceZ(s[1..])
  }

  /** No `Z` survives the replacement, and a string without one is left as it is. */
  lemma {:induction false} ReplaceZSpec(s: string)
    ensures forall i :: 0 <= i < |ReplaceZ(s)| ==> ReplaceZ(s)[i] != 'Z'
    ensures (forall i :: 0 <= i < |s| ==> s[i] != 'Z') ==> ReplaceZ(s) == s
    decreases |s|
  {
    if s != [] {
      ReplaceZSpec(s[1..]);
      assert s == [s[0]] + s[1..];
    }
  }

  /** `ep.get(key, '')` followed by `.replace(...)`, which only a string has. */
  function TextField(ep: Record, key: string): (r: Result<string>)
    ensures r.Ok? <==> key !in ep || ep[key].JStr?
    ensures key !in ep ==> r == Ok("")
    ensures key in ep && ep[key].JStr? ==> r == Ok(ep[key].s)
  {
    match Lookup(ep, key, JStr(""))
    case JStr(s) => Ok(s)
    case _ => Err("AttributeError: no replace")
  }

  /** The `<pubDate>` text: a string is converted by `isoToRfc` (`datetime.fromisoformat`
      then `strftime('%a, %d %b %Y %H:%M:%S GMT')`, None when parsing raises) after the
      `Z` replacement; when that fails the value itself is printed. */
  function PubDateText(p: Json, isoToRfc: string -> Option<string>, repr: Json -> string): (t: string)
    ensures p.JStr? && isoToRfc(ReplaceZ(p.s)).Some? ==> t == isoToRfc(ReplaceZ(p.s)).value
    ensures !(p.JStr? && isoToRfc(ReplaceZ(p.s)).Some?) ==> t == PyStr(p, repr)
  {
    if p.JStr? then
      match isoToRfc(ReplaceZ(p.s))
      case Some(t) => t
      case None => p.s
    else PyStr(p, repr)
  }

  /** The `<itunes:duration>` text: `float(duration)` read as whole seconds and formatted
      `HH:MM:SS`; a value `float` rejects is printed with `str`. */
  function DurationText(d: Json, repr: Json -> string): string {
    match d
    case JNum(n) => FormatHms(n)
    case JBool(b) => FormatHms(if b then 1 else 0)
    case JStr(s) =>
      (match WholeNumber(s)
       case Some(n) => FormatHms(n)
       case None => s)
    case _ => PyStr(d, repr)
  }

  /** A duration given as a number, or as a decimal string, is written so that it reads
      back as the same number of seconds. */
  lemma DurationTextRoundTrip(n: nat, repr: Json -> string)
    ensures ParseHms(DurationText(JNum(n), repr)) == Some(n)
    ensures ParseHms(DurationText(JStr(NatToString(n)), repr)) == Some(n)
  {
    FormatHmsRoundTrip(n);
    WholeNumberDigits(n);
  }

  /** A duration string `float` cannot read (two separators in a row, say) is written
      as it is; one with a separator or leading space is formatted like its digits. */
  lemma DurationTextStrings(a: string, b: string, repr: Json -> string)
    requires AllDigits(a) && AllDigits(b)
    ensures DurationText(JStr(a + "__" + b), repr) == a + "__" + b
    ensures DurationText(JStr(a + "_" + b), repr) == FormatHms(ParseDigits(a + b))
    ensures DurationText(JStr(" " + a), repr) == FormatHms(ParseDigits(a))
  {
    WholeNumberDoubleSeparator(a, b);
    WholeNumberSeparated(a, b);
    WholeNumberSpaced(a);
  }

  /** What the loop reads from one row. */
  datatype Episode = Episode(title: string, pubDate: string, summary: string, url: string, duration: string, cover: Json)

  /** The row's fields, or the exception that stops the script: a row that is not a dict,
      a title or summary that is not a string, a stream URL that is not a string. */
  function ReadEpisode(ep: Json, isoToRfc: string -> Option<string>, repr: Json -> string): (r: Result<Episode>)
    ensures r.Ok? <==> ep.JObj? && TextField(ep.fields, "title").Ok? && TextField(ep.fields, "summary").Ok?
                       && Lookup(ep.fields, "streamUrl", JStr("")).JStr?
  {
    if !ep.JObj? then Err("AttributeError: row has no get")
    else
      var f := ep.fields;
      match (TextField(f, "title"), TextField(f, "summary"), Lookup(f, "streamUrl", JStr("")))
      case (Ok(title), Ok(summary), JStr(url)) =>
        Ok(Episode(title, PubDateText(Lookup(f, "publishDate", JStr("")), isoToRfc, repr), summary, url,
                   DurationText(Lookup(f, "duration", JStr("")), repr), Lookup(f, "cover", JStr(""))))
      case _ => Err("AttributeError: no replace or split")
  }

  // ---------------------------------------------------------------------------
  // The itunes:summary text

  /** `re.sub('<[^<]+?>', '', summary)` applied, as written, to the summary after the CDATA
      escape. */
  function ItunesSummaryAsWritten(summary: string): string {
    StripSummaryTags(Escape(summary))
  }

  /** The tag stripper deletes the `<![CDATA[>` the escape inserted, so a summary holding
      `]]>` yields a line whose section ends early and leaves a stray terminator. */
  lemma ItunesSummaryAsWrittenBreaks()
    ensures StripSummaryTags("]]>") == "]]>"
    ensures SectionsText(Open + ItunesSummaryAsWritten("]]>") + Close) == None
  {
    StripSummaryPlainText("]]>");
    EscapeClose();
    StripSplit();
    SectionsTextStray();
  }

  lemma EscapeClose()
    ensures Escape("]]>") == Split
  {
    var s := "]]>";
    assert StartsWithClose(s);
    assert FindClose(s) == Some(0);
    assert s[3..] == [];
    assert s[..0] == [];
  }

  /** `]]]]>` in one section: the section closes after `]]` and `]]>` is left over. */
  lemma SectionsTextStray()
    ensures SectionsText(Open + "]]]]>" + Close) == None
  {
    var t := Open + "]]]]>" + Close;
    assert t[..9] == Open;
    var u := t[9..];
    assert u == "]]]]>]]>";
    FindCloseStray(u);
    assert t[14..] == Close;
    assert |Close| < 9;
  }

  lemma FindCloseStray(u: string)
    requires u == "]]]]>]]>"
    ensures FindClose(u) == Some(2)
  {
    assert StartsWithClose(u[2..]);
    assert FindClose(u[2..]) == Some(0);
    assert u[1..][1..] == u[2..];
    assert !StartsWithClose(u[1..]);
    assert FindClose(u[1..]) == Some(1);
    assert !StartsWithClose(u);
  }

  lemma StripSplit()
    ensures StripSummaryTags(Split) == "]]]]>"
  {
    SplitParts();
    StripReopen();
    PlainClose();
    StripPlainPrefix("]]]]>", "<![CDATA[>");
  }

  lemma SplitParts()
    ensures Split == "]]]]>" + "<![CDATA[>"
  {
  }

  /** `<![CDATA[>` reads as one tag and is removed. */
  lemma StripReopen()
    ensures StripSummaryTags("<![CDATA[>") == []
  {
    var tag := "<![CDATA[>";
    var r := tag[1..];
    assert r[1..] == "[CDATA[>";
    GtBeforeLtAt(r[1..], 7);
    assert SummaryTagEnd(r) == Some(8);
    assert tag[10..] == [];
  }

  lemma PlainClose()
    ensures forall i :: 0 <= i < |"]]]]>"| ==> "]]]]>"[i] != '<'
  {
  }

  /** The first `>` is found when nothing before it is `<` or `>`. */
  lemma {:induction false} GtBeforeLtAt(r: string, k: nat)
    requires k < |r| && r[k] == '>'
    requires forall i :: 0 <= i < k ==> r[i] != '<' && r[i] != '>'
    ensures FirstGt(r, '<') == Some(k)
    decreases k
  {
    if k > 0 {
      GtBeforeLtAt(r[1..], k - 1);
    }
  }

  /** A prefix without `<` is copied in front of what the rest strips to. */
  lemma {:induction false} StripPlainPrefix(p: string, rest: string)
    requires forall i :: 0 <= i < |p| ==> p[i] != '<'
    ensures StripSummaryTags(p + rest) == p + StripSummaryTags(rest)
    decreases |p|
  {
    if p == [] {
      assert p + rest == rest;
    } else {
      var t := p + rest;
      assert t[0] == p[0] && p[0] != '<';
      assert t[1..] == p[1..] + rest;
      StripPlainPrefix(p[1..], rest);
      assert StripSummaryTags(t) == [t[0]] + StripSummaryTags(t[1..]);
      assert [p[0]] + (p[1..] + StripSummaryTags(rest)) == p + StripSummaryTags(rest);
    }
  }

  /** The text the itunes:summary section is evidently meant to hold: the summary with its
      tags stripped, then escaped for CDATA. */
  function ItunesSummary(summary: string): string {
    Escape(StripSummaryTags(summary))
  }

  /** The itunes:summary section reads back as the stripped summary, whatever it contains. */
  lemma ItunesSummaryRoundTrip(summary: string)
    ensures SectionsText(Open + ItunesSummary(summary) + Close) == Some(StripSummaryTags(summary))
  {
    EscapeRoundTrip(StripSummaryTags(summary));
  }

  /** On a summary in which no `]]>` occurs, before or after stripping, the script's
      text is the intended one and its section reads back as the stripped summary. */
  lemma ItunesSummaryAgrees(summary: string)
    requires FindClose(summary) == None && FindClose(StripSummaryTags(summary)) == None
    ensures ItunesSummaryAsWritten(summary) == ItunesSummary(summary)
    ensures SectionsText(Open + ItunesSummaryAsWritten(summary) + Close) == Some(StripSummaryTags(summary))
  {
    ItunesSummaryRoundTrip(summary);
  }

  // ---------------------------------------------------------------------------
  // The lines

  const Header1: seq<string> := [
    "<?xml version=\"1.0\" encoding=\"UTF-8\"?>",
    "<rss xmlns:dc=\"http://purl.org/dc/elements/1.1/\"",
    "    xmlns:content=\"http://purl.org/rss/1.0/modules/content/\"",
    "    xmlns:atom=\"http://www.w3.org/2005/Atom\" version=\"2.0\"",
    "    xmlns:itunes=\"http://www.itunes.com/dtds/podcast-1.0.dtd\">",
    "  <channel>",
    "    <title><![CDATA[Hafta Podcast]]></title>",
    "    <description><![CDATA[All Hafta episodes]]></description>",
    "    <link>https://www.newslaundry.com/hafta</link>",
    "    <image>",
    "      <url>https://assets.pippa.io/shows/5ec3d9497cef7479d2ef4798/1751695551059-62a98700-bdf2-4588-911c-4f8f4d930ac3.jpeg</url>",
    "      <title>Hafta Podcast</title>",
    "      <link>https://www.newslaundry.com/hafta</link>",
    "    </image>",
    "    <generator>Python Script</generator>"
  ]

  const Header2: seq<string> := [
    "    <atom:link href=\"https://www.newslaundry.com/hafta\" rel=\"self\" type=\"application/rss+xml\" />",
    "    <pubDate>Mon, 18 May 2020 08:30:55 GMT</pubDate>",
    "    <copyright><![CDATA[All rights reserved]]></copyright>",
    "    <language><![CDATA[en]]></language>",
    "    <managingEditor>subscription@newslaundry.com (Newslaundry)</managingEditor>",
    "    <webMaster>subscription@newslaundry.com (Newslaundry)</webMaster>",
    "    <category><![CDATA[News]]></category>",
    "    <itunes:author>Newslaundry.com</itunes:author>",
    "    <itunes:summary><![CDATA[All Hafta episodes]]></itunes:summary>",
    "    <itunes:owner>",
    "      <itunes:name>Newslaundry</itunes:name>",
    "      <itunes:email>subscription@newslaundry.com</itunes:email>",
    "    </itunes:owner>",
    "    <itunes:explicit>false</itunes:explicit>",
    "    <itunes:image href=\"https://assets.pippa.io/shows/5ec3d9497cef7479d2ef4798/1751695551059-62a98700-bdf2-4588-911c-4f8f4d930ac3.jpeg\" />",
    "    <itunes:category text=\"News\" />"
  ]

  /** The channel header; `lastBuild` is `datetime.utcnow()` in the same format as dates. */
  function Header(lastBuild: string): seq<string> {
    Header1 + ["    <lastBuildDate>" + lastBuild + "</lastBuildDate>"] + Header2
  }

  const Footer: seq<string> := ["  </channel>", "</rss>"]

  const ItemOpen := "    <item>"
  const ItemClose := "    </item>"

  /** A line of an item's body, indented by six spaces. */
  function Indent(s: string): string {
    "      " + s
  }

  /** The texts of the lines between `<item>` and `</item>` for one episode; `length`
      is its enclosure length. */
  function BodyTexts(e: Episode, length: nat, repr: Json -> string): seq<string> {
    ["<title><![CDATA[" + Escape(e.title) + "]]></title>",
     "<description><![CDATA[" + Escape(e.summary) + "]]></description>",
     "<guid isPermaLink=\"false\">" + Guid(e.url) + "</guid>",
     "<dc:creator><![CDATA[Newslaundry]]></dc:creator>",
     "<pubDate>" + e.pubDate + "</pubDate>",
     "<enclosure url=\"" + e.url + "\" type=\"audio/mpeg\" length=\"" + NatToString(length) + "\"/>",
     "<itunes:author>Newslaundry</itunes:author>",
     "<itunes:summary><![CDATA[" + ItunesSummaryAsWritten(e.summary) + "]]></itunes:summary>",
     "<itunes:explicit>false</itunes:explicit>",
     "<itunes:duration>" + e.duration + "</itunes:duration>"]
    + (if Truthy(e.cover) then ["<itunes:image href=\"" + PyStr(e.cover, repr) + "\" />"] else [])
  }

  /** Those lines, each indented by six spaces. */
  function Body(e: Episode, length: nat, repr: Json -> string): (b: seq<string>)
    ensures |b| == |BodyTexts(e, length, repr)|
    ensures forall i :: 0 <= i < |b| ==> b[i] == Indent(BodyTexts(e, length, repr)[i])
  {
    var ts := BodyTexts(e, length, repr);
    seq(|ts|, i requires 0 <= i < |ts| => Indent(ts[i]))
  }

  function ItemLines(e: Episode, length: nat, repr: Json -> string): seq<string> {
    [ItemOpen] + Body(e, length, repr) + [ItemClose]
  }

  /** The block of a row, or the exception its fields raise. */
  function EpisodeLines(ep: Json, head: string -> Head, isoToRfc: string -> Option<string>, repr: Json -> string)
    : (r: Result<seq<string>>)
    ensures r.Ok? <==> ReadEpisode(ep, isoToRfc, repr).Ok?
  {
    match ReadEpisode(ep, isoToRfc, repr)
    case Err(e) => Err(e)
    case Ok(e) => Ok(ItemLines(e, FileSize(head(e.url)), repr))
  }

  /** The blocks of the rows, in order. */
  function Blocks(eps: seq<Json>, head: string -> Head, isoToRfc: string -> Option<string>, repr: Json -> string)
    : (bs: seq<Result<seq<string>>>)
    ensures |bs| == |eps|
    ensures forall i :: 0 <= i < |eps| ==> bs[i] == EpisodeLines(eps[i], head, isoToRfc, repr)
  {
    seq(|eps|, i requires 0 <= i < |eps| => EpisodeLines(eps[i], head, isoToRfc, repr))
  }

  /** The blocks joined in order; the first exception stops the script. */
  function Concat(bs: seq<Result<seq<string>>>): Result<seq<string>>
    decreases |bs|
  {
    if bs == [] then Ok([])
    else
      var n := |bs| - 1;
      match Concat(bs[..n])
      case Err(e) => Err(e)
      case Ok(lines) =>
        match bs[n]
        case Err(e) => Err(e)
        case Ok(block) => Ok(lines + block)
  }

  /** The whole document's lines. */
  function FeedLines(eps: seq<Json>, lastBuild: string, head: string -> Head,
                     isoToRfc: string -> Option<string>, repr: Json -> string): Result<seq<string>>
  {
    match Concat(Blocks(eps, head, isoToRfc, repr))
    case Err(e) => Err(e)
    case Ok(items) => Ok(Header(lastBuild) + items + Footer)
  }

  lemma {:induction false} ConcatErrSticky(bs: seq<Result<seq<string>>>, i: nat)
    requires i <= |bs| && Concat(bs[..i]).Err?
    ensures Concat(bs) == Concat(bs[..i])
    decreases |bs| - i
  {
    if i < |bs| {
      assert bs[..i + 1][..i] == bs[..i];
      ConcatErrSticky(bs, i + 1);
    } else {
      assert bs[..i] == bs;
    }
  }

  lemma ConcatSnoc(bs: seq<Result<seq<string>>>, i: nat)
    requires i < |bs|
    ensures Concat(bs[..i + 1]) == match Concat(bs[..i])
      case Err(e) => Err(e)
      case Ok(lines) => match bs[i] case Err(e) => Err(e) case Ok(block) => Ok(lines + block)
  {
    assert bs[..i + 1][..i] == bs[..i];
  }

  /** The loop of the script: the blocks of the rows in order, or the exception of the
      first row it cannot read. */
  method RenderItems(episodes: seq<Json>, head: string -> Head, isoToRfc: string -> Option<string>,
                     repr: Json -> string)
    returns (items: Result<seq<string>>)
    ensures items == Concat(Blocks(episodes, head, isoToRfc, repr))
  {
    ghost var bs := Blocks(episodes, head, isoToRfc, repr);
    var lines: seq<string> := [];
    var i := 0;
    while i < |episodes|
      invariant 0 <= i <= |episodes|
      invariant Concat(bs[..i]) == Ok(lines)
    {
      ConcatSnoc(bs, i);
      var block := EpisodeLines(episodes[i], head, isoToRfc, repr);
      assert block == bs[i];
      if block.Err? {
        ConcatErrSticky(bs, i + 1);
        return Err(block.error);
      }
      lines := lines + block.value;
      i := i + 1;
    }
    assert bs[..i] == bs;
    return Ok(lines);
  }

  /** The script: the header, one block per row, the footer, joined with newlines; or the
      exception of the first row it cannot read, in which case nothing is written. */
  method JsonToRss(episodes: seq<Json>, lastBuild: string, head: string -> Head,
                   isoToRfc: string -> Option<string>, repr: Json -> string)
    returns (feed: Result<string>)
    ensures feed == match FeedLines(episodes, lastBuild, head, isoToRfc, repr)
                    case Err(e) => Err(e)
                    case Ok(lines) => Ok(Join(lines))
  {
    var header := Header(lastBuild);
    var items := RenderItems(episodes, head, isoToRfc, repr);
    if items.Err? {
      return Err(items.error);
    }
    return Ok(Join(header + items.value + Footer));
  }

  // ---------------------------------------------------------------------------
  // Properties of the document

  /** How many lines equal `x`. */
  function Count(lines: seq<string>, x: string): nat
    decreases |lines|
  {
    if lines == [] then 0 else (if lines[0] == x then 1 else 0) + Count(lines[1..], x)
  }

  lemma {:induction false} CountAppend(a: seq<string>, b: seq<string>, x: string)
    ensures Count(a + b, x) == Count(a, x) + Count(b, x)
    decreases |a|
  {
    if a == [] {
      assert a + b == b;
    } else {
      assert (a + b)[1..] == a[1..] + b;
      CountAppend(a[1..], b, x);
    }
  }

  lemma {:induction false} CountAbsent(a: seq<string>, x: string)
    requires forall i :: 0 <= i < |a| ==> a[i] != x
    ensures Count(a, x) == 0
    decreases |a|
  {
    if a != [] {
      CountAbsent(a[1..], x);
    }
  }

  /** An indented line is never `<item>`. */
  lemma IndentNotOpen(l: string)
    ensures Indent(l) != ItemOpen
  {
    assert Indent(l)[4] == ' ' != ItemOpen[4];
  }

  /** Each block opens with `<item>`, closes with `</item>`, and holds no other `<item>`. */
  lemma ItemLinesShape(e: Episode, length: nat, repr: Json -> string)
    ensures var b := ItemLines(e, length, repr);
      && |b| == (if Truthy(e.cover) then 13 else 12)
      && b[0] == ItemOpen && b[|b| - 1] == ItemClose
      && Count(b, ItemOpen) == 1
  {
    var body := Body(e, length, repr);
    forall i | 0 <= i < |body| ensures body[i] != ItemOpen {
      BodyIndented(e, length, repr, i);
    }
    CountAbsent(body, ItemOpen);
    assert ItemClose != ItemOpen;
    CountAbsent([ItemClose], ItemOpen);
    CountAppend(body, [ItemClose], ItemOpen);
    var b := ItemLines(e, length, repr);
    assert b[1..] == body + [ItemClose];
  }

  lemma BodyIndented(e: Episode, length: nat, repr: Json -> string, i: nat)
    requires i < |Body(e, length, repr)|
    ensures Body(e, length, repr)[i] != ItemOpen
  {
    IndentNotOpen(BodyTexts(e, length, repr)[i]);
  }

  lemma HeaderFooterNoItem(lastBuild: string)
    ensures Count(Header(lastBuild), ItemOpen) == 0
    ensures Count(Footer, ItemOpen) == 0
    ensures |Header(lastBuild)| == 32
  {
    var h := Header(lastBuild);
    forall i | 0 <= i < |h| ensures h[i] != ItemOpen {
      if i == 15 {
        assert h[i][5] == 'l';
      }
    }
    CountAbsent(h, ItemOpen);
    CountAbsent(Footer, ItemOpen);
  }

  /** Joining blocks that each hold one `<item>` line gives one per block. */
  lemma {:induction false} ConcatCount(bs: seq<Result<seq<string>>>)
    requires Concat(bs).Ok?
    requires forall i :: 0 <= i < |bs| && bs[i].Ok? ==> Count(bs[i].value, ItemOpen) == 1
    ensures Count(Concat(bs).value, ItemOpen) == |bs|
    decreases |bs|
  {
    if bs != [] {
      var n := |bs| - 1;
      assert forall i :: 0 <= i < n ==> bs[..n][i] == bs[i];
      ConcatCount(bs[..n]);
      CountAppend(Concat(bs[..n]).value, bs[n].value, ItemOpen);
    }
  }

  /** The blocks join exactly when none of them is an exception. */
  lemma {:induction false} ConcatOk(bs: seq<Result<seq<string>>>)
    ensures Concat(bs).Ok? <==> forall i :: 0 <= i < |bs| ==> bs[i].Ok?
    decreases |bs|
  {
    if bs != [] {
      var n := |bs| - 1;
      ConcatOk(bs[..n]);
      assert forall i :: 0 <= i < n ==> bs[..n][i] == bs[i];
    }
  }

  /** The script writes a document exactly when every row reads, and the document then has
      one `<item>` line per row. */
  lemma FeedSpec(eps: seq<Json>, lastBuild: string, head: string -> Head,
                 isoToRfc: string -> Option<string>, repr: Json -> string)
    ensures FeedLines(eps, lastBuild, head, isoToRfc, repr).Ok?
        <==> forall i :: 0 <= i < |eps| ==> ReadEpisode(eps[i], isoToRfc, repr).Ok?
    ensures FeedLines(eps, lastBuild, head, isoToRfc, repr).Ok? ==>
              Count(FeedLines(eps, lastBuild, head, isoToRfc, repr).value, ItemOpen) == |eps|
  {
    var bs := Blocks(eps, head, isoToRfc, repr);
    ConcatOk(bs);
    if Concat(bs).Ok? {
      forall i | 0 <= i < |bs| && bs[i].Ok? ensures Count(bs[i].value, ItemOpen) == 1 {
        var e := ReadEpisode(eps[i], isoToRfc, repr).value;
        ItemLinesShape(e, FileSize(head(e.url)), repr);
      }
      ConcatCount(bs);
      var items := Concat(bs).value;
      HeaderFooterNoItem(lastBuild);
      CountAppend(Header(lastBuild), items, ItemOpen);
      CountAppend(Header(lastBuild) + items, Footer, ItemOpen);
    }
  }
}
