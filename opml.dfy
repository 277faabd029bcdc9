/** json_to_opml.py: one `<outline>` line per metadata row between a fixed head and
    foot, joined with newlines. */
module Opml {
  import opened Wrappers
  import opened JsonValues
  import opened Lines

  // ---------------------------------------------------------------------------
  // Attribute text

  /** `title.replace('"', '&quot;')`, as the script escapes a title. */
  function QuoteEscape(s: string): string
    decreases |s|
  {
    if s == [] then []
    else (if s[0] == '"' then "&quot;" else [s[0]]) + QuoteEscape(s[1..])
  }

  /** A title escaped so that it can stand inside `"..."` in XML: `&` first, then `"` and
      `<`, each by its entity. */
  function AttrEscape(s: string): string
    decreases |s|
  {
    if s == [] then []
    else EscapeChar(s[0]) + AttrEscape(s[1..])
  }

  function EscapeChar(c: char): string {
    if c == '&' then "&amp;"
    else if c == '"' then "&quot;"
    else if c == '<' then "&lt;"
    else [c]
  }

  /** The entity-reference layer of an XML attribute value, the text between the quotes:
      the references `&amp;`, `&quot;` and `&lt;` stand for their characters, and a bare
      `&`, a `<` or a `"` makes the document malformed (None). Other references, the
      normalisation of whitespace in attribute values and XML's forbidden characters are
      not modelled. */
  function AttrText(t: string): Option<string>
    decreases |t|
  {
    if t == [] then Some([])
    else if t[0] == '<' || t[0] == '"' then None
    else if t[0] != '&' then Prepend(t[0], AttrText(t[1..]))
    else if |t| >= 5 && t[1] == 'a' && t[2] == 'm' && t[3] == 'p' && t[4] == ';' then Prepend('&', AttrText(t[5..]))
    else if |t| >= 6 && t[1] == 'q' && t[2] == 'u' && t[3] == 'o' && t[4] == 't' && t[5] == ';' then Prepend('"', AttrText(t[6..]))
    else if |t| >= 4 && t[1] == 'l' && t[2] == 't' && t[3] == ';' then Prepend('<', AttrText(t[4..]))
    else None
  }

  function Prepend(c: char, r: Option<string>): Option<string> {
    match r
    case None => None
    case Some(s) => Some([c] + s)
  }

  /** The script's escape leaves no `"` that would end the attribute early. */
  lemma {:induction false} QuoteEscapeNoQuote(s: string)
    ensures forall i :: 0 <= i < |QuoteEscape(s)| ==> QuoteEscape(s)[i] != '"'
    ensures (forall i :: 0 <= i < |s| ==> s[i] != '"') ==> QuoteEscape(s) == s
    decreases |s|
  {
    if s != [] {
      QuoteEscapeNoQuote(s[1..]);
      assert s == [s[0]] + s[1..];
    }
  }

  lemma AttrTextChar(c: char, rest: string)
    ensures AttrText(EscapeChar(c) + rest) == Prepend(c, AttrText(rest))
  {
    var t := EscapeChar(c) + rest;
    if c == '&' {
      assert t[5..] == rest;
    } else if c == '"' {
      assert t[6..] == rest;
    } else if c == '<' {
      assert t[4..] == rest;
    } else {
      assert t[1..] == rest;
    }
  }

  /** A title without `&` and `<` reads back from the script's escape unchanged. */
  lemma {:induction false} QuoteEscapeRoundTrip(s: string)
    requires forall i :: 0 <= i < |s| ==> s[i] != '&' && s[i] != '<'
    ensures AttrText(QuoteEscape(s)) == Some(s)
    decreases |s|
  {
    if s != [] {
      QuoteEscapeRoundTrip(s[1..]);
      assert QuoteEscape(s) == EscapeChar(s[0]) + QuoteEscape(s[1..]);
      AttrTextChar(s[0], QuoteEscape(s[1..]));
      assert [s[0]] + s[1..] == s;
    }
  }

  /** A title holding `&` makes the script write a malformed `text` attribute. */
  lemma QuoteEscapeAmpersand()
    ensures QuoteEscape("&") == "&"
    ensures AttrText(QuoteEscape("&")) == None
  {
    assert "&"[1..] == [];
  }

  /** Every title reads back from the full escape unchanged. */
  lemma {:induction false} AttrEscapeRoundTrip(s: string)
    ensures AttrText(AttrEscape(s)) == Some(s)
    decreases |s|
  {
    if s != [] {
      AttrEscapeRoundTrip(s[1..]);
      AttrTextChar(s[0], AttrEscape(s[1..]));
      assert [s[0]] + s[1..] == s;
    }
  }

  // ---------------------------------------------------------------------------
  // The lines

  const Head: seq<string> := [
    "<?xml version=\"1.0\" encoding=\"UTF-8\"?>",
    "<opml version=\"2.0\">",
    "  <head>",
    "    <title>Hafta Episodes</title>",
    "  </head>",
    "  <body>"
  ]

  const Foot: seq<string> := ["  </body>", "</opml>"]

  const OutlineOpen := "    <outline text=\""

  /** The outline of one row: `ep.get('title', '')` must be a string, `ep.get('streamUrl',
      '')` is printed with `str`. */
  function OutlineLine(ep: Json, repr: Json -> string): (r: Result<string>)
    ensures r.Ok? <==> ep.JObj? && Lookup(ep.fields, "title", JStr("")).JStr?
  {
    if !ep.JObj? then Err("AttributeError: row has no get")
    else match Lookup(ep.fields, "title", JStr(""))
      case JStr(title) =>
        var url := PyStr(Lookup(ep.fields, "streamUrl", JStr("")), repr);
        Ok(OutlineOpen + QuoteEscape(title) + "\" type=\"audio\" xmlUrl=\"" + url + "\"/>")
      case _ => Err("AttributeError: title has no replace")
  }

  /** The outline as it is evidently meant to be written: the title escaped by
      `AttrEscape`, so that every title can be read back. */
  function OutlineLineFixed(ep: Json, repr: Json -> string): (r: Result<string>)
    ensures r.Ok? <==> OutlineLine(ep, repr).Ok?
  {
    if !ep.JObj? then Err("AttributeError: row has no get")
    else match Lookup(ep.fields, "title", JStr(""))
      case JStr(title) =>
        var url := PyStr(Lookup(ep.fields, "streamUrl", JStr("")), repr);
        Ok(OutlineOpen + AttrEscape(title) + "\" type=\"audio\" xmlUrl=\"" + url + "\"/>")
      case _ => Err("AttributeError: title has no replace")
  }

  /** The outline of each row, in order. */
  function OutlineResults(eps: seq<Json>, repr: Json -> string): (rs: seq<Result<string>>)
    ensures |rs| == |eps|
    ensures forall i :: 0 <= i < |eps| ==> rs[i] == OutlineLine(eps[i], repr)
  {
    seq(|eps|, i requires 0 <= i < |eps| => OutlineLine(eps[i], repr))
  }

  /** The document's lines, or the exception of the first row that cannot be read. */
  function OpmlLines(eps: seq<Json>, repr: Json -> string): Result<seq<string>> {
    match All(OutlineResults(eps, repr))
    case Err(e) => Err(e)
    case Ok(lines) => Ok(Head + lines + Foot)
  }

  method JsonToOpml(episodes: seq<Json>, repr: Json -> string) returns (doc: Result<string>)
    ensures doc == match OpmlLines(episodes, repr)
                   case Err(e) => Err(e)
                   case Ok(lines) => Ok(Join(lines))
  {
    ghost var rs := OutlineResults(episodes, repr);
    var outlines: seq<string> := [];
    var i := 0;
    while i < |episodes|
      invariant 0 <= i <= |episodes|
      invariant All(rs[..i]) == Ok(outlines)
    {
      AllSnoc(rs, i);
      var line := OutlineLine(episodes[i], repr);
      if line.Err? {
        AllErrSticky(rs, i + 1);
        return Err(line.error);
      }
      outlines := outlines + [line.value];
      i := i + 1;
    }
    assert rs[..i] == rs;
    return Ok(Join(Head + outlines + Foot));
  }

  // ---------------------------------------------------------------------------
  // Properties of the document

  /** The document is written exactly when every row reads. */
  lemma OpmlWritten(eps: seq<Json>, repr: Json -> string)
    ensures OpmlLines(eps, repr).Ok? <==> forall i :: 0 <= i < |eps| ==> OutlineLine(eps[i], repr).Ok?
  {
    AllSpec(OutlineResults(eps, repr));
  }

  /** A written document has the head lines, one outline per row in order, and the foot
      lines. */
  lemma OpmlShape(eps: seq<Json>, repr: Json -> string)
    requires OpmlLines(eps, repr).Ok?
    ensures var doc := OpmlLines(eps, repr).value;
      && |doc| == |Head| + |eps| + |Foot|
      && doc[..|Head|] == Head && doc[|Head| + |eps|..] == Foot
      && forall i :: 0 <= i < |eps| ==> OutlineLine(eps[i], repr).Ok? && doc[|Head| + i] == OutlineLine(eps[i], repr).value
  {
    var rs := OutlineResults(eps, repr);
    AllSpec(rs);
    Framed(Head, All(rs).value, Foot);
  }

  /** The `text` attribute of an outline is the script's escape of the title (empty when
      the row has none): it holds no `"`, and it reads back as the title when the title
      holds no `&` and no `<`. */
  lemma OutlineTitle(ep: Json, repr: Json -> string)
    requires OutlineLine(ep, repr).Ok?
    ensures var title := Lookup(ep.fields, "title", JStr("")).s;
      && OutlineLine(ep, repr).value[..|OutlineOpen| + |QuoteEscape(title)| + 1] == OutlineOpen + QuoteEscape(title) + "\""
      && (forall i :: 0 <= i < |QuoteEscape(title)| ==> QuoteEscape(title)[i] != '"')
      && ("title" !in ep.fields ==> QuoteEscape(title) == "")
      && ((forall i :: 0 <= i < |title| ==> title[i] != '&' && title[i] != '<') ==> AttrText(QuoteEscape(title)) == Some(title))
  {
    var title := Lookup(ep.fields, "title", JStr("")).s;
    QuoteEscapeNoQuote(title);
    if forall i :: 0 <= i < |title| ==> title[i] != '&' && title[i] != '<' {
      QuoteEscapeRoundTrip(title);
    }
  }

  /** `str()` of the stream URL closes the outline, unescaped; a missing one is empty. */
  lemma OutlineUrl(ep: Json, repr: Json -> string)
    requires OutlineLine(ep, repr).Ok?
    ensures var line := OutlineLine(ep, repr).value;
      var tail := "xmlUrl=\"" + PyStr(Lookup(ep.fields, "streamUrl", JStr("")), repr) + "\"/>";
      && |tail| <= |line| && line[|line| - |tail|..] == tail
      && ("streamUrl" !in ep.fields ==> line[|line| - |tail|..] == "xmlUrl=\"\"/>")
  {
    var line := OutlineLine(ep, repr).value;
    var title := Lookup(ep.fields, "title", JStr("")).s;
    var url := PyStr(Lookup(ep.fields, "streamUrl", JStr("")), repr);
    var tail := "xmlUrl=\"" + url + "\"/>";
    assert line == (OutlineOpen + QuoteEscape(title) + "\" type=\"audio\" ") + tail;
  }

  /** With the corrected escape, the `text` attribute reads back as the title, whatever
      it holds. */
  lemma OutlineTitleFixed(ep: Json, repr: Json -> string)
    requires OutlineLineFixed(ep, repr).Ok?
    ensures var title := Lookup(ep.fields, "title", JStr("")).s;
      && OutlineLineFixed(ep, repr).value[..|OutlineOpen| + |AttrEscape(title)| + 1] == OutlineOpen + AttrEscape(title) + "\""
      && AttrText(AttrEscape(title)) == Some(title)
  {
    var title := Lookup(ep.fields, "title", JStr("")).s;
    AttrEscapeRoundTrip(title);
  }

  /** On a title without `&` and `<` the two escapes agree, so the script's outline is the
      corrected one. */
  lemma {:induction false} EscapesAgree(s: string)
    requires forall i :: 0 <= i < |s| ==> s[i] != '&' && s[i] != '<'
    ensures AttrEscape(s) == QuoteEscape(s)
    decreases |s|
  {
    if s != [] {
      EscapesAgree(s[1..]);
    }
  }

  lemma OutlineAgrees(ep: Json, repr: Json -> string)
    requires OutlineLine(ep, repr).Ok?
    requires var title := Lookup(ep.fields, "title", JStr("")).s;
      forall i :: 0 <= i < |title| ==> title[i] != '&' && title[i] != '<'
    ensures OutlineLineFixed(ep, repr) == OutlineLine(ep, repr)
  {
    EscapesAgree(Lookup(ep.fields, "title", JStr("")).s);
  }
}
