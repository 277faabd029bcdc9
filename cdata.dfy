/** CDATA sections of the RSS lines: `text.replace(']]>', ']]]]><![CDATA[>')` splits the
    text wherever it contains the section terminator, so that a reader that joins the
    contents of consecutive sections gets the text back. */
module Cdata {
  import opened Wrappers

  const Open := "<![CDATA["
  const Close := "]]>"
  const Split := "]]]]><![CDATA[>"

  /** `t` starts with `]]>`. */
  predicate StartsWithClose(t: string) {
    |t| >= 3 && t[0] == ']' && t[1] == ']' && t[2] == '>'
  }

  /** The index of the first `]]>` in `t`. */
  function FindClose(t: string): (e: Option<nat>)
    ensures e.Some? ==> e.value + 3 <= |t| && StartsWithClose(t[e.value..])
    decreases |t|
  {
    if |t| < 3 then None
    else if StartsWithClose(t) then Some(0)
    else match FindClose(t[1..])
      case None => None
      case Some(j) => Some(j + 1)
  }

  /** `s.replace(']]>', ']]]]><![CDATA[>')`: the text up to the next occurrence is
      copied, the occurrence replaced, and the search goes on after it. */
  function Escape(s: string): string
    decreases |s|
  {
    match FindClose(s)
    case None => s
    case Some(k) => s[..k] + Split + Escape(s[k + 3..])
  }

  /** The text a run of consecutive CDATA sections stands for: the contents of each,
      joined; None when `t` is not such a run. XML's line-end normalisation and its
      forbidden characters are not part of this reader. */
  function SectionsText(t: string): Option<string>
    decreases |t|
  {
    if |t| < 9 || t[..9] != Open then None
    else match FindClose(t[9..])
      case None => None
      case Some(k) =>
        var rest := t[9 + k + 3..];
        if rest == [] then Some(t[9..9 + k])
        else match SectionsText(rest)
          case None => None
          case Some(more) => Some(t[9..9 + k] + more)
  }

  /** Nothing before the first terminator is one. */
  lemma {:induction false} FindCloseFirst(t: string)
    requires FindClose(t).Some?
    ensures FindClose(t[..FindClose(t).value]) == None
    decreases |t|
  {
    var k := FindClose(t).value;
    if k > 0 {
      FindCloseFirst(t[1..]);
      var p := t[..k];
      assert p[1..] == t[1..][..k - 1];
      assert |p| >= 3 ==> (StartsWithClose(p) <==> StartsWithClose(t));
    }
  }

  lemma Regroup(o: string, p: string, e: string, x: string)
    requires x == p + Split + e
    ensures o + x + Close == o + (p + (Split + (e + Close)))
  {
  }

  /** A terminator cannot start inside a prefix that has none, when the two characters
      that follow the prefix are not `>`. */
  lemma {:induction false} FindCloseAfter(p: string, u: string)
    requires FindClose(p) == None
    requires |u| >= 2 && u[0] != '>' && u[1] != '>'
    ensures FindClose(p + u) == match FindClose(u) case None => None case Some(j) => Some(j + |p|)
    decreases |p|
  {
    if p == [] {
      assert p + u == u;
    } else {
      var t := p + u;
      assert !StartsWithClose(t) by {
        if |p| >= 3 {
          assert !StartsWithClose(p);
          assert t[0] == p[0] && t[1] == p[1] && t[2] == p[2];
        } else {
          assert t[2] == u[2 - |p|];
        }
      }
      assert t[1..] == p[1..] + u;
      assert FindClose(p[1..]) == None;
      FindCloseAfter(p[1..], u);
    }
  }

  /** A leading `>` cannot begin a terminator. */
  lemma EscapeAfterGt(q: string)
    ensures Escape(">" + q) == ">" + Escape(q)
  {
    var t := ">" + q;
    assert t[1..] == q;
    assert !StartsWithClose(t);
    match FindClose(q)
    case None =>
      assert FindClose(t) == None;
    case Some(k) =>
      assert FindClose(t) == Some(k + 1);
      assert t[..k + 1] == ">" + q[..k];
      assert t[k + 1 + 3..] == q[k + 3..];
  }

  /** Wrapping the escaped text in one CDATA section gives a run of sections whose joined
      contents are the original text. */
  lemma {:induction false} EscapeRoundTrip(s: string)
    ensures SectionsText(Open + Escape(s) + Close) == Some(s)
    decreases |s|
  {
    match FindClose(s)
    case None =>
      RoundTripPlain(s);
    case Some(k) =>
      EscapeRoundTrip(">" + s[k + 3..]);
      RoundTripSplit(s, k);
  }

  /** Text without a terminator fills one section. */
  lemma RoundTripPlain(s: string)
    requires FindClose(s) == None
    ensures SectionsText(Open + Escape(s) + Close) == Some(s)
  {
    var t := Open + s + Close;
    assert t[..9] == Open;
    assert t[9..] == s + Close;
    assert FindClose(Close) == Some(0);
    FindCloseAfter(s, Close);
    assert t[9..9 + |s|] == s;
    assert t[9 + |s| + 3..] == [];
  }

  /** At the first terminator the section closes after `]]`, and the next section opens
      with the `>`, followed by the escaped rest. */
  lemma RoundTripSplit(s: string, k: nat)
    requires FindClose(s) == Some(k)
    requires SectionsText(Open + Escape(">" + s[k + 3..]) + Close) == Some(">" + s[k + 3..])
    ensures SectionsText(Open + Escape(s) + Close) == Some(s)
  {
    FindCloseFirst(s);
    var p, q := s[..k], s[k + 3..];
    assert FindClose(p) == None;
    var u := Split + (Escape(q) + Close);
    assert Escape(s) == p + Split + Escape(q);
    FindCloseSplit(Escape(q) + Close);
    SplitPrefix(Escape(q) + Close);
    assert u[0] == u[..2][0] == ']' && u[1] == u[..2][1] == ']';
    FindCloseAfter(p, u);
    var t := Open + (p + u);
    Regroup(Open, p, Escape(q), Escape(s));
    SectionsTextStep(t, p, u, k + 2);
    EscapeAfterGt(q);
    SplitTail(p, Escape(q));
    SplitAtClose(s, k);
  }

  lemma SplitPrefix(e: string)
    ensures (Split + e)[..2] == "]]" && |Split + e| > 5
  {
  }

  lemma SplitTail(p: string, e: string)
    ensures (p + (Split + (e + Close)))[|p| + 5..] == Open + (">" + e) + Close
  {
    assert (p + (Split + (e + Close)))[|p| + 5..] == (Split + (e + Close))[5..];
    assert Split[5..] == Open + ">";
  }

  lemma SplitAtClose(s: string, k: nat)
    requires FindClose(s) == Some(k)
    ensures s == s[..k] + "]]" + (">" + s[k + 3..])
  {
    assert StartsWithClose(s[k..]);
    assert s[k] == ']' && s[k + 1] == ']' && s[k + 2] == '>';
  }

  /** The replacement closes its section after its first two characters. */
  lemma FindCloseSplit(e: string)
    ensures FindClose(Split + e) == Some(2)
  {
    var u := Split + e;
    assert u[0] == ']' && u[1] == ']' && u[2] == ']' && u[3] == ']' && u[4] == '>';
    assert StartsWithClose(u[2..]);
    assert FindClose(u[2..]) == Some(0);
    assert u[1..][1..] == u[2..];
    assert FindClose(u[1..]) == Some(1);
  }

  lemma SectionsTextStep(t: string, p: string, u: string, k: nat)
    requires t == Open + (p + u)
    requires FindClose(p + u) == Some(k)
    requires k + 3 < |p + u|
    requires k == |p| + 2 && u[..2] == "]]"
    ensures SectionsText(t) ==
      match SectionsText((p + u)[k + 3..])
      case None => None
      case Some(more) => Some(p + "]]" + more)
  {
    assert t[..9] == Open;
    assert t[9..] == p + u;
    assert t[9 + k + 3..] == (p + u)[k + 3..];
    assert t[9..9 + k] == p + "]]";
  }
}
