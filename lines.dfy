/** Text documents written as a list of lines. */
module Lines {
  /** `'\n'.join(lines)`. */
  function Join(lines: seq<string>): string
    decreases |lines|
  {
    if lines == [] then ""
    else if |lines| == 1 then lines[0]
    else lines[0] + "\n" + Join(lines[1..])
  }

  /** A document framed by fixed head and foot lines: where each part sits. */
  lemma Framed(head: seq<string>, body: seq<string>, foot: seq<string>)
    ensures var doc := head + body + foot;
      && |doc| == |head| + |body| + |foot|
      && doc[..|head|] == head && doc[|head| + |body|..] == foot
      && forall i :: 0 <= i < |body| ==> doc[|head| + i] == body[i]
  {
    var doc := head + body + foot;
    assert doc[..|head|] == head;
    assert doc[|head| + |body|..] == foot;
  }
}
