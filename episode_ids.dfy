/** Resolving article links to episode identifiers (extract_episode_ids_playwright.py and
    the loop of `HaftaScraper.extract_episode_ids`): each link's Hafta number is taken from
    its URL, the page is visited and the cell of `Capture` records the identifier. */
module EpisodeIds {
  import opened Wrappers
  import opened OrderedDict
  import opened Patterns
  import opened Capture

  /** What the loop learns about one link: its Hafta number, whether loading its page
      raised, and the identifier captured while it loaded. */
  datatype Probe = Probe(link: string, number: Option<string>, raised: bool, captured: Option<string>)

  /** Probing `link`: the number comes from the URL, the rest from the visit. */
  function ProbeOf(link: string, visit: string -> Visit): (p: Probe)
    ensures p.link == link && p.number == HaftaNumber(link)
    ensures p.raised == visit(link).raised && p.captured == LastCapture(visit(link).requests)
  {
    Probe(link, HaftaNumber(link), visit(link).raised, LastCapture(visit(link).requests))
  }

  /** The probes of `links`, in order. */
  function Probes(links: seq<string>, visit: string -> Visit): (ps: seq<Probe>)
    ensures |ps| == |links|
    ensures forall i :: 0 <= i < |links| ==> ps[i] == ProbeOf(links[i], visit)
  {
    seq(|links|, i requires 0 <= i < |links| => ProbeOf(links[i], visit))
  }

  /** The state the loop builds: number -> identifier, the links reported as failures, and
      (for the proofs) the links whose page was visited, in order. */
  datatype Extraction = Extraction(ids: Dict<string>, failures: seq<string>, visited: seq<string>)

  /** The probe has number `num`, the number is not skipped, and an id was captured. */
  predicate Captures(p: Probe, num: string, known: set<string>) {
    p.number == Some(num) && num !in known && p.captured.Some?
  }

  /** A link whose page gets visited: it has a number and the number is not skipped. */
  predicate Visits(p: Probe, known: set<string>) {
    p.number.Some? && p.number.value !in known
  }

  /** What one link appends to `failures`: itself when it has no number; itself when the
      load raised; itself when no identifier was captured. So a link whose load raised and
      that captured nothing is listed twice. */
  function LinkFailures(p: Probe, known: set<string>): seq<string> {
    match p.number
    case None => [p.link]
    case Some(num) =>
      if num in known then []
      else (if p.raised then [p.link] else []) + (if p.captured.Some? then [] else [p.link])
  }

  /** One iteration of the loop; `known` holds the numbers that are skipped. */
  function Step(st: Extraction, p: Probe, known: set<string>): (r: Extraction)
    requires st.ids.Valid()
    ensures r.ids.Valid()
  {
    match p.number
    case None => st.(failures := st.failures + [p.link])
    case Some(num) =>
      if num in known then st
      else
        var loadFailure := if p.raised then [p.link] else [];
        match p.captured
        case Some(id) => Extraction(st.ids.Put(num, id), st.failures + loadFailure, st.visited + [p.link])
        case None => Extraction(st.ids, st.failures + loadFailure + [p.link], st.visited + [p.link])
  }

  /** The loop over the probed links, in order. */
  function Classify(ps: seq<Probe>, known: set<string>): (r: Extraction)
    ensures r.ids.Valid()
    decreases |ps|
  {
    if ps == [] then Extraction(Empty(), [], [])
    else Step(Classify(ps[..|ps| - 1], known), ps[|ps| - 1], known)
  }

  /** Probing one more link extends the probes by one. */
  lemma ProbesSnoc(links: seq<string>, i: nat, visit: string -> Visit)
    requires i < |links|
    ensures Probes(links[..i + 1], visit) == Probes(links[..i], visit) + [ProbeOf(links[i], visit)]
  {
    var a := Probes(links[..i + 1], visit);
    var b := Probes(links[..i], visit) + [ProbeOf(links[i], visit)];
    assert |a| == |b|;
    forall k | 0 <= k < |a| ensures a[k] == b[k] {
      assert links[..i + 1][k] == links[k];
      if k < i {
        assert links[..i][k] == links[k];
      }
    }
  }

  /** Classifying one more link is one more step. */
  lemma ClassifySnoc(links: seq<string>, i: nat, known: set<string>, visit: string -> Visit)
    requires i < |links|
    ensures Classify(Probes(links[..i + 1], visit), known)
         == Step(Classify(Probes(links[..i], visit), known), ProbeOf(links[i], visit), known)
  {
    var before := Probes(links[..i], visit);
    ProbesSnoc(links, i, visit);
    assert (before + [ProbeOf(links[i], visit)])[..i] == before;
  }

  /** The loop over the links: a link without a number is a failure, a number in `known`
      is skipped, any other link's page is visited with a fresh capture cell. */
  method ResolveLinks(haftaLinks: seq<string>, known: set<string>, visit: string -> Visit)
    returns (ids: Dict<string>, failures: seq<string>)
    ensures ids == Classify(Probes(haftaLinks, visit), known).ids
    ensures failures == Classify(Probes(haftaLinks, visit), known).failures
  {
    ids, failures := Empty(), [];
    ghost var visited: seq<string> := [];
    var i := 0;
    while i < |haftaLinks|
      invariant 0 <= i <= |haftaLinks|
      invariant Classify(Probes(haftaLinks[..i], visit), known) == Extraction(ids, failures, visited)
    {
      ClassifySnoc(haftaLinks, i, known, visit);
      ids, failures, visited := ResolveLink(haftaLinks[i], known, visit, ids, failures, visited);
      i := i + 1;
    }
    assert haftaLinks[..i] == haftaLinks;
  }

  /** The body of the loop for one link: a link without a number fails; a known number is
      skipped; otherwise the page is visited, a raising load is listed, and the captured
      identifier is stored or the link listed. */
  method ResolveLink(link: string, known: set<string>, visit: string -> Visit,
                     ids: Dict<string>, failures: seq<string>, ghost visited: seq<string>)
    returns (ids': Dict<string>, failures': seq<string>, ghost visited': seq<string>)
    requires ids.Valid()
    ensures Extraction(ids', failures', visited') == Step(Extraction(ids, failures, visited), ProbeOf(link, visit), known)
  {
    ids', failures', visited' := ids, failures, visited;
    var m := HaftaNumber(link);
    if m.None? {
      failures' := failures' + [link];
    } else if m.value !in known {
      var haftaNum := m.value;
      var v := visit(link);
      var found := Observe(v);
      if found.Some? {
        LastCaptureAlnum(v.requests);
      }
      if v.raised {
        failures' := failures' + [link];
      }
      if found.Some? && found.value != "" {
        ids' := ids'.Put(haftaNum, found.value);
      } else {
        failures' := failures' + [link];
      }
      visited' := visited' + [link];
    }
  }

  /** extract_episode_ids_playwright.py: every link is resolved, no number is skipped. */
  method ExtractEpisodeIds(haftaLinks: seq<string>, visit: string -> Visit)
    returns (haftaToEpisodeId: Dict<string>, failures: seq<string>)
    ensures haftaToEpisodeId == Classify(Probes(haftaLinks, visit), {}).ids
    ensures failures == Classify(Probes(haftaLinks, visit), {}).failures
  {
    haftaToEpisodeId, failures := ResolveLinks(haftaLinks, {}, visit);
  }

  // ---------------------------------------------------------------------------
  // Properties of the loop

  /** One step adds `num` to the map exactly when the probe captures it, and then maps it to
      the captured identifier; other numbers keep their entries. */
  lemma StepIds(st: Extraction, p: Probe, known: set<string>, num: string)
    requires st.ids.Valid()
    ensures var r := Step(st, p, known);
      && (num in r.ids.vals <==> num in st.ids.vals || Captures(p, num, known))
      && (Captures(p, num, known) ==> r.ids.vals[num] == p.captured.value)
      && (!Captures(p, num, known) && num in st.ids.vals ==> r.ids.vals[num] == st.ids.vals[num])
  {
  }

  /** The map's keys are exactly the numbers of visited links that captured an identifier. */
  lemma {:induction false} ClassifyKeys(ps: seq<Probe>, known: set<string>, num: string)
    ensures num in Classify(ps, known).ids.vals <==> exists i :: 0 <= i < |ps| && Captures(ps[i], num, known)
    decreases |ps|
  {
    if ps != [] {
      var init := ps[..|ps| - 1];
      ClassifyKeys(init, known, num);
      StepIds(Classify(init, known), ps[|ps| - 1], known, num);
      assert forall i :: 0 <= i < |init| ==> init[i] == ps[i];
    }
  }

  /** A number maps to the identifier captured by the last link with that number that
      captured one: a later link overwrites an earlier one. */
  lemma {:induction false} ClassifyLastWins(ps: seq<Probe>, known: set<string>, num: string)
    requires num in Classify(ps, known).ids.vals
    ensures exists i :: 0 <= i < |ps| && Captures(ps[i], num, known)
              && Classify(ps, known).ids.vals[num] == ps[i].captured.value
              && forall j :: i < j < |ps| ==> !Captures(ps[j], num, known)
    decreases |ps|
  {
    var init := ps[..|ps| - 1];
    var last := ps[|ps| - 1];
    StepIds(Classify(init, known), last, known, num);
    if Captures(last, num, known) {
      assert Captures(ps[|ps| - 1], num, known);
    } else {
      ClassifyLastWins(init, known, num);
      var i :| 0 <= i < |init| && Captures(init[i], num, known)
                && Classify(init, known).ids.vals[num] == init[i].captured.value
                && forall j :: i < j < |init| ==> !Captures(init[j], num, known);
      assert init[i] == ps[i];
      forall j | i < j < |ps| ensures !Captures(ps[j], num, known) {
        if j < |init| {
          assert init[j] == ps[j];
        }
      }
    }
  }

  /** Every stored identifier is a non-empty `[a-z0-9]` string. */
  lemma ClassifyIdsAlnum(links: seq<string>, visit: string -> Visit, known: set<string>, num: string)
    requires num in Classify(Probes(links, visit), known).ids.vals
    ensures var id := Classify(Probes(links, visit), known).ids.vals[num];
            |id| >= 1 && forall k :: 0 <= k < |id| ==> IsLowerAlnum(id[k])
  {
    var ps := Probes(links, visit);
    ClassifyLastWins(ps, known, num);
    var i :| 0 <= i < |ps| && Captures(ps[i], num, known)
          && Classify(ps, known).ids.vals[num] == ps[i].captured.value;
    LastCaptureAlnum(visit(links[i]).requests);
  }

  /** The links visited, in order: those with a number that is not skipped. It is the
      reference the loop's visits are checked against. */
  function ToVisit(ps: seq<Probe>, known: set<string>): seq<string>
    decreases |ps|
  {
    if ps == [] then []
    else (if Visits(ps[0], known) then [ps[0].link] else []) + ToVisit(ps[1..], known)
  }

  lemma {:induction false} ToVisitAppend(ps: seq<Probe>, p: Probe, known: set<string>)
    ensures ToVisit(ps + [p], known) == ToVisit(ps, known) + (if Visits(p, known) then [p.link] else [])
    decreases |ps|
  {
    if ps == [] {
      assert ([] + [p])[1..] == [];
    } else {
      assert (ps + [p])[1..] == ps[1..] + [p];
      ToVisitAppend(ps[1..], p, known);
    }
  }

  /** A link is visited exactly when it has a number that is not skipped: a link without a
      number is only reported as a failure. */
  lemma {:induction false} ClassifyVisits(ps: seq<Probe>, known: set<string>)
    ensures Classify(ps, known).visited == ToVisit(ps, known)
    decreases |ps|
  {
    if ps != [] {
      var init := ps[..|ps| - 1];
      ClassifyVisits(init, known);
      ToVisitAppend(init, ps[|ps| - 1], known);
      assert init + [ps[|ps| - 1]] == ps;
    }
  }

  /** The failures, link by link in order. */
  function AllFailures(ps: seq<Probe>, known: set<string>): seq<string>
    decreases |ps|
  {
    if ps == [] then [] else LinkFailures(ps[0], known) + AllFailures(ps[1..], known)
  }

  lemma {:induction false} AllFailuresAppend(ps: seq<Probe>, p: Probe, known: set<string>)
    ensures AllFailures(ps + [p], known) == AllFailures(ps, known) + LinkFailures(p, known)
    decreases |ps|
  {
    if ps == [] {
      assert ([] + [p])[1..] == [];
    } else {
      assert (ps + [p])[1..] == ps[1..] + [p];
      AllFailuresAppend(ps[1..], p, known);
    }
  }

  /** `failures` is the concatenation of what each link contributes, in link order. */
  lemma {:induction false} ClassifyFailures(ps: seq<Probe>, known: set<string>)
    ensures Classify(ps, known).failures == AllFailures(ps, known)
    decreases |ps|
  {
    if ps != [] {
      var init := ps[..|ps| - 1];
      ClassifyFailures(init, known);
      AllFailuresAppend(init, ps[|ps| - 1], known);
      assert init + [ps[|ps| - 1]] == ps;
    }
  }
}
