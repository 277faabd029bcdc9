/** scrape_hafta_links.py (and `HaftaScraper.scrape_links_from_html`): the `href` of every
    anchor whose `aria-label` reads `click to read Hafta <number>:`, in document order. */
module HaftaLinks {
  import opened Wrappers
  import opened JsonValues
  import opened Decimal
  import opened Patterns

  /** An `<a>` element of the parsed page: its `aria-label` and `href` attributes. */
  datatype Anchor = Anchor(ariaLabel: Option<string>, href: Option<string>)

  /** The anchor is found by `find_all` and its `href` is truthy. */
  predicate Selected(a: Anchor) {
    a.ariaLabel.Some? && LabelMatches(a.ariaLabel.value) && a.href.Some? && a.href.value != ""
  }

  /** The `href`s of the anchors `sel` accepts, in document order. */
  function Keep(anchors: seq<Anchor>, sel: Anchor -> bool): seq<string>
    requires forall a :: sel(a) ==> a.href.Some?
    decreases |anchors|
  {
    if anchors == [] then []
    else
      var n := |anchors| - 1;
      Keep(anchors[..n], sel) + (if sel(anchors[n]) then [anchors[n].href.value] else [])
  }

  /** The links the loop collects. */
  function Links(anchors: seq<Anchor>): seq<string> {
    Keep(anchors, Selected)
  }

  method ScrapeHaftaLinks(anchors: seq<Anchor>) returns (haftaLinks: seq<string>)
    ensures haftaLinks == Links(anchors)
  {
    haftaLinks := [];
    var i := 0;
    while i < |anchors|
      invariant 0 <= i <= |anchors|
      invariant haftaLinks == Keep(anchors[..i], Selected)
    {
      assert anchors[..i + 1][..i] == anchors[..i];
      var a := anchors[i];
      if a.ariaLabel.Some? && LabelMatches(a.ariaLabel.value) {
        var href := a.href;
        if href.Some? && href.value != "" {
          haftaLinks := haftaLinks + [href.value];
        }
      }
      i := i + 1;
    }
    assert anchors[..i] == anchors;
  }

  /** The object the script writes: `{"hafta_links": [...]}`. */
  function ResultObject(links: seq<string>): (j: Json)
    ensures j.JObj? && j.fields.Keys == {"hafta_links"}
    ensures j.fields["hafta_links"].JArr? && |j.fields["hafta_links"].items| == |links|
    ensures forall i :: 0 <= i < |links| ==> j.fields["hafta_links"].items[i] == JStr(links[i])
  {
    JObj(map["hafta_links" := JArr(seq(|links|, i requires 0 <= i < |links| => JStr(links[i])))])
  }

  // ---------------------------------------------------------------------------
  // Properties of the selection

  /** Which anchors contribute, as positions: the accepted ones, in order. */
  function KeptAt(anchors: seq<Anchor>, sel: Anchor -> bool): seq<nat>
    decreases |anchors|
  {
    if anchors == [] then []
    else
      var n := |anchors| - 1;
      KeptAt(anchors[..n], sel) + (if sel(anchors[n]) then [n] else [])
  }

  /** Position by position, the kept `href`s are those of accepted anchors. */
  lemma {:induction false} KeepAt(anchors: seq<Anchor>, sel: Anchor -> bool)
    requires forall a :: sel(a) ==> a.href.Some?
    ensures var ps := KeptAt(anchors, sel);
      && |Keep(anchors, sel)| == |ps| <= |anchors|
      && (forall k :: 0 <= k < |ps| ==>
            ps[k] < |anchors| && sel(anchors[ps[k]]) && Keep(anchors, sel)[k] == anchors[ps[k]].href.value)
    decreases |anchors|
  {
    if anchors != [] {
      var n := |anchors| - 1;
      var init := anchors[..n];
      KeepAt(init, sel);
      var ps0, ps := KeptAt(init, sel), KeptAt(anchors, sel);
      var ks0, ks := Keep(init, sel), Keep(anchors, sel);
      forall k | 0 <= k < |ps|
        ensures ps[k] < |anchors| && sel(anchors[ps[k]]) && ks[k] == anchors[ps[k]].href.value
      {
        if k < |ps0| {
          assert ps[k] == ps0[k] && ks[k] == ks0[k];
          assert init[ps0[k]] == anchors[ps0[k]];
        }
      }
    }
  }

  /** Every position is that of an anchor. */
  lemma {:induction false} KeptAtBound(anchors: seq<Anchor>, sel: Anchor -> bool)
    ensures forall k :: 0 <= k < |KeptAt(anchors, sel)| ==> KeptAt(anchors, sel)[k] < |anchors|
    decreases |anchors|
  {
    if anchors != [] {
      var n := |anchors| - 1;
      var init := anchors[..n];
      KeptAtBound(init, sel);
      var ps0, ps := KeptAt(init, sel), KeptAt(anchors, sel);
      assert ps == ps0 + (if sel(anchors[n]) then [n] else []);
      forall k | 0 <= k < |ps| ensures KeptAt(anchors, sel)[k] < |anchors| {
        if k < |ps0| {
          assert ps[k] == ps0[k];
        }
      }
    }
  }

  /** Positions are strictly increasing. */
  lemma {:induction false} KeptAtIncreasing(anchors: seq<Anchor>, sel: Anchor -> bool)
    ensures forall k, l :: 0 <= k < l < |KeptAt(anchors, sel)| ==> KeptAt(anchors, sel)[k] < KeptAt(anchors, sel)[l]
    decreases |anchors|
  {
    if anchors != [] {
      var n := |anchors| - 1;
      var init := anchors[..n];
      KeptAtIncreasing(init, sel);
      KeptAtBound(init, sel);
      var ps0, ps := KeptAt(init, sel), KeptAt(anchors, sel);
      assert ps == ps0 + (if sel(anchors[n]) then [n] else []);
      forall k, l | 0 <= k < l < |ps| ensures KeptAt(anchors, sel)[k] < KeptAt(anchors, sel)[l] {
        assert ps[k] == ps0[k];
        if l < |ps0| {
          assert ps[l] == ps0[l];
        } else {
          assert ps[l] == n;
        }
      }
    }
  }

  /** Every accepted anchor contributes its position. */
  lemma {:induction false} KeptAtComplete(anchors: seq<Anchor>, sel: Anchor -> bool, j: nat)
    requires j < |anchors| && sel(anchors[j])
    ensures j in KeptAt(anchors, sel)
    decreases |anchors|
  {
    var n := |anchors| - 1;
    var init := anchors[..n];
    var ps0, ps := KeptAt(init, sel), KeptAt(anchors, sel);
    assert ps == ps0 + (if sel(anchors[n]) then [n] else []);
    if j < n {
      assert init[j] == anchors[j];
      KeptAtComplete(init, sel, j);
      assert j in ps0;
    } else {
      assert ps[|ps| - 1] == j;
    }
  }

  /** Positions are increasing and every accepted anchor contributes. */
  lemma KeptAtOrder(anchors: seq<Anchor>, sel: Anchor -> bool)
    ensures var ps := KeptAt(anchors, sel);
      && (forall k :: 0 <= k < |ps| ==> ps[k] < |anchors|)
      && (forall k, l :: 0 <= k < l < |ps| ==> ps[k] < ps[l])
      && (forall j :: 0 <= j < |anchors| && sel(anchors[j]) ==> j in ps)
  {
    KeptAtBound(anchors, sel);
    KeptAtIncreasing(anchors, sel);
    forall j | 0 <= j < |anchors| && sel(anchors[j]) ensures j in KeptAt(anchors, sel) {
      KeptAtComplete(anchors, sel, j);
    }
  }

  lemma KeepSpec(anchors: seq<Anchor>, sel: Anchor -> bool)
    requires forall a :: sel(a) ==> a.href.Some?
    ensures var ps := KeptAt(anchors, sel);
      && |Keep(anchors, sel)| == |ps| <= |anchors|
      && (forall k :: 0 <= k < |ps| ==>
            ps[k] < |anchors| && sel(anchors[ps[k]]) && Keep(anchors, sel)[k] == anchors[ps[k]].href.value)
      && (forall k, l :: 0 <= k < l < |ps| ==> ps[k] < ps[l])
      && (forall j :: 0 <= j < |anchors| && sel(anchors[j]) ==> j in ps)
  {
    KeepAt(anchors, sel);
    KeptAtOrder(anchors, sel);
  }

  /** The links are the `href`s of the selected anchors, taken in increasing document
      position, so every link is non-empty and there are no more links than anchors. */
  lemma LinksSpec(anchors: seq<Anchor>)
    ensures var ps := KeptAt(anchors, Selected);
      && |Links(anchors)| == |ps| <= |anchors|
      && (forall k :: 0 <= k < |ps| ==>
            ps[k] < |anchors| && Selected(anchors[ps[k]]) && Links(anchors)[k] == anchors[ps[k]].href.value)
      && (forall k :: 0 <= k < |ps| ==> Links(anchors)[k] != "")
      && (forall k, l :: 0 <= k < l < |ps| ==> ps[k] < ps[l])
      && (forall j :: 0 <= j < |anchors| && Selected(anchors[j]) ==> j in ps)
  {
    KeepSpec(anchors, Selected);
  }

  /** A string is collected exactly when some selected anchor has it as its `href`. */
  lemma LinksMembership(anchors: seq<Anchor>, x: string)
    ensures x in Links(anchors) <==> exists j :: 0 <= j < |anchors| && Selected(anchors[j]) && anchors[j].href.value == x
  {
    LinksSpec(anchors);
    var ps := KeptAt(anchors, Selected);
    if x in Links(anchors) {
      var k :| 0 <= k < |Links(anchors)| && Links(anchors)[k] == x;
      assert Selected(anchors[ps[k]]);
    }
    if exists j :: 0 <= j < |anchors| && Selected(anchors[j]) && anchors[j].href.value == x {
      var j :| 0 <= j < |anchors| && Selected(anchors[j]) && anchors[j].href.value == x;
      assert j in ps;
      var k :| 0 <= k < |ps| && ps[k] == j;
      assert Links(anchors)[k] == x;
    }
  }

  /** An anchor whose label lacks the colon after the number is not selected. */
  lemma LabelNeedsColon()
    ensures !LabelMatches("click to read Hafta 12")
    ensures LabelMatches("click to read Hafta 12: x")
  {
    var a := "click to read Hafta 12";
    assert a[..|LabelPrefix|] == LabelPrefix;
    assert a[|LabelPrefix|..] == "12";
    RunDigits("12", 2);
    var b := "click to read Hafta 12: x";
    assert StartsWith(b, LabelPrefix);
    assert b[|LabelPrefix|..] == "12: x";
    RunDigits("12: x", 2);
  }

  lemma RunDigits(s: string, k: nat)
    requires k <= |s|
    requires forall i :: 0 <= i < k ==> IsDigit(s[i])
    requires k < |s| ==> !IsDigit(s[k])
    ensures |Run(s, IsDigit)| == k
  {
    RunSpec(s, IsDigit);
    var g := Run(s, IsDigit);
    assert forall i :: 0 <= i < |g| ==> g[i] == s[i];
  }
}
