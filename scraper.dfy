/** hafta_scraper.py: the consolidated scraper. Its state (`self.data`) is the episode
    store (Hafta number -> episode record, in insertion order), the article links and the
    time of the last save; its methods update these in place. */
module Scraper {
  import opened Wrappers
  import opened JsonValues
  import opened OrderedDict
  import opened Http
  import opened Markup
  import opened Duration
  import opened Capture
  import opened EpisodeIds
  import opened HaftaLinks
  import RssLines

  /** The contents of the data file `load_data` reads. */
  datatype Stored = Stored(episodes: Dict<Record>, links: seq<string>, lastUpdated: Option<string>)

  // ---------------------------------------------------------------------------
  // fetch_episodes

  /** The entries to fetch, as (Hafta number, `episode_data.get('episode_id')`) in store
      order: those without a `raw_data` key. */
  function PendingFrom(keys: seq<string>, vals: map<string, Record>): seq<(string, Json)>
    requires forall k :: k in keys ==> k in vals
    decreases |keys|
  {
    if keys == [] then []
    else
      var n := |keys| - 1;
      var k := keys[n];
      PendingFrom(keys[..n], vals)
        + (if "raw_data" in vals[k] then [] else [(k, Lookup(vals[k], "episode_id", JNull))])
  }

  function Pending(d: Dict<Record>): seq<(string, Json)>
    requires d.Valid()
  {
    PendingFrom(d.keys, d.vals)
  }

  /** The keys an update writes. */
  const FetchedKeys: set<string> :=
    {"episode_id", "raw_data", "title", "publish_date", "summary", "stream_url", "duration", "cover"}

  /** `episode_data.update({...})` with the fetched body and its `shows` object. */
  function Merge(rec: Record, id: Json, body: Record, shows: Record): Record {
    rec + map[
      "episode_id" := id,
      "raw_data" := JObj(body),
      "title" := Lookup(shows, "title", JNull),
      "publish_date" := Lookup(shows, "publishDate", JNull),
      "summary" := Lookup(shows, "summary", JNull),
      "stream_url" := Lookup(shows, "streamUrl", JNull),
      "duration" := Lookup(shows, "duration", JNull),
      "cover" := Lookup(shows, "cover", JNull)]
  }

  /** Fetching the episode of `id`: the body and its `shows` object, or None when the entry
      fails. It fails when the id is falsy, when the GET raises or answers other than 200,
      when the body is not JSON, and when the body or its `shows` value is not an object
      (`.get` raises inside the `try`, before anything is written). */
  function Attempt(id: Json, fetch: string -> Response, repr: Json -> string): Option<(Record, Record)> {
    if !Truthy(id) then None
    else match Fetched(fetch(EpisodeUrl(PyStr(id, repr))))
      case Some(JObj(body)) =>
        (match Lookup(body, "shows", JObj(map[]))
         case JObj(shows) => Some((body, shows))
         case _ => None)
      case _ => None
  }

  /** The store and the counters of `fetch_episodes`. */
  datatype Fetching = Fetching(episodes: Dict<Record>, newEpisodes: nat, failures: seq<string>)

  /** The outcomes of fetching the pending entries `ps`, in order. */
  function Attempts(ps: seq<(string, Json)>, fetch: string -> Response, repr: Json -> string): (outs: seq<Option<(Record, Record)>>)
    ensures |outs| == |ps|
    ensures forall i :: 0 <= i < |ps| ==> outs[i] == Attempt(ps[i].1, fetch, repr)
  {
    seq(|ps|, i requires 0 <= i < |ps| => Attempt(ps[i].1, fetch, repr))
  }

  /** The record `rec` after a fetch with outcome `a`: updated when the fetch succeeded, as
      it was when it failed. */
  function Settle(rec: Record, id: Json, a: Option<(Record, Record)>): Record {
    match a
    case None => rec
    case Some((body, shows)) => Merge(rec, id, body, shows)
  }

  /** The record of `num` that is updated: the stored one, or `{}` for a number not in
      the store. */
  function Entry(vals: map<string, Record>, num: string): Record {
    if num in vals then vals[num] else map[]
  }

  /** One iteration: the entry is updated and counted, or listed as a failure. */
  function FetchStep(t: Fetching, num: string, id: Json, a: Option<(Record, Record)>): (r: Fetching)
    requires t.episodes.Valid()
    ensures r.episodes.Valid()
  {
    if a.None? then t.(failures := t.failures + [num])
    else t.(episodes := t.episodes.Put(num, Settle(Entry(t.episodes.vals, num), id, a)), newEpisodes := t.newEpisodes + 1)
  }

  /** The loop over the first `n` pending entries of `ps`, with fetch outcomes `outs`,
      starting from `start`. */
  function FetchFold(start: Dict<Record>, ps: seq<(string, Json)>, outs: seq<Option<(Record, Record)>>, n: nat): (r: Fetching)
    requires start.Valid() && n <= |ps| == |outs|
    ensures r.episodes.Valid()
  {
    if n == 0 then Fetching(start, 0, [])
    else FetchStep(FetchFold(start, ps, outs, n - 1), ps[n - 1].0, ps[n - 1].1, outs[n - 1])
  }

  /** `fetch_episodes` on store `d`: nothing happens when no entry is pending. */
  function FetchSpec(d: Dict<Record>, fetch: string -> Response, repr: Json -> string): Fetching
    requires d.Valid()
  {
    FetchFold(d, Pending(d), Attempts(Pending(d), fetch, repr), |Pending(d)|)
  }

  // ---------------------------------------------------------------------------
  // generate_rss_feed

  /** The records that have a `title` key, in store order. */
  function TitledFrom(keys: seq<string>, vals: map<string, Record>): seq<Record>
    requires forall k :: k in keys ==> k in vals
    decreases |keys|
  {
    if keys == [] then []
    else
      var n := |keys| - 1;
      TitledFrom(keys[..n], vals) + (if "title" in vals[keys[n]] then [vals[keys[n]]] else [])
  }

  function Titled(d: Dict<Record>): seq<Record>
    requires d.Valid()
  {
    TitledFrom(d.keys, d.vals)
  }

  /** The `enclosure` element: its `url` attribute and, when set, its `length`. */
  datatype Enclosure = Enclosure(url: Json, length: Option<int>)

  /** The elements of one `<item>` that depend on the episode. Each item also has a fixed
      `link` and `itunes:episodeType` "full". */
  datatype FeedItem = FeedItem(
    title: Json,
    description: string,
    pubDate: Option<string>,
    enclosure: Option<Enclosure>,
    duration: Option<string>,
    image: Option<Json>,
    content: Option<Json>)

  /** What `generate_rss_feed` ends with: no episode with a title, an exception, or a
      feed with these items. */
  datatype FeedOutcome = NoEpisodes | Crashed(reason: string) | Written(items: seq<FeedItem>)

  /** The `pubDate` element: present when the value is a string that `isoToRfc`
      (`fromisoformat` after the `Z` replacement, then `strftime` with `%z`) converts; the
      bare `except` drops it in every other case. */
  function PubDate(p: Json, isoToRfc: string -> Option<string>): Option<string> {
    if Truthy(p) && p.JStr? then isoToRfc(RssLines.ReplaceZ(p.s)) else None
  }

  /** The item of one record. A truthy summary that is not a string makes `re.sub` raise;
      a truthy duration that is neither a number nor `True` makes `int(duration * 1024)`
      or `format_duration` raise (`True` counts as one second). */
  function ItemOf(ep: Record, isoToRfc: string -> Option<string>): Result<FeedItem> {
    match CleanHtmlTags(Lookup(ep, "summary", JStr("")))
    case Err(e) => Err(e)
    case Ok(description) =>
      var duration := Lookup(ep, "duration", JNull);
      if Truthy(duration) && !duration.JNum? && !duration.JBool? then Err("TypeError")
      else
        var seconds := if duration.JNum? then duration.n else 1;
        var streamUrl := Lookup(ep, "stream_url", JNull);
        var cover := Lookup(ep, "cover", JNull);
        var summary := Lookup(ep, "summary", JNull);
        Ok(FeedItem(
          Lookup(ep, "title", JStr("Unknown Episode")),
          description,
          PubDate(Lookup(ep, "publish_date", JNull), isoToRfc),
          if Truthy(streamUrl)
          then Some(Enclosure(streamUrl, if Truthy(duration) then Some(seconds * 1024) else None))
          else None,
          if Truthy(duration) then Some(FormatDuration(Some(seconds))) else None,
          if Truthy(cover) then Some(cover) else None,
          if Truthy(summary) then Some(summary) else None))
  }

  /** The items of `eps`, in order. */
  function Items(eps: seq<Record>, isoToRfc: string -> Option<string>): (rs: seq<Result<FeedItem>>)
    ensures |rs| == |eps|
    ensures forall i :: 0 <= i < |eps| ==> rs[i] == ItemOf(eps[i], isoToRfc)
  {
    seq(|eps|, i requires 0 <= i < |eps| => ItemOf(eps[i], isoToRfc))
  }

  /** `generate_rss_feed` on store `d`. */
  function FeedSpec(d: Dict<Record>, isoToRfc: string -> Option<string>): FeedOutcome
    requires d.Valid()
  {
    var eps := Titled(d);
    if eps == [] then NoEpisodes
    else match All(Items(eps, isoToRfc))
      case Err(e) => Crashed(e)
      case Ok(items) => Written(items)
  }

  // ---------------------------------------------------------------------------
  // The scraper

  class HaftaScraper {
    var episodes: Dict<Record>
    var links: seq<string>
    var lastUpdated: Option<string>

    ghost predicate Valid()
      reads this
    {
      episodes.Valid()
    }

    /** `__init__` / `load_data`: the stored data, or an empty store with no links. */
    constructor(stored: Option<Stored>)
      requires stored.Some? ==> stored.value.episodes.Valid()
      ensures Valid()
      ensures stored.None? ==> episodes == Empty() && links == [] && lastUpdated == None
      ensures stored.Some? ==> episodes == stored.value.episodes && links == stored.value.links
                               && lastUpdated == stored.value.lastUpdated
    {
      match stored
      case None =>
        episodes, links, lastUpdated := Empty(), [], None;
      case Some(s) =>
        episodes, links, lastUpdated := s.episodes, s.links, s.lastUpdated;
    }

    /** `save_data`: stamps the data with the time `now` (`datetime.now().isoformat()`). */
    method SaveData(now: string)
      modifies this
      ensures lastUpdated == Some(now)
      ensures episodes == old(episodes) && links == old(links)
    {
      lastUpdated := Some(now);
    }

    /** `scrape_links_from_html`: `page` is the parsed file, None when no file is given or
      it does not exist. The links found replace the stored ones wholesale. */
    method ScrapeLinksFromHtml(page: Option<seq<Anchor>>, now: string) returns (result: seq<string>)
      modifies this
      ensures page.None? ==> result == [] && links == old(links) && lastUpdated == old(lastUpdated)
      ensures page.Some? ==> result == Links(page.value) && links == result && lastUpdated == Some(now)
      ensures episodes == old(episodes)
    {
      if page.None? {
        return [];
      }
      result := ScrapeHaftaLinks(page.value);
      links := result;
      SaveData(now);
    }

    /** `extract_episode_ids`: the stored links are resolved, skipping numbers already in
      the store. The data is only read: the identifiers found are returned, never stored. */
    method ExtractEpisodeIds(visit: string -> Visit) returns (newIds: Dict<string>)
      requires Valid()
      ensures newIds == Classify(Probes(links, visit), episodes.vals.Keys).ids
    {
      if links == [] {
        return Empty();
      }
      var failures;
      newIds, failures := ResolveLinks(links, episodes.vals.Keys, visit);
    }

    /** The loop of `fetch_episodes` that collects the entries to fetch. */
    method PendingEntries() returns (pending: seq<(string, Json)>)
      requires Valid()
      ensures pending == Pending(episodes)
    {
      pending := [];
      var i := 0;
      while i < |episodes.keys|
        invariant 0 <= i <= |episodes.keys|
        invariant pending == PendingFrom(episodes.keys[..i], episodes.vals)
      {
        var num := episodes.keys[i];
        assert episodes.keys[..i + 1][..i] == episodes.keys[..i];
        var episodeData := episodes.vals[num];
        if "raw_data" !in episodeData {
          pending := pending + [(num, Lookup(episodeData, "episode_id", JNull))];
        }
        i := i + 1;
      }
      assert episodes.keys[..i] == episodes.keys;
    }

    /** The body of the loop of `fetch_episodes` up to the update: a falsy id fails, and so
      does a GET answered other than 200, a body that is not JSON, and a `.get` on a body
      or `shows` value that is not an object. */
    static method FetchEntry(episodeId: Json, fetch: string -> Response, repr: Json -> string)
      returns (fetched: Option<(Record, Record)>)
      ensures fetched == Attempt(episodeId, fetch, repr)
    {
      if !Truthy(episodeId) {
        return None;
      }
      var response := fetch(EpisodeUrl(PyStr(episodeId, repr)));
      if response.Answered? && response.status == 200 && response.body.Some?
         && response.body.value.JObj?
         && Lookup(response.body.value.fields, "shows", JObj(map[])).JObj?
      {
        var body := response.body.value.fields;
        fetched := Some((body, Lookup(body, "shows", JObj(map[])).fields));
      } else {
        fetched := None;
      }
    }

    /** The update of one fetched entry in `fetch_episodes`: a missing number first gets
      an empty record, then the fetched fields are merged into it. */
    method UpdateEntry(num: string, episodeId: Json, body: Record, shows: Record)
      requires Valid()
      modifies this
      ensures Valid()
      ensures episodes == old(episodes).Put(num, Merge(Entry(old(episodes).vals, num), episodeId, body, shows))
      ensures links == old(links) && lastUpdated == old(lastUpdated)
    {
      ghost var e0 := episodes;
      if num !in episodes.vals {
        episodes := episodes.Put(num, map[]);
      }
      assert episodes.vals[num] == Entry(e0.vals, num);
      var merged := Merge(episodes.vals[num], episodeId, body, shows);
      if num !in e0.vals {
        PutTwice(e0, num, map[], merged);
      }
      episodes := episodes.Put(num, merged);
    }

    /** The loop of `fetch_episodes` over the pending entries. */
    method FetchPending(pending: seq<(string, Json)>, fetch: string -> Response, repr: Json -> string)
      returns (newEpisodes: nat, failures: seq<string>)
      requires Valid()
      modifies this
      ensures Valid()
      ensures Fetching(episodes, newEpisodes, failures) == FetchFold(old(episodes), pending, Attempts(pending, fetch, repr), |pending|)
      ensures links == old(links) && lastUpdated == old(lastUpdated)
    {
      ghost var start := episodes;
      ghost var outs := Attempts(pending, fetch, repr);
      newEpisodes, failures := 0, [];
      var j := 0;
      while j < |pending|
        invariant 0 <= j <= |pending|
        invariant Fetching(episodes, newEpisodes, failures) == FetchFold(start, pending, outs, j)
        invariant links == old(links) && lastUpdated == old(lastUpdated)
      {
        var (num, episodeId) := pending[j];
        newEpisodes, failures := FetchOne(num, episodeId, fetch, repr, newEpisodes, failures);
        assert FetchFold(start, pending, outs, j + 1) == FetchStep(FetchFold(start, pending, outs, j), num, episodeId, outs[j]);
        j := j + 1;
      }
    }

    /** One iteration of the loop of `fetch_episodes`, for number `num` with identifier
      `episodeId`, given the counters so far. */
    method FetchOne(num: string, episodeId: Json, fetch: string -> Response, repr: Json -> string,
                    newEpisodes: nat, failures: seq<string>)
      returns (newEpisodes': nat, failures': seq<string>)
      requires Valid()
      modifies this
      ensures Valid()
      ensures Fetching(episodes, newEpisodes', failures')
           == FetchStep(Fetching(old(episodes), newEpisodes, failures), num, episodeId, Attempt(episodeId, fetch, repr))
      ensures links == old(links) && lastUpdated == old(lastUpdated)
    {
      var fetched := FetchEntry(episodeId, fetch, repr);
      if fetched.Some? {
        var (body, shows) := fetched.value;
        UpdateEntry(num, episodeId, body, shows);
        newEpisodes', failures' := newEpisodes + 1, failures;
      } else {
        newEpisodes', failures' := newEpisodes, failures + [num];
      }
    }

    /** `fetch_episodes`: every entry without `raw_data` is fetched by its `episode_id` and
      updated in place; the data is saved unless no entry was pending. The counters the
      source prints are returned. */
    method FetchEpisodes(fetch: string -> Response, repr: Json -> string, now: string)
      returns (newEpisodes: nat, failures: seq<string>)
      requires Valid()
      modifies this
      ensures Valid()
      ensures Fetching(episodes, newEpisodes, failures) == FetchSpec(old(episodes), fetch, repr)
      ensures lastUpdated == if Pending(old(episodes)) == [] then old(lastUpdated) else Some(now)
      ensures links == old(links)
    {
      var pending := PendingEntries();
      PendingSpec(episodes.keys, episodes.vals);
      if pending == [] {
        return 0, [];
      }
      newEpisodes, failures := FetchPending(pending, fetch, repr);
      SaveData(now);
    }

    /** `generate_rss_feed`: one item per record with a `title` key, in store order. */
    method GenerateRssFeed(isoToRfc: string -> Option<string>) returns (outcome: FeedOutcome)
      requires Valid()
      ensures outcome == FeedSpec(episodes, isoToRfc)
    {
      var eps := Titled(episodes);
      if eps == [] {
        return NoEpisodes;
      }
      ghost var rs := Items(eps, isoToRfc);
      var items: seq<FeedItem> := [];
      var i := 0;
      while i < |eps|
        invariant 0 <= i <= |eps|
        invariant All(rs[..i]) == Ok(items)
      {
        AllSnoc(rs, i);
        var item := ItemOf(eps[i], isoToRfc);
        if item.Err? {
          AllErrSticky(rs, i + 1);
          return Crashed(item.error);
        }
        items := items + [item.value];
        i := i + 1;
      }
      assert rs[..i] == rs;
      outcome := Written(items);
    }

    /** `run_full_pipeline`: the identifiers found only decide whether the store is
      fetched; then the feed is generated from the resulting store. */
    method RunFullPipeline(visit: string -> Visit, fetch: string -> Response, repr: Json -> string,
                           isoToRfc: string -> Option<string>, now: string)
      returns (outcome: FeedOutcome)
      requires Valid()
      modifies this
      ensures Valid()
      ensures var newIds := Classify(Probes(old(links), visit), old(episodes).vals.Keys).ids;
        episodes == if newIds.keys == [] then old(episodes) else FetchSpec(old(episodes), fetch, repr).episodes
      ensures var newIds := Classify(Probes(old(links), visit), old(episodes).vals.Keys).ids;
        lastUpdated == if newIds.keys == [] || Pending(old(episodes)) == [] then old(lastUpdated) else Some(now)
      ensures episodes.keys == old(episodes).keys && links == old(links)
      ensures outcome == FeedSpec(episodes, isoToRfc)
    {
      ghost var e0 := episodes;
      FetchSpecCounts(e0, fetch, repr);
      var newIds := ExtractEpisodeIds(visit);
      if newIds.keys != [] {
        var _, _ := FetchEpisodes(fetch, repr, now);
      }
      outcome := GenerateRssFeed(isoToRfc);
    }
  }

  // ---------------------------------------------------------------------------
  // Properties

  /** Each pending entry is a record of the store without `raw_data`, with its
      `episode_id` (None when absent). */
  lemma {:induction false} PendingElems(keys: seq<string>, vals: map<string, Record>)
    requires forall k :: k in keys ==> k in vals
    ensures forall i :: 0 <= i < |PendingFrom(keys, vals)| ==>
      var p := PendingFrom(keys, vals)[i];
      p.0 in keys && p.0 in vals && "raw_data" !in vals[p.0] && p.1 == Lookup(vals[p.0], "episode_id", JNull)
    decreases |keys|
  {
    if keys != [] {
      var n := |keys| - 1;
      var init := keys[..n];
      PendingElems(init, vals);
      var ps0 := PendingFrom(init, vals);
      var ps := PendingFrom(keys, vals);
      assert ps == ps0 + (if "raw_data" in vals[keys[n]] then [] else [(keys[n], Lookup(vals[keys[n]], "episode_id", JNull))]);
      forall i | 0 <= i < |ps|
        ensures ps[i].0 in keys && ps[i].0 in vals && "raw_data" !in vals[ps[i].0]
        ensures ps[i].1 == Lookup(vals[ps[i].0], "episode_id", JNull)
      {
        if i < |ps0| {
          assert ps[i] == ps0[i];
          assert ps0[i].0 in init;
        } else {
          assert ps[i] == (keys[n], Lookup(vals[keys[n]], "episode_id", JNull));
        }
      }
    }
  }

  /** Every record of the store without `raw_data` is pending. */
  lemma {:induction false} PendingComplete(keys: seq<string>, vals: map<string, Record>, k: string)
    requires forall k :: k in keys ==> k in vals
    requires k in keys && "raw_data" !in vals[k]
    ensures exists i :: 0 <= i < |PendingFrom(keys, vals)| && PendingFrom(keys, vals)[i].0 == k
    decreases |keys|
  {
    var n := |keys| - 1;
    var init := keys[..n];
    var ps0 := PendingFrom(init, vals);
    var ps := PendingFrom(keys, vals);
    assert ps == ps0 + (if "raw_data" in vals[keys[n]] then [] else [(keys[n], Lookup(vals[keys[n]], "episode_id", JNull))]);
    if k != keys[n] {
      var m :| 0 <= m < |keys| && keys[m] == k;
      assert init[m] == k;
      PendingComplete(init, vals, k);
      var i :| 0 <= i < |ps0| && ps0[i].0 == k;
      assert ps[i] == ps0[i];
    } else {
      assert ps[|ps| - 1].0 == k;
    }
  }

  /** Over distinct keys, each number is pending at most once. */
  lemma {:induction false} PendingDistinct(keys: seq<string>, vals: map<string, Record>)
    requires forall k :: k in keys ==> k in vals
    requires forall i, j :: 0 <= i < j < |keys| ==> keys[i] != keys[j]
    ensures forall i, j :: 0 <= i < j < |PendingFrom(keys, vals)| ==>
      PendingFrom(keys, vals)[i].0 != PendingFrom(keys, vals)[j].0
    decreases |keys|
  {
    if keys != [] {
      var n := |keys| - 1;
      var init := keys[..n];
      assert forall i, j :: 0 <= i < j < |init| ==> init[i] != init[j];
      PendingDistinct(init, vals);
      PendingElems(init, vals);
      var ps0 := PendingFrom(init, vals);
      var ps := PendingFrom(keys, vals);
      forall i, j | 0 <= i < j < |ps| ensures ps[i].0 != ps[j].0 {
        assert ps[i] == ps0[i];
        if j < |ps0| {
          assert ps[j] == ps0[j];
        } else {
          assert ps[j].0 == keys[n];
          var m :| 0 <= m < n && init[m] == ps0[i].0;
          assert keys[m] == ps[i].0;
        }
      }
    }
  }

  /** The pending entries are exactly the records without `raw_data`, each with its
      `episode_id` (None when absent), each number once. */
  lemma PendingSpec(keys: seq<string>, vals: map<string, Record>)
    requires forall k :: k in keys ==> k in vals
    ensures var ps := PendingFrom(keys, vals);
      && (forall i :: 0 <= i < |ps| ==> ps[i].0 in keys && ps[i].0 in vals && "raw_data" !in vals[ps[i].0]
                                        && ps[i].1 == Lookup(vals[ps[i].0], "episode_id", JNull))
      && (forall k :: k in keys && "raw_data" !in vals[k] ==> exists i :: 0 <= i < |ps| && ps[i].0 == k)
      && ((forall i, j :: 0 <= i < j < |keys| ==> keys[i] != keys[j]) ==>
            forall i, j :: 0 <= i < j < |ps| ==> ps[i].0 != ps[j].0)
  {
    PendingElems(keys, vals);
    forall k | k in keys && "raw_data" !in vals[k]
      ensures exists i :: 0 <= i < |PendingFrom(keys, vals)| && PendingFrom(keys, vals)[i].0 == k
    {
      PendingComplete(keys, vals, k);
    }
    if forall i, j :: 0 <= i < j < |keys| ==> keys[i] != keys[j] {
      PendingDistinct(keys, vals);
    }
  }

  /** An update adds exactly the eight fetched keys and keeps every other key of the
      record with its value. */
  lemma MergeKeys(rec: Record, id: Json, body: Record, shows: Record)
    ensures forall k :: k in Merge(rec, id, body, shows) <==> k in rec || k in FetchedKeys
    ensures forall k :: k in rec && k !in FetchedKeys ==> Merge(rec, id, body, shows)[k] == rec[k]
  {
  }

  /** The identifier and the fetched body are stored verbatim. */
  lemma MergeStored(rec: Record, id: Json, body: Record, shows: Record)
    ensures var r := Merge(rec, id, body, shows);
      r["episode_id"] == id && r["raw_data"] == JObj(body)
  {
  }

  /** The title, date and summary are copied from `shows`, None when absent. */
  lemma MergeDescribed(rec: Record, id: Json, body: Record, shows: Record)
    ensures var r := Merge(rec, id, body, shows);
      && r["title"] == Lookup(shows, "title", JNull)
      && r["publish_date"] == Lookup(shows, "publishDate", JNull)
      && r["summary"] == Lookup(shows, "summary", JNull)
  {
  }

  /** The stream URL, duration and cover are copied from `shows`, None when absent. */
  lemma MergeMedia(rec: Record, id: Json, body: Record, shows: Record)
    ensures var r := Merge(rec, id, body, shows);
      && r["stream_url"] == Lookup(shows, "streamUrl", JNull)
      && r["duration"] == Lookup(shows, "duration", JNull)
      && r["cover"] == Lookup(shows, "cover", JNull)
  {
  }

  /** Every pending entry counts once: updated or failed. */
  lemma {:induction false} FetchFoldCounts(start: Dict<Record>, ps: seq<(string, Json)>, outs: seq<Option<(Record, Record)>>, n: nat)
    requires start.Valid() && n <= |ps| == |outs|
    ensures FetchFold(start, ps, outs, n).newEpisodes + |FetchFold(start, ps, outs, n).failures| == n
  {
    if n > 0 {
      FetchFoldCounts(start, ps, outs, n - 1);
    }
  }

  /** When every pending number is in the store, the store keeps its keys and their order. */
  lemma {:induction false} FetchFoldKeys(start: Dict<Record>, ps: seq<(string, Json)>, outs: seq<Option<(Record, Record)>>, n: nat)
    requires start.Valid() && n <= |ps| == |outs|
    requires forall i :: 0 <= i < n ==> ps[i].0 in start.vals
    ensures FetchFold(start, ps, outs, n).episodes.keys == start.keys
  {
    if n > 0 {
      FetchFoldKeys(start, ps, outs, n - 1);
      var t := FetchFold(start, ps, outs, n - 1);
      var k := ps[n - 1].0;
      assert k in start.keys;
      assert k in t.episodes.keys;
      assert k in t.episodes.vals;
    }
  }

  /** An entry that is not among the first `n` pending ones is untouched and not a
      failure. */
  lemma {:induction false} FetchFoldUntouched(start: Dict<Record>, ps: seq<(string, Json)>, outs: seq<Option<(Record, Record)>>,
                                              n: nat, k: string)
    requires start.Valid() && n <= |ps| == |outs| && k in start.vals
    requires forall i :: 0 <= i < n ==> ps[i].0 != k
    ensures k in FetchFold(start, ps, outs, n).episodes.vals
    ensures FetchFold(start, ps, outs, n).episodes.vals[k] == start.vals[k]
    ensures k !in FetchFold(start, ps, outs, n).failures
  {
    if n > 0 {
      FetchFoldUntouched(start, ps, outs, n - 1, k);
    }
  }

  /** The pending entry at position `i` is settled by its fetch outcome and listed as a
      failure exactly when the fetch failed. */
  lemma {:induction false} FetchFoldPending(start: Dict<Record>, ps: seq<(string, Json)>, outs: seq<Option<(Record, Record)>>,
                                            n: nat, i: nat)
    requires start.Valid() && n <= |ps| == |outs| && i < n && ps[i].0 in start.vals
    requires forall j, l :: 0 <= j < l < |ps| ==> ps[j].0 != ps[l].0
    ensures var r := FetchFold(start, ps, outs, n); var k := ps[i].0;
      && k in r.episodes.vals
      && r.episodes.vals[k] == Settle(start.vals[k], ps[i].1, outs[i])
      && (k in r.failures <==> outs[i].None?)
  {
    var k := ps[i].0;
    var t := FetchFold(start, ps, outs, n - 1);
    var r := FetchFold(start, ps, outs, n);
    assert r == FetchStep(t, ps[n - 1].0, ps[n - 1].1, outs[n - 1]);
    if i < n - 1 {
      FetchFoldPending(start, ps, outs, n - 1, i);
      assert ps[n - 1].0 != k;
      assert r.episodes.vals[k] == t.episodes.vals[k];
      assert k in r.failures <==> k in t.failures;
    } else {
      FetchFoldUntouched(start, ps, outs, n - 1, k);
      assert Entry(t.episodes.vals, k) == start.vals[k];
    }
  }

  /** `fetch_episodes` entry by entry: a record with `raw_data`, or whose fetch fails, is
      left unchanged; any other is updated. Afterwards a record lacks `raw_data` exactly
      when it is listed as a failure, and the store has the same keys in the same order. */
  lemma FetchSpecAt(d: Dict<Record>, fetch: string -> Response, repr: Json -> string, k: string)
    requires d.Valid() && k in d.vals
    ensures var r := FetchSpec(d, fetch, repr);
      && r.episodes.keys == d.keys && k in r.episodes.vals
      && ("raw_data" in d.vals[k] ==> r.episodes.vals[k] == d.vals[k] && k !in r.failures)
      && ("raw_data" !in d.vals[k] && Attempt(Lookup(d.vals[k], "episode_id", JNull), fetch, repr).None? ==>
            r.episodes.vals[k] == d.vals[k] && k in r.failures)
      && ("raw_data" !in r.episodes.vals[k] <==> k in r.failures)
  {
    PendingSpec(d.keys, d.vals);
    var ps := Pending(d);
    var outs := Attempts(ps, fetch, repr);
    FetchFoldKeys(d, ps, outs, |ps|);
    if "raw_data" !in d.vals[k] {
      var i :| 0 <= i < |ps| && ps[i].0 == k;
      FetchFoldPending(d, ps, outs, |ps|, i);
      match outs[i]
      case None =>
      case Some((body, shows)) => MergeKeys(d.vals[k], ps[i].1, body, shows);
    } else {
      FetchFoldUntouched(d, ps, outs, |ps|, k);
    }
  }

  /** `fetch_episodes` counts every pending entry once, updated or failed, and keeps the
      store's keys in their order. */
  lemma FetchSpecCounts(d: Dict<Record>, fetch: string -> Response, repr: Json -> string)
    requires d.Valid()
    ensures FetchSpec(d, fetch, repr).newEpisodes + |FetchSpec(d, fetch, repr).failures| == |Pending(d)|
    ensures FetchSpec(d, fetch, repr).episodes.keys == d.keys
  {
    PendingSpec(d.keys, d.vals);
    var ps := Pending(d);
    var outs := Attempts(ps, fetch, repr);
    FetchFoldCounts(d, ps, outs, |ps|);
    FetchFoldKeys(d, ps, outs, |ps|);
  }

  /** The numbers `extract_episode_ids` returns are never numbers already in the store, and
      are exactly those of visited links that captured an identifier. */
  lemma NewIdsAreNew(links: seq<string>, visit: string -> Visit, d: Dict<Record>, num: string)
    ensures var known := d.vals.Keys; var ps := Probes(links, visit);
      (num in Classify(ps, known).ids.vals <==> exists i :: 0 <= i < |ps| && Captures(ps[i], num, known))
      && (num in d.vals ==> num !in Classify(ps, known).ids.vals)
  {
    ClassifyKeys(Probes(links, visit), d.vals.Keys, num);
  }

  /** The records the feed is built from are exactly those with a `title` key, in store
      order, at most one per entry. */
  lemma {:induction false} TitledSpec(keys: seq<string>, vals: map<string, Record>, ep: Record)
    requires forall k :: k in keys ==> k in vals
    ensures |TitledFrom(keys, vals)| <= |keys|
    ensures ep in TitledFrom(keys, vals) <==> exists k :: k in keys && "title" in vals[k] && vals[k] == ep
    ensures TitledFrom(keys, vals) == [] <==> forall k :: k in keys ==> "title" !in vals[k]
    decreases |keys|
  {
    if keys != [] {
      var n := |keys| - 1;
      TitledSpec(keys[..n], vals, ep);
      assert keys == keys[..n] + [keys[n]];
      forall k | k in keys ensures k in keys[..n] || k == keys[n] {
      }
    }
  }

  /** Which store entries are selected, as positions in the key order. */
  function TitledAt(keys: seq<string>, vals: map<string, Record>): seq<nat>
    requires forall k :: k in keys ==> k in vals
    decreases |keys|
  {
    if keys == [] then []
    else
      var n := |keys| - 1;
      TitledAt(keys[..n], vals) + (if "title" in vals[keys[n]] then [n] else [])
  }

  /** Position by position, the selected records are the records of titled keys. */
  lemma {:induction false} TitledAtElems(keys: seq<string>, vals: map<string, Record>)
    requires forall k :: k in keys ==> k in vals
    ensures |TitledFrom(keys, vals)| == |TitledAt(keys, vals)|
    ensures forall i :: 0 <= i < |TitledAt(keys, vals)| ==>
      && TitledAt(keys, vals)[i] < |keys|
      && "title" in vals[keys[TitledAt(keys, vals)[i]]]
      && TitledFrom(keys, vals)[i] == vals[keys[TitledAt(keys, vals)[i]]]
    decreases |keys|
  {
    if keys != [] {
      var n := |keys| - 1;
      var init := keys[..n];
      TitledAtElems(init, vals);
      var ps0, ps := TitledAt(init, vals), TitledAt(keys, vals);
      var ts0, ts := TitledFrom(init, vals), TitledFrom(keys, vals);
      assert ps == ps0 + (if "title" in vals[keys[n]] then [n] else []);
      assert ts == ts0 + (if "title" in vals[keys[n]] then [vals[keys[n]]] else []);
      forall i | 0 <= i < |ps|
        ensures ps[i] < |keys| && "title" in vals[keys[ps[i]]] && ts[i] == vals[keys[ps[i]]]
      {
        if i < |ps0| {
          assert ps[i] == ps0[i] && ts[i] == ts0[i];
          assert init[ps0[i]] == keys[ps0[i]];
        }
      }
    }
  }

  /** The positions are strictly increasing: store order, no sorting, no repeats. */
  lemma {:induction false} TitledAtIncreasing(keys: seq<string>, vals: map<string, Record>)
    requires forall k :: k in keys ==> k in vals
    ensures forall i, j :: 0 <= i < j < |TitledAt(keys, vals)| ==> TitledAt(keys, vals)[i] < TitledAt(keys, vals)[j]
    decreases |keys|
  {
    if keys != [] {
      var n := |keys| - 1;
      var init := keys[..n];
      TitledAtIncreasing(init, vals);
      TitledAtElems(init, vals);
      var ps0, ps := TitledAt(init, vals), TitledAt(keys, vals);
      assert ps == ps0 + (if "title" in vals[keys[n]] then [n] else []);
      forall i, j | 0 <= i < j < |ps| ensures TitledAt(keys, vals)[i] < TitledAt(keys, vals)[j] {
        assert ps[i] == ps0[i];
        if j < |ps0| {
          assert ps[j] == ps0[j];
        } else {
          assert ps[j] == n;
        }
      }
    }
  }

  /** Every key whose record has a `title` key is selected. */
  lemma {:induction false} TitledAtComplete(keys: seq<string>, vals: map<string, Record>, j: nat)
    requires forall k :: k in keys ==> k in vals
    requires j < |keys| && "title" in vals[keys[j]]
    ensures j in TitledAt(keys, vals)
    decreases |keys|
  {
    var n := |keys| - 1;
    var init := keys[..n];
    var ps0, ps := TitledAt(init, vals), TitledAt(keys, vals);
    assert ps == ps0 + (if "title" in vals[keys[n]] then [n] else []);
    if j < n {
      assert init[j] == keys[j];
      TitledAtComplete(init, vals, j);
      assert j in ps0;
    } else {
      assert ps[|ps| - 1] == j;
    }
  }

  /** `generate_rss_feed`'s selection: record i of the selection is the record of the
      key at position `TitledAt(..)[i]`, positions increase (store order, one record per
      key), and every key with a `title` key is selected. */
  lemma TitledOrder(d: Dict<Record>)
    requires d.Valid()
    ensures var ps := TitledAt(d.keys, d.vals);
      && |Titled(d)| == |ps|
      && (forall i :: 0 <= i < |ps| ==>
            ps[i] < |d.keys| && "title" in d.vals[d.keys[ps[i]]] && Titled(d)[i] == d.vals[d.keys[ps[i]]])
      && (forall i, j :: 0 <= i < j < |ps| ==> ps[i] < ps[j])
      && (forall j :: 0 <= j < |d.keys| && "title" in d.vals[d.keys[j]] ==> j in ps)
  {
    TitledAtElems(d.keys, d.vals);
    TitledAtIncreasing(d.keys, d.vals);
    forall j | 0 <= j < |d.keys| && "title" in d.vals[d.keys[j]] ensures j in TitledAt(d.keys, d.vals) {
      TitledAtComplete(d.keys, d.vals, j);
    }
  }

  /** An item is built exactly when its summary and duration can be used. Its `enclosure`,
      `itunes:duration`, `itunes:image` and `content:encoded` elements appear exactly when
      `stream_url`, `duration`, `cover` and `summary` are truthy; the enclosure `length` is
      the duration times 1024, and the duration is written `HH:MM:SS`. */
  lemma ItemSpec(ep: Record, isoToRfc: string -> Option<string>)
    ensures var summary := Lookup(ep, "summary", JNull);
            var duration := Lookup(ep, "duration", JNull);
      && (ItemOf(ep, isoToRfc).Ok? <==>
            (!Truthy(summary) || summary.JStr?) && (!Truthy(duration) || duration.JNum? || duration.JBool?))
      && (ItemOf(ep, isoToRfc).Ok? ==>
          var it := ItemOf(ep, isoToRfc).value;
          && (it.enclosure.Some? <==> Truthy(Lookup(ep, "stream_url", JNull)))
          && (it.enclosure.Some? ==> it.enclosure.value.url == ep["stream_url"])
          && (it.enclosure.Some? && duration.JNum? && duration.n != 0 ==> it.enclosure.value.length == Some(duration.n * 1024))
          && (it.duration.Some? <==> Truthy(duration))
          && (duration.JNum? && duration.n > 0 ==> ParseHms(it.duration.value) == Some(duration.n))
          && (it.image.Some? <==> Truthy(Lookup(ep, "cover", JNull)))
          && (it.image.Some? ==> it.image.value == ep["cover"])
          && (it.content.Some? <==> Truthy(summary))
          && (it.content.Some? ==> it.content.value == summary && it.description == CleanTags(summary.s))
          && (it.pubDate.Some? ==> Lookup(ep, "publish_date", JNull).JStr?))
  {
  }

  /** The feed: nothing when no record has a title; otherwise one item per titled record,
      in order, built by `ItemOf`, or the first error. */
  lemma FeedSpecItems(d: Dict<Record>, isoToRfc: string -> Option<string>)
    requires d.Valid()
    ensures FeedSpec(d, isoToRfc) == NoEpisodes <==> forall k :: k in d.keys ==> "title" !in d.vals[k]
    ensures FeedSpec(d, isoToRfc).Written? <==>
              Titled(d) != [] && forall i :: 0 <= i < |Titled(d)| ==> ItemOf(Titled(d)[i], isoToRfc).Ok?
    ensures FeedSpec(d, isoToRfc).Written? ==>
              |FeedSpec(d, isoToRfc).items| == |Titled(d)|
              && forall i :: 0 <= i < |Titled(d)| ==> FeedSpec(d, isoToRfc).items[i] == ItemOf(Titled(d)[i], isoToRfc).value
  {
    TitledSpec(d.keys, d.vals, map[]);
    AllSpec(Items(Titled(d), isoToRfc));
  }
}
