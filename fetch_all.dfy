/** fetch_all_hafta_json.py: every Hafta number of the mapping whose episode is not yet in
    the store is fetched from the episode API and stored verbatim. */
module FetchAll {
  import opened Wrappers
  import opened JsonValues
  import opened OrderedDict
  import opened Http

  /** The store and the counters of the script. */
  datatype Tally = Tally(episodes: Dict<Json>, newEpisodes: nat, skipped: nat, failures: seq<string>)

  /** The store the script starts from: the existing file's contents, or an empty dict. */
  function Initial(existing: Option<Dict<Json>>): Dict<Json> {
    match existing
    case None => Empty()
    case Some(d) => d
  }

  /** What fetching the episode of identifier `id` gives. */
  function Outcome(id: string, fetch: string -> Response): Option<Json> {
    Fetched(fetch(EpisodeUrl(id)))
  }

  /** One iteration: a number already stored is skipped, otherwise its episode is fetched
      and stored, or the number is recorded as a failure. */
  function Visit1(t: Tally, num: string, outcome: Option<Json>): (r: Tally)
    requires t.episodes.Valid()
    ensures r.episodes.Valid()
  {
    if num in t.episodes.vals then t.(skipped := t.skipped + 1)
    else match outcome
      case Some(j) => t.(episodes := t.episodes.Put(num, j), newEpisodes := t.newEpisodes + 1)
      case None => t.(failures := t.failures + [num])
  }

  /** The outcomes of fetching the identifiers of `nums`, in order. */
  function Outcomes(nums: seq<string>, ids: map<string, string>, fetch: string -> Response): (os: seq<Option<Json>>)
    requires forall n :: n in nums ==> n in ids
    ensures |os| == |nums|
    ensures forall i :: 0 <= i < |nums| ==> os[i] == Outcome(ids[nums[i]], fetch)
  {
    seq(|nums|, i requires 0 <= i < |nums| => Outcome(ids[nums[i]], fetch))
  }

  /** The loop over `nums` with the given fetch outcomes, starting from `start`. */
  function Fold(start: Dict<Json>, nums: seq<string>, os: seq<Option<Json>>): (r: Tally)
    requires start.Valid() && |os| == |nums|
    ensures r.episodes.Valid()
    decreases |nums|
  {
    if nums == [] then Tally(start, 0, 0, [])
    else
      var n := |nums| - 1;
      Visit1(Fold(start, nums[..n], os[..n]), nums[n], os[n])
  }

  /** The whole script on the mapping `mapping` and the existing store. */
  function FetchAllSpec(mapping: Dict<string>, existing: Option<Dict<Json>>, fetch: string -> Response): (r: Tally)
    requires mapping.Valid()
    requires existing.Some? ==> existing.value.Valid()
  {
    Fold(Initial(existing), mapping.keys, Outcomes(mapping.keys, mapping.vals, fetch))
  }

  lemma FoldSnoc(start: Dict<Json>, nums: seq<string>, os: seq<Option<Json>>, i: nat)
    requires start.Valid() && |os| == |nums| && i < |nums|
    ensures Fold(start, nums[..i + 1], os[..i + 1]) == Visit1(Fold(start, nums[..i], os[..i]), nums[i], os[i])
  {
    assert nums[..i + 1][..i] == nums[..i];
    assert os[..i + 1][..i] == os[..i];
  }

  /** The body of the script's loop for number `haftaNum` with identifier `episodeId`. */
  method VisitNumber(t: Tally, haftaNum: string, episodeId: string, fetch: string -> Response) returns (r: Tally)
    requires t.episodes.Valid()
    ensures r == Visit1(t, haftaNum, Outcome(episodeId, fetch))
  {
    r := t;
    if haftaNum in t.episodes.vals {
      r := r.(skipped := r.skipped + 1);
    } else {
      var response := fetch(EpisodeUrl(episodeId));
      if response.Answered? && response.status == 200 && response.body.Some? {
        r := r.(episodes := r.episodes.Put(haftaNum, response.body.value), newEpisodes := r.newEpisodes + 1);
      } else {
        r := r.(failures := r.failures + [haftaNum]);
      }
    }
  }

  method FetchAllHafta(mapping: Dict<string>, existing: Option<Dict<Json>>, fetch: string -> Response)
    returns (haftaEpisodes: Dict<Json>, newEpisodes: nat, skipped: nat, failures: seq<string>)
    requires mapping.Valid()
    requires existing.Some? ==> existing.value.Valid()
    ensures Tally(haftaEpisodes, newEpisodes, skipped, failures) == FetchAllSpec(mapping, existing, fetch)
  {
    var t := Tally(if existing.Some? then existing.value else Empty(), 0, 0, []);
    ghost var os := Outcomes(mapping.keys, mapping.vals, fetch);
    var i := 0;
    while i < |mapping.keys|
      invariant 0 <= i <= |mapping.keys|
      invariant Fold(Initial(existing), mapping.keys[..i], os[..i]) == t
    {
      var haftaNum := mapping.keys[i];
      FoldSnoc(Initial(existing), mapping.keys, os, i);
      ghost var prev := t;
      assert os[i] == Outcome(mapping.vals[haftaNum], fetch);
      t := VisitNumber(t, haftaNum, mapping.vals[haftaNum], fetch);
      assert t == Visit1(prev, haftaNum, os[i]);
      i := i + 1;
    }
    assert mapping.keys[..i] == mapping.keys;
    assert os[..i] == os;
    haftaEpisodes, newEpisodes, skipped, failures := t.episodes, t.newEpisodes, t.skipped, t.failures;
  }

  // ---------------------------------------------------------------------------
  // Properties of the loop

  /** Every number is counted exactly once: fetched, skipped or failed. */
  lemma {:induction false} FoldCounts(start: Dict<Json>, nums: seq<string>, os: seq<Option<Json>>)
    requires start.Valid() && |os| == |nums|
    ensures var t := Fold(start, nums, os); t.newEpisodes + t.skipped + |t.failures| == |nums|
    decreases |nums|
  {
    if nums != [] {
      var n := |nums| - 1;
      FoldCounts(start, nums[..n], os[..n]);
    }
  }

  /** Episodes already stored keep their value and their place; new ones are appended. */
  lemma {:induction false} FoldKeepsExisting(start: Dict<Json>, nums: seq<string>, os: seq<Option<Json>>)
    requires start.Valid() && |os| == |nums|
    ensures var t := Fold(start, nums, os);
      && start.keys <= t.episodes.keys
      && forall k :: k in start.vals ==> k in t.episodes.vals && t.episodes.vals[k] == start.vals[k]
    decreases |nums|
  {
    if nums != [] {
      var n := |nums| - 1;
      FoldKeepsExisting(start, nums[..n], os[..n]);
    }
  }

  /** For distinct numbers: a number ends up stored exactly when it was stored before or
      its fetch succeeded, a newly stored value is the fetched document verbatim, and it is
      a failure exactly when it was not stored and its fetch failed. */
  lemma {:induction false} FoldOutcome(start: Dict<Json>, nums: seq<string>, os: seq<Option<Json>>, i: nat)
    requires start.Valid() && |os| == |nums| && i < |nums|
    requires forall a, b :: 0 <= a < b < |nums| ==> nums[a] != nums[b]
    ensures var t := Fold(start, nums, os);
      && (nums[i] in t.episodes.vals <==> nums[i] in start.vals || os[i].Some?)
      && (nums[i] !in start.vals && os[i].Some? ==> t.episodes.vals[nums[i]] == os[i].value)
      && (nums[i] in t.failures <==> nums[i] !in start.vals && os[i].None?)
    decreases |nums|
  {
    var n := |nums| - 1;
    var prev := Fold(start, nums[..n], os[..n]);
    FoldNotTouched(start, nums[..n], os[..n], nums[n]);
    if i < n {
      FoldOutcome(start, nums[..n], os[..n], i);
      assert nums[..n][i] == nums[i] && os[..n][i] == os[i];
    }
  }

  /** A number that does not occur in `nums` is neither stored nor listed by the loop. */
  lemma {:induction false} FoldNotTouched(start: Dict<Json>, nums: seq<string>, os: seq<Option<Json>>, x: string)
    requires start.Valid() && |os| == |nums|
    requires x !in nums
    ensures x in Fold(start, nums, os).episodes.vals <==> x in start.vals
    ensures x in start.vals ==> Fold(start, nums, os).episodes.vals[x] == start.vals[x]
    ensures x !in Fold(start, nums, os).failures
    decreases |nums|
  {
    if nums != [] {
      var n := |nums| - 1;
      assert x != nums[n];
      assert x !in nums[..n];
      FoldNotTouched(start, nums[..n], os[..n], x);
      var prev := Fold(start, nums[..n], os[..n]);
      assert Fold(start, nums, os) == Visit1(prev, nums[n], os[n]);
    }
  }

  /** The script's summary: every number of the mapping is accounted for, and afterwards a
      number of the mapping is in the store unless it is listed as a failure. */
  lemma FetchAllAccounts(mapping: Dict<string>, existing: Option<Dict<Json>>, fetch: string -> Response, i: nat)
    requires mapping.Valid()
    requires existing.Some? ==> existing.value.Valid()
    requires i < |mapping.keys|
    ensures var t := FetchAllSpec(mapping, existing, fetch);
      && t.newEpisodes + t.skipped + |t.failures| == |mapping.keys|
      && (mapping.keys[i] in t.episodes.vals <==> mapping.keys[i] !in t.failures)
  {
    var os := Outcomes(mapping.keys, mapping.vals, fetch);
    FoldCounts(Initial(existing), mapping.keys, os);
    FoldOutcome(Initial(existing), mapping.keys, os, i);
  }
}
