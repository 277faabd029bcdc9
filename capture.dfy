/** The single-slot cell that a page's request handler overwrites with the episode
    identifier of every request URL that matches the episode API path. */
module Capture {
  import opened Wrappers
  import opened Patterns

  /** What one page visit shows the handler: the URLs of the requests the page issued, in
      order, and whether `page.goto` or the wait raised. */
  datatype Visit = Visit(requests: seq<string>, raised: bool)

  /** The value a cell holds after `extract` has been tried on each of `requests` in
      order and every hit has overwritten it: the hit on the last request that had one. */
  function LastHit(requests: seq<string>, extract: string -> Option<string>): (r: Option<string>)
    ensures r.None? <==> forall j :: 0 <= j < |requests| ==> extract(requests[j]).None?
    ensures r.Some? ==> exists j :: 0 <= j < |requests| && extract(requests[j]) == r
                                  && forall k :: j < k < |requests| ==> extract(requests[k]).None?
    decreases |requests|
  {
    if requests == [] then None
    else
      var last := requests[|requests| - 1];
      match extract(last)
      case Some(id) => Some(id)
      case None =>
        var r := LastHit(requests[..|requests| - 1], extract);
        assert forall j :: 0 <= j < |requests| - 1 ==> requests[..|requests| - 1][j] == requests[j];
        r
  }

  /** The identifier captured during a visit whose page issued `requests`. */
  function LastCapture(requests: seq<string>): (r: Option<string>)
    ensures r.None? <==> forall j :: 0 <= j < |requests| ==> ApiEpisodeId(requests[j]).None?
    ensures r.Some? ==> exists j :: 0 <= j < |requests| && ApiEpisodeId(requests[j]) == r
                                  && forall k :: j < k < |requests| ==> ApiEpisodeId(requests[k]).None?
  {
    LastHit(requests, ApiEpisodeId)
  }

  /** A captured identifier is a non-empty `[a-z0-9]` string. */
  lemma LastCaptureAlnum(requests: seq<string>)
    requires LastCapture(requests).Some?
    ensures var id := LastCapture(requests).value;
            |id| >= 1 && forall k :: 0 <= k < |id| ==> IsLowerAlnum(id[k])
  {
    var j :| 0 <= j < |requests| && ApiEpisodeId(requests[j]) == LastCapture(requests);
    SearchGroupSpec(requests[j], ApiPath, IsLowerAlnum);
  }

  /** `episode_id_found = [None]` together with the `handle_request` callback. */
  class CaptureCell {
    var found: Option<string>

    constructor ()
      ensures found == None
    {
      found := None;
    }

    /** `handle_request(request)`: a matching URL overwrites the cell, any other leaves it. */
    method HandleRequest(url: string)
      modifies this
      ensures ApiEpisodeId(url).Some? ==> found == ApiEpisodeId(url)
      ensures ApiEpisodeId(url).None? ==> found == old(found)
    {
      var m := ApiEpisodeId(url);
      if m.Some? {
        found := m;
      }
    }
  }

  /** One page visit: a fresh cell, the handler called on each request in order, and the
      cell read after the page is closed. */
  method Observe(v: Visit) returns (id: Option<string>)
    ensures id == LastCapture(v.requests)
  {
    var cell := new CaptureCell();
    var i := 0;
    while i < |v.requests|
      invariant 0 <= i <= |v.requests|
      invariant cell.found == LastHit(v.requests[..i], ApiEpisodeId)
    {
      cell.HandleRequest(v.requests[i]);
      assert v.requests[..i + 1][..i] == v.requests[..i];
      i := i + 1;
    }
    assert v.requests[..i] == v.requests;
    id := cell.found;
  }
}
