/** What the network calls of the scripts return, as values the model is given. */
module Http {
  import opened Wrappers
  import opened JsonValues

  /** `requests.get(url)` followed, on status 200, by `response.json()`: the call raised,
      or the server answered with a status code and a body that parses as JSON (Some) or
      makes `json()` raise (None). */
  datatype Response = Raised | Answered(status: int, body: Option<Json>)

  /** `requests.head(url, ...)`: the call raised, or the answer's `Content-Length`
      header, if it has one. */
  datatype Head = HeadRaised | HeadAnswered(contentLength: Option<string>)

  /** The document a GET yields when it counts as fetched: status 200 and a body that
      parses. Every other outcome is reported as a failure by the callers. */
  function Fetched(r: Response): (j: Option<Json>)
    ensures j.Some? <==> r.Answered? && r.status == 200 && r.body.Some?
    ensures j.Some? ==> j == r.body
  {
    match r
    case Raised => None
    case Answered(status, body) => if status == 200 then body else None
  }

  const ApiBase := "https://www.newslaundry.com/acast-rest/shows/5ec3d9497cef7479d2ef4798/episodes"

  /** The episode API URL of an identifier. */
  function EpisodeUrl(id: string): string {
    ApiBase + "/" + id
  }
}
