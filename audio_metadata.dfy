/** extract_audio_metadata.py: one flat row per stored episode, taken from the episode's
    `shows` object. */
module AudioMetadata {
  import opened Wrappers
  import opened JsonValues
  import opened OrderedDict

  /** The fields copied from `shows`, each under its own name. */
  const Copied: seq<string> := ["title", "publishDate", "summary", "streamUrl", "duration", "cover"]

  /** `data.get('shows', {})`, which must be a dict for `show.get` to exist. */
  function Shows(data: Json): Result<Record> {
    if !data.JObj? then Err("AttributeError: data has no get")
    else match Lookup(data.fields, "shows", JObj(map[]))
      case JObj(show) => Ok(show)
      case _ => Err("AttributeError: shows has no get")
  }

  /** The row of episode `num`. */
  function Row(num: string, data: Json): (r: Result<Json>)
    ensures r.Ok? <==> Shows(data).Ok?
    ensures r.Ok? ==> r.value.JObj?
  {
    match Shows(data)
    case Err(e) => Err(e)
    case Ok(show) =>
      Ok(JObj(map[
        "hafta_num" := JStr(num),
        "title" := Lookup(show, "title", JNull),
        "publishDate" := Lookup(show, "publishDate", JNull),
        "summary" := Lookup(show, "summary", JNull),
        "streamUrl" := Lookup(show, "streamUrl", JNull),
        "duration" := Lookup(show, "duration", JNull),
        "cover" := Lookup(show, "cover", JNull)]))
  }

  /** The row of each stored episode, in store order. */
  function RowResults(episodes: Dict<Json>): (rs: seq<Result<Json>>)
    requires episodes.Valid()
    ensures |rs| == |episodes.keys|
    ensures forall i :: 0 <= i < |rs| ==> rs[i] == Row(episodes.keys[i], episodes.vals[episodes.keys[i]])
  {
    seq(|episodes.keys|, i requires 0 <= i < |episodes.keys| => Row(episodes.keys[i], episodes.vals[episodes.keys[i]]))
  }

  /** The script's output: the rows, or the exception of the first malformed entry. */
  function Rows(episodes: Dict<Json>): Result<seq<Json>>
    requires episodes.Valid()
  {
    All(RowResults(episodes))
  }

  method ExtractAudioMetadata(episodes: Dict<Json>) returns (output: Result<seq<Json>>)
    requires episodes.Valid()
    ensures output == Rows(episodes)
  {
    ghost var rs := RowResults(episodes);
    var rows: seq<Json> := [];
    var i := 0;
    while i < |episodes.keys|
      invariant 0 <= i <= |episodes.keys|
      invariant All(rs[..i]) == Ok(rows)
    {
      AllSnoc(rs, i);
      var haftaNum := episodes.keys[i];
      var row := Row(haftaNum, episodes.vals[haftaNum]);
      if row.Err? {
        AllErrSticky(rs, i + 1);
        return Err(row.error);
      }
      rows := rows + [row.value];
      i := i + 1;
    }
    assert rs[..i] == rs;
    return Ok(rows);
  }

  // ---------------------------------------------------------------------------
  // Properties of the rows

  /** A row has exactly the seven keys. */
  lemma RowKeys(num: string, data: Json, show: Record)
    requires Shows(data) == Ok(show)
    ensures Row(num, data).value.fields.Keys == {"hafta_num"} + set f | f in Copied
  {
  }

  /** A row carries the episode's number and copies each field of `shows`, or null when
      `shows` lacks it (or is absent). */
  lemma RowFields(num: string, data: Json, show: Record)
    requires Shows(data) == Ok(show)
    ensures var row := Row(num, data).value.fields;
      && row["hafta_num"] == JStr(num)
      && forall f :: f in Copied ==> row[f] == (if f in show then show[f] else JNull)
  {
  }

  /** When no `shows` object exists every copied field is null. */
  lemma RowWithoutShows(num: string, data: Record)
    requires "shows" !in data
    ensures Row(num, JObj(data)).Ok?
    ensures forall f :: f in Copied ==> Row(num, JObj(data)).value.fields[f] == JNull
  {
  }

  /** The script succeeds exactly when every entry has a usable `shows`. */
  lemma RowsWritten(episodes: Dict<Json>)
    requires episodes.Valid()
    ensures Rows(episodes).Ok? <==>
              forall i :: 0 <= i < |episodes.keys| ==> Shows(episodes.vals[episodes.keys[i]]).Ok?
  {
    AllSpec(RowResults(episodes));
  }

  /** A successful run writes one row per episode, in store order, row `i` carrying the
      `i`-th number. */
  lemma RowsSpec(episodes: Dict<Json>)
    requires episodes.Valid() && Rows(episodes).Ok?
    ensures var rows := Rows(episodes).value;
      && |rows| == |episodes.keys|
      && forall i :: 0 <= i < |rows| ==>
           && Row(episodes.keys[i], episodes.vals[episodes.keys[i]]).Ok?
           && rows[i] == Row(episodes.keys[i], episodes.vals[episodes.keys[i]]).value
           && rows[i].fields["hafta_num"] == JStr(episodes.keys[i])
  {
    var rs := RowResults(episodes);
    AllSpec(rs);
    forall i | 0 <= i < |rs|
      ensures Row(episodes.keys[i], episodes.vals[episodes.keys[i]]).value.fields["hafta_num"] == JStr(episodes.keys[i])
    {
      var data := episodes.vals[episodes.keys[i]];
      assert rs[i].Ok?;
      RowFields(episodes.keys[i], data, Shows(data).value);
    }
  }
}
