# Hafta podcast scraper — a Dafny model

The scripts of the Hafta podcast repository do four things:
- collect the article links of the Newslaundry Hafta podcast;
- resolve each link to an episode identifier by watching the requests a page makes while it loads;
- fetch each episode's JSON and keep it in a store keyed by Hafta number;
- republish the store as RSS feeds, an OPML outline and flat metadata rows.

This project models the logic of those scripts, with every external effect replaced by an input value: the browser, HTTP, HTML parsing, files and clocks. It proves what that logic guarantees.

Modules follow the scripts:
- Shared models:
  - `Wrappers`: Option/Result.
  - `JsonValues`: JSON values, `dict.get`, truthiness and `str()`.
  - `OrderedDict`: a Python dict with insertion order.
  - `Decimal`: digit strings.
  - `Patterns`: the `re.search` shapes the scripts use.
  - `Http`: response shapes and the API URL.
  - `Lines`: `"\n".join` and documents framed by fixed lines.
  - `Markup`: the two tag-stripping regexes.
  - `Cdata`: the CDATA terminator escape and a reader of CDATA sections.
  - `Duration`: `HH:MM:SS`.
  - `PyFloat`: `float()` of a whole-number string.
  - `Capture`: the single-slot cell filled by the request handler.
- One module per script:
  - `HaftaLinks` (scrape_hafta_links.py)
  - `EpisodeIds` (extract_episode_ids_playwright.py and the loop of `extract_episode_ids`)
  - `FetchAll` (fetch_all_hafta_json.py)
  - `AudioMetadata` (extract_audio_metadata.py)
  - `Opml` (json_to_opml.py)
  - `RssLines` (json_to_rss.py)
  - `Scraper` (the `HaftaScraper` class of hafta_scraper.py, with `episodes`, `links` and `lastUpdated` fields that its methods update in place)

The external effects are inputs:
- A page visit is `visit: string -> Visit`: the request URLs, in order, and whether loading raised.
- A GET is `fetch: string -> Response`: raised, or a status with an optional JSON body. A HEAD is `head: string -> Head`.
- Parsed HTML is a sequence of `Anchor(ariaLabel, href)`.
- The ISO to RFC 2822 date conversion is `isoToRfc: string -> Option<string>`. None stands for `fromisoformat` raising.
- `str()` of a JSON list or object is `repr: Json -> string`.
- The current time is a string parameter, `now` or `lastBuild`.

Python exceptions that end a script are `Err` results. Caught exceptions are the branch the code takes.

## Model

| member | source | states |
|---|---|---|
| Http.Fetched | fetch_all_hafta_json.py:28-30 | a response gives a JSON body exactly when it was answered with status 200 and a body; the body is returned unchanged |
| JsonValues.Lookup | extract_audio_metadata.py:10-18 | `dict.get(key, default)`: the stored value when the key is present, the default otherwise |
| Patterns.RunSpec | extract_episode_ids_playwright.py:14 | a greedy character-class run is a prefix of its input, all in the class, and stops only at the end or at a character outside the class |
| Patterns.SearchIndexSpec | extract_episode_ids_playwright.py:14 | `re.search` finds the first position where the literal is followed by at least one class character, and no earlier position matches |
| Patterns.SearchGroupSpec | extract_episode_ids_playwright.py:14-16 | the search has no group exactly when no position matches; a group is a non-empty run of class characters |
| HaftaLinks.ScrapeHaftaLinks | scrape_hafta_links.py:14-20 | the loop collects exactly the filtered hrefs `Links(anchors)` |
| HaftaLinks.ResultObject | scrape_hafta_links.py:23 | the result object has the single key `hafta_links`, whose array holds the links in order |
| HaftaLinks.KeepSpec | scrape_hafta_links.py:17-20 | the kept hrefs are those of the selected anchors: at most one per anchor, each anchor's own href, in document order, with every selected anchor kept and nothing deduplicated |
| HaftaLinks.KeepAt | scrape_hafta_links.py:17-20 | each kept href is the href of a selected anchor at a recorded position, and the count is at most the number of anchors |
| HaftaLinks.KeptAtOrder | scrape_hafta_links.py:17-20 | the recorded positions are in range and strictly increasing, and every selected anchor's position is among them |
| HaftaLinks.KeptAtBound | scrape_hafta_links.py:17 | every recorded position is an index of the anchor list |
| HaftaLinks.KeptAtIncreasing | scrape_hafta_links.py:17 | recorded positions follow document order |
| HaftaLinks.KeptAtComplete | scrape_hafta_links.py:17-19 | every selected anchor is recorded |
| HaftaLinks.LinksSpec | scrape_hafta_links.py:12-20 | the links are the non-empty hrefs of matching anchors, in order, no more links than anchors, every match kept |
| HaftaLinks.LinksMembership | scrape_hafta_links.py:17-20 | a string is a link iff some matching anchor has it as href |
| HaftaLinks.LabelNeedsColon | scrape_hafta_links.py:12 | a label is kept only with the `:` after the digits |
| HaftaLinks.RunDigits | scrape_hafta_links.py:12 | the digit run is the maximal run of leading digits |
| Capture.LastHit | extract_episode_ids_playwright.py:34-38 | the cell is empty iff no request matched; otherwise it holds the extraction of a matching request after which no request matches (the last match wins) |
| Capture.LastCapture | hafta_scraper.py:115-123 | the same for the API pattern of the episode identifier |
| Capture.LastCaptureAlnum | extract_episode_ids_playwright.py:16 | a captured identifier is a non-empty `[a-z0-9]` string |
| Capture.CaptureCell.constructor | extract_episode_ids_playwright.py:31 | the cell starts empty |
| Capture.CaptureCell.HandleRequest | extract_episode_ids_playwright.py:34-38 | a matching URL overwrites the cell with its group; any other URL leaves it unchanged |
| Capture.Observe | extract_episode_ids_playwright.py:31-45 | feeding a visit's requests to a fresh cell in order leaves it holding `LastCapture` of those requests |
| EpisodeIds.ProbeOf | extract_episode_ids_playwright.py:25-41 | what the loop learns about a link: the number from its URL, the raised flag and the capture of its visit |
| EpisodeIds.Probes | extract_episode_ids_playwright.py:24 | one probe per link, in order |
| EpisodeIds.ResolveLinks | extract_episode_ids_playwright.py:24-51 | the loop builds exactly the map and failure list of `Classify` over the probes of the links |
| EpisodeIds.ResolveLink | extract_episode_ids_playwright.py:25-51 | one iteration performs exactly one `Step` of the classification |
| EpisodeIds.ExtractEpisodeIds | extract_episode_ids_playwright.py:18-51 | the script with no number skipped |
| EpisodeIds.ClassifySnoc | extract_episode_ids_playwright.py:24 | classifying one more link is one more step |
| EpisodeIds.StepIds | extract_episode_ids_playwright.py:46-48 | a step adds or overwrites the entry of a number exactly when that link captured an id, and keeps every other entry |
| EpisodeIds.ClassifyKeys | extract_episode_ids_playwright.py:24-48 | the map's keys are exactly the numbers of visited (not skipped) links that captured an id |
| EpisodeIds.ClassifyLastWins | extract_episode_ids_playwright.py:46-48 | a number's entry is the id of the last link with that number that captured one |
| EpisodeIds.ClassifyIdsAlnum | extract_episode_ids_playwright.py:16-47 | every stored identifier is a non-empty `[a-z0-9]` string |
| EpisodeIds.ClassifyVisits | extract_episode_ids_playwright.py:25-40 | the pages visited are exactly those of links with a number that is not skipped, in order; links without a number are never visited |
| EpisodeIds.ClassifyFailures | extract_episode_ids_playwright.py:25-51 | the failures are each link's own contribution in order: a numberless link once, a raised load once more, a load that captured nothing once more |
| EpisodeIds.ToVisitAppend | extract_episode_ids_playwright.py:24-40 | one more link adds its page to the visits iff it is visited |
| EpisodeIds.AllFailuresAppend | extract_episode_ids_playwright.py:24-51 | one more link appends only its own failures |
| FetchAll.Visit1 | fetch_all_hafta_json.py:21-39 | one iteration keeps the store a valid ordered dict |
| FetchAll.Outcomes | fetch_all_hafta_json.py:26-30 | one fetch outcome per mapped number, in mapping order |
| FetchAll.Fold | fetch_all_hafta_json.py:21-39 | the loop keeps the store a valid ordered dict |
| FetchAll.VisitNumber | fetch_all_hafta_json.py:22-39 | one iteration's skip, insert or failure is exactly `Visit1` |
| FetchAll.FetchAllHafta | fetch_all_hafta_json.py:11-39 | the loop produces exactly store, counters and failures of `FetchAllSpec`, starting from an empty store when there is no file |
| FetchAll.FoldSnoc | fetch_all_hafta_json.py:21 | one more number is one more iteration |
| FetchAll.FoldCounts | fetch_all_hafta_json.py:17-39 | every iteration counts exactly one outcome: new + skipped + failures = numbers processed |
| FetchAll.FoldKeepsExisting | fetch_all_hafta_json.py:21-25 | existing keys are never removed, reordered or overwritten |
| FetchAll.FoldOutcome | fetch_all_hafta_json.py:21-39 | a number ends up in the store iff it was there or its fetch succeeded; a fetched value is stored verbatim; it is a failure iff it was absent and the fetch failed |
| FetchAll.FoldNotTouched | fetch_all_hafta_json.py:21-39 | a number not in the mapping keeps its presence and value and is never a failure |
| FetchAll.FetchAllAccounts | fetch_all_hafta_json.py:17-39 | new + skipped + failures equals the size of the mapping, and each mapped number is in the final store iff it is not a failure |
| AudioMetadata.Row | extract_audio_metadata.py:10-19 | a row exists iff the entry's `shows` can be read, and it is an object |
| AudioMetadata.RowResults | extract_audio_metadata.py:9 | one row result per entry, in store order |
| AudioMetadata.ExtractAudioMetadata | extract_audio_metadata.py:7-19 | the loop produces exactly `Rows` of the store |
| AudioMetadata.RowKeys | extract_audio_metadata.py:11-19 | each row has exactly seven keys: `hafta_num` and the six copied fields |
| AudioMetadata.RowFields | extract_audio_metadata.py:10-18 | `hafta_num` is the entry's key; each copied field is the `shows` value or null when absent |
| AudioMetadata.RowWithoutShows | extract_audio_metadata.py:10 | an entry without `shows` gives a row whose six fields are null |
| AudioMetadata.RowsWritten | extract_audio_metadata.py:9-19 | the script completes iff every entry's `shows` can be read |
| AudioMetadata.RowsSpec | extract_audio_metadata.py:9-19 | exactly one row per entry, in store order, each with its key as `hafta_num` |
| Cdata.FindClose | json_to_rss.py:58 | a found terminator position really starts a `]]>` |
| Cdata.FindCloseFirst | json_to_rss.py:58 | the found terminator is the first one |
| Cdata.EscapeRoundTrip | json_to_rss.py:58-86 | a CDATA section around the escaped text reads back as the original text, whatever it contains, at the level of CDATA sections (XML's line-end normalisation and forbidden characters are not modelled) |
| Cdata.RoundTripPlain | json_to_rss.py:58 | a text without a terminator reads back unchanged |
| Cdata.RoundTripSplit | json_to_rss.py:58 | a text whose first terminator is split reads back when its tail does |
| Markup.CleanHtmlTags | hafta_scraper.py:214-218 | a falsy text gives `""`, a string gives its tags removed, any other value raises |
| Markup.FirstGt | hafta_scraper.py:217 | the end a tag regex finds is the first `>` with no stop character (newline for `<.*?>`, `<` for `<[^<]+?>`) before it; none is found only when every `>` has a stop character before it |
| Markup.CleanTagsSubsequence | hafta_scraper.py:217-218 | the cleaned text is a subsequence of the input |
| Markup.CleanTagsFixedPoint | hafta_scraper.py:217-218 | a text in which no `<` closes on its line is left unchanged |
| Markup.CleanTagsNoLineTag | hafta_scraper.py:217-218 | no `<` of the cleaned text closes on its line |
| Markup.CleanTagsIdempotent | hafta_scraper.py:217-218 | cleaning twice equals cleaning once |
| Markup.SummaryTagEnd | json_to_rss.py:70 | a tag has at least one character between `<` and its `>` and no `<` inside |
| Markup.StripSummarySubsequence | json_to_rss.py:70 | the stripped summary is a subsequence of the input |
| Markup.StripSummaryPlainText | json_to_rss.py:70 | a text without `<` is left unchanged |
| Markup.StripSummaryNotIdempotent | json_to_rss.py:70 | unlike the other stripper, one pass can leave a tag behind: `<a<b>>` gives `<a>` |
| Duration.FormatDuration | hafta_scraper.py:220-226 | None and 0 give `00:00:00`; a non-negative count reads back as the same number of seconds |
| Duration.Pad2Digits | hafta_scraper.py:226 | a padded field is at least two digits, exactly two below 100, and reads back as its value |
| Duration.FormatHmsRoundTrip | json_to_rss.py:76-81 | `HH:MM:SS` of whole seconds reads back as the same seconds; 0 gives `00:00:00` |
| Duration.HmsSplit | hafta_scraper.py:223-225 | minutes and seconds are below 60 and h*3600 + m*60 + s is the input |
| Duration.FormatExample | hafta_scraper.py:220-226 | 3725 gives `01:02:05`, None gives `00:00:00` |
| Opml.QuoteEscapeNoQuote | json_to_opml.py:19 | the escaped title has no `"`, and a title without `"` passes unchanged |
| Opml.QuoteEscapeRoundTrip | json_to_opml.py:19 | without `&` or `<`, the written attribute reads back as the title |
| Opml.QuoteEscapeAmpersand | json_to_opml.py:19 | `&` passes unescaped, so the attribute does not read back |
| Opml.AttrEscapeRoundTrip | json_to_opml.py:19 | with `&`, `<` and `"` escaped, every title reads back through the attribute's entity references (XML's attribute-whitespace and line-end normalisation and forbidden characters are not modelled) |
| Opml.OutlineLine | json_to_opml.py:19-21 | the line, with the title escaped for `"` only as the script does, exists iff the row is a dict whose title is a string or missing |
| Opml.OutlineLineFixed | json_to_opml.py:19-21 | the corrected line, with `&`, `<` and `"` escaped, exists for exactly the rows the script's line exists for |
| Opml.OutlineResults | json_to_opml.py:18 | one outline per row, in order |
| Opml.JsonToOpml | json_to_opml.py:8-31 | the document is the script's lines (title escaped for `"` only) joined by newlines, or the exception of the first bad row |
| Opml.OpmlWritten | json_to_opml.py:18-21 | the document is written iff every row yields an outline |
| Opml.OpmlShape | json_to_opml.py:8-27 | the lines are the 6 header lines, one outline per row in order, then the 2 footer lines |
| Opml.OutlineTitle | json_to_opml.py:19-21 | each outline's `text` attribute is the title with `"` replaced by `&quot;`; it holds no `"`, is empty when the title is missing, and reads back as the title when the title has no `&` or `<` |
| Opml.OutlineUrl | json_to_opml.py:20-21 | the outline ends with `xmlUrl="` + `str()` of the stream URL + `"/>`, unescaped, and with `xmlUrl=""/>` when the URL is missing |
| Opml.OutlineTitleFixed | json_to_opml.py:19-21 | with the corrected escape, the `text` attribute reads back as the title through its entity references, whatever it holds (up to XML's whitespace normalisation, which is not modelled) |
| Opml.EscapesAgree | json_to_opml.py:19 | on a title without `&` or `<`, the script's escape and the corrected one coincide |
| Opml.OutlineAgrees | json_to_opml.py:19-21 | for such a title, the script's outline line and the corrected one are the same |
| RssLines.FileSizeSpec | json_to_rss.py:6-14 | an all-digit Content-Length gives its value; missing, non-digit or a raised request gives 1 |
| RssLines.AfterLastSlashSpec | json_to_rss.py:87 | `split("/")[-1]` is the longest suffix without `/`, preceded by `/` when shorter than the input |
| RssLines.AfterLastSlashSuffix | json_to_rss.py:87 | it is a suffix |
| RssLines.AfterLastSlashPlain | json_to_rss.py:87 | it has no `/` |
| RssLines.AfterLastSlashStart | json_to_rss.py:87 | it follows the last `/` |
| RssLines.BeforeFirstDotSpec | json_to_rss.py:87 | `split(".")[0]` is the longest prefix without `.`, followed by `.` when shorter |
| RssLines.LastFieldAfterSlash | json_to_rss.py:87 | the field after the last `/` is recovered |
| RssLines.FirstFieldBeforeDot | json_to_rss.py:87 | the field before the first `.` is recovered |
| RssLines.GuidOfFile | json_to_rss.py:87 | the GUID of `dir/name.ext` is `name` |
| RssLines.GuidClean | json_to_rss.py:87 | a GUID contains neither `/` nor `.` |
| RssLines.ReplaceZSpec | json_to_rss.py:62 | no `Z` remains, and a date without `Z` is unchanged |
| RssLines.TextField | json_to_rss.py:58-66 | a missing field reads as `""`, a string as itself, anything else raises |
| RssLines.PubDateText | json_to_rss.py:59-65 | the converted date when conversion succeeds, otherwise `str()` of the raw value |
| RssLines.DurationTextRoundTrip | json_to_rss.py:76-83 | a numeric duration, or a digit string, becomes `HH:MM:SS` that reads back as the seconds |
| RssLines.DurationTextStrings | json_to_rss.py:76-83 | a duration string with a leading space or a `_` separator is formatted as its digits; one with `__` makes `float` raise and is written as it is |
| PyFloat.TrimStart | json_to_rss.py:77 | the leading whitespace `float` skips: the result is a suffix of the input and does not start with whitespace |
| PyFloat.TrimEnd | json_to_rss.py:77 | the trailing whitespace `float` skips: the result is a prefix of the input and does not end with whitespace |
| PyFloat.WholeNumberOfDigits | json_to_rss.py:77 | `float` of a string of ASCII digits is that decimal number |
| PyFloat.WholeNumberDigits | json_to_rss.py:77 | `float(str(n))` is `n` for every non-negative `n` |
| PyFloat.WholeNumberSpaced | json_to_rss.py:77 | leading whitespace is skipped, so `" 60"` is 60 |
| PyFloat.WholeNumberNegative | json_to_rss.py:77 | a `-` before the digits negates the number |
| PyFloat.WholeNumberSeparated | json_to_rss.py:77 | one `_` between two runs of digits is dropped, so `"1_800"` is 1800 |
| PyFloat.WholeNumberDoubleSeparator | json_to_rss.py:77 | two `_` in a row make `float` raise, so the string is written as it is |
| RssLines.ReadEpisode | json_to_rss.py:57-72 | a row is read iff it is a dict whose title and summary are strings or missing and whose stream URL is a string or missing |
| RssLines.ItunesSummaryAsWrittenBreaks | json_to_rss.py:66-92 | a summary holding `]]>` gives an `itunes:summary` section that does not read back |
| RssLines.ItunesSummaryRoundTrip | json_to_rss.py:70-92 | the stripped summary, escaped after stripping, reads back from its section |
| RssLines.ItunesSummaryAgrees | json_to_rss.py:66-92 | when neither the summary nor its stripped form holds `]]>`, the script's order and the corrected one give the same text, which reads back as the stripped summary |
| RssLines.Body | json_to_rss.py:85-96 | each item body line is its text indented by six spaces |
| RssLines.EpisodeLines | json_to_rss.py:57-97 | a row yields an item block iff it can be read; the `itunes:summary` text is escaped and then stripped, as the script does |
| RssLines.Blocks | json_to_rss.py:57 | one block per row, in order |
| RssLines.RenderItems | json_to_rss.py:57-97 | the loop appends exactly the concatenated blocks, or stops at the first bad row |
| RssLines.JsonToRss | json_to_rss.py:21-107 | the feed is the script's lines (with the as-written `itunes:summary`) joined by newlines, or the exception of the first bad row |
| RssLines.ConcatSnoc | json_to_rss.py:57 | one more row appends its block |
| RssLines.ConcatOk | json_to_rss.py:57-97 | the items are written iff every row yields a block |
| RssLines.ItemLinesShape | json_to_rss.py:84-97 | an item is 12 lines, 13 with a truthy cover, opening with `<item>`, closing with `</item>`, and containing one `<item>` line |
| RssLines.HeaderFooterNoItem | json_to_rss.py:21-103 | the header is 32 lines and neither header nor footer holds an `<item>` line |
| RssLines.ConcatCount | json_to_rss.py:57-97 | the concatenated blocks hold one `<item>` line per row |
| RssLines.FeedSpec | json_to_rss.py:21-103 | the feed is written iff every row can be read, and then it holds exactly one `<item>` line per row |
| Scraper.Attempts | hafta_scraper.py:166-177 | one fetch outcome per pending entry, in order |
| Scraper.FetchStep | hafta_scraper.py:166-200 | one iteration keeps the store a valid ordered dict |
| Scraper.FetchFold | hafta_scraper.py:166-200 | the loop keeps the store a valid ordered dict |
| Scraper.Items | hafta_scraper.py:272 | one item per selected record, in order |
| Scraper.HaftaScraper.constructor | hafta_scraper.py:22-39 | the loaded data, or an empty store, no links and no timestamp when there is no file |
| Scraper.HaftaScraper.SaveData | hafta_scraper.py:41-45 | sets the timestamp and changes nothing else |
| Scraper.HaftaScraper.ScrapeLinksFromHtml | hafta_scraper.py:47-76 | without a page nothing changes and `[]` is returned; with one, the links are replaced wholesale by the filtered hrefs and saved |
| Scraper.HaftaScraper.ExtractEpisodeIds | hafta_scraper.py:78-147 | the ids found for the links, skipping numbers already in the store; `{}` for no links; the store is only read |
| Scraper.HaftaScraper.PendingEntries | hafta_scraper.py:153-157 | exactly the entries without `raw_data`, in store order, with their `episode_id` |
| Scraper.HaftaScraper.FetchEntry | hafta_scraper.py:167-177 | the outcome of fetching an entry's id: None for a falsy id, a failed request or a body that is not an object |
| Scraper.HaftaScraper.UpdateEntry | hafta_scraper.py:179-191 | the entry (created empty when missing) is merged with the fetched fields, keeping its position; links and timestamp unchanged |
| Scraper.HaftaScraper.FetchOne | hafta_scraper.py:166-200 | one iteration is exactly one `FetchStep` |
| Scraper.HaftaScraper.FetchPending | hafta_scraper.py:163-200 | the loop yields exactly `FetchFold` over the pending entries |
| Scraper.HaftaScraper.FetchEpisodes | hafta_scraper.py:149-203 | store and counters are `FetchSpec` of the old store; the data is saved only when some entry was pending |
| Scraper.HaftaScraper.GenerateRssFeed | hafta_scraper.py:205-331 | the outcome is `FeedSpec` of the store |
| Scraper.HaftaScraper.RunFullPipeline | hafta_scraper.py:333-347 | the store is fetched only when ids were found, without ever storing them; `last_updated` is set to `now` only when ids were found and some entry was pending, and is otherwise unchanged; its keys and the links are unchanged; the feed comes from the resulting store |
| Scraper.PendingElems | hafta_scraper.py:155-157 | each pending entry is a stored record without `raw_data`, paired with its `episode_id` |
| Scraper.PendingComplete | hafta_scraper.py:155-157 | every record without `raw_data` is pending |
| Scraper.PendingDistinct | hafta_scraper.py:154-157 | no number is pending twice |
| Scraper.PendingSpec | hafta_scraper.py:154-157 | pending entries are exactly the records without `raw_data`, distinct, with their `episode_id` |
| Scraper.MergeKeys | hafta_scraper.py:182-191 | the update writes exactly the eight keys and keeps every other existing key |
| Scraper.MergeStored | hafta_scraper.py:183-184 | `episode_id` is the id used and `raw_data` the body verbatim |
| Scraper.MergeDescribed | hafta_scraper.py:185-187 | title, publish date and summary come from `shows`, null when absent |
| Scraper.MergeMedia | hafta_scraper.py:188-190 | stream URL, duration and cover come from `shows`, null when absent |
| Scraper.FetchFoldCounts | hafta_scraper.py:163-200 | every processed entry is counted once: new + failures = processed |
| Scraper.FetchFoldKeys | hafta_scraper.py:179-182 | updating stored numbers never adds, removes or reorders keys |
| Scraper.FetchFoldUntouched | hafta_scraper.py:166-200 | an entry that is not processed keeps its record and is never a failure |
| Scraper.FetchFoldPending | hafta_scraper.py:166-200 | a processed entry is merged iff its fetch succeeded, and is a failure otherwise |
| Scraper.FetchSpecAt | hafta_scraper.py:154-200 | records with `raw_data` are unchanged; failed fetches leave the record and list the number; a record lacks `raw_data` afterwards iff it failed |
| Scraper.FetchSpecCounts | hafta_scraper.py:163-203 | new + failures = number of pending entries, and the store keeps its keys |
| Scraper.NewIdsAreNew | hafta_scraper.py:101-139 | a number is found iff some visited link with it captured an id, and never for a number in the store |
| Scraper.TitledSpec | hafta_scraper.py:229 | the selected records are exactly those with a `title` key (whatever its value) |
| Scraper.TitledAtElems | hafta_scraper.py:229 | the i-th selected record is the record at the i-th recorded store position, which holds a `title` |
| Scraper.TitledAtIncreasing | hafta_scraper.py:229 | the recorded store positions strictly increase, so the selection keeps store order |
| Scraper.TitledAtComplete | hafta_scraper.py:229 | every store position whose record has a `title` is recorded |
| Scraper.TitledOrder | hafta_scraper.py:229 | the selection is the titled records of the store, each once, in store order |
| Scraper.ItemSpec | hafta_scraper.py:272-320 | an item is built iff summary and duration have usable types; enclosure, `itunes:duration`, `itunes:image` and `content:encoded` are present iff stream URL, duration, cover and summary are truthy, with their values |
| Scraper.FeedSpecItems | hafta_scraper.py:229-320 | no feed iff no record has a title; otherwise one item per titled record, in store order, unsorted |

## Left out

- Durations are whole seconds. The floats of `float(duration)`, `seconds // 3600` and `int(duration * 1024)` are not modelled, nor are float-typed JSON numbers.
- RssLines.DurationText: of the strings `float` accepts, only whole numbers are modelled (ASCII whitespace around them, a sign, `_` between digits). A decimal point, a finite exponent, non-ASCII digits and non-ASCII whitespace are not modelled. Such a string is written as it is, the branch for a string `float` rejects, while the script would format it. On `inf`, `nan` and exponents that overflow to infinity the model and the script agree: `int()` of the resulting nan raises inside the `try`, so the script writes the string as it is, and the model writes it as it is because `WholeNumber` rejects it.
- `\d` and `str.isdigit` are modelled as ASCII digits. Other Unicode digits are not.
- Browser automation is a `visit` oracle: launching Playwright or Brave (`use_brave`), `goto`, the timeouts and the fresh page per link. GET and HEAD are oracles too, including their own exceptions.
- HTML parsing is left out. BeautifulSoup finds the anchors and the model starts from that list, in document order.
- Reading and writing files and JSON (de)serialisation are left out, along with every `print`. The counters that `fetch_episodes` and fetch_all_hafta_json.py only print are returned instead.
- The ElementTree and minidom serialisation of the scraper's feed is left out. It is modelled as the list of items with their optional elements. Type errors that serialisation would raise for non-string element text are not modelled.
- `datetime.now()`, `datetime.utcnow()`, `fromisoformat` and `strftime` are inputs (`now`, `lastBuild`, `isoToRfc`). `str()` of JSON lists and objects is the `repr` input.
- The key order inside a JSON record is not modelled. Records are maps; only the store's key order is kept.
- `main` and its argument parsing are not part of this model, nor are fetch_hafta_json.py (one hard-coded GET) and json_to_xlsx.py (only library calls).
- The scripts have no minimum-episode filter, no descending sort of feed items, no incremental diff against a head link and no atomic snapshot write. The model follows the code:
  - links are replaced wholesale;
  - `fetch_episodes` merges fields instead of replacing the record;
  - the capture cell keeps the last matching request, not the first;
  - the identifiers `extract_episode_ids` returns are never written to the store and only gate `fetch_episodes` in `run_full_pipeline`.
- Scraper.HaftaScraper.GenerateRssFeed: returns the items with their optional elements, not the pretty-printed XML text.
- The CDATA and attribute readers (`Cdata.SectionsText`, `Opml.AttrText`) model only the section and entity-reference layer of XML. Three things an XML 1.0 parser also does are not modelled: line ends `\r\n` and `\r` become `\n` (section 2.11 of XML 1.0), including inside CDATA; a tab, newline or carriage return in an attribute value becomes a space (section 3.3.3); and characters the grammar forbids (section 2.2, such as `\x01`–`\x08`) make the document malformed. So the round trips `Cdata.EscapeRoundTrip`, `Opml.AttrEscapeRoundTrip`, `Opml.OutlineTitleFixed` and `RssLines.ItunesSummaryRoundTrip` hold for text free of carriage returns, of attribute whitespace other than spaces and of forbidden characters.
- A visit's `raised` flag and its requests are independent inputs. A real load that raises part-way through may still have made some requests; the model allows that combination without deriving it.

## Findings

| source | as written | input that shows it | evidently intended | confidence | as-written member | corrected member |
|---|---|---|---|---|---|---|
| json_to_rss.py:66-92 | the summary is CDATA-escaped first and then tag-stripped; the stripper deletes the `<![CDATA[>` the escape inserted, leaving `]]]]>` inside the `itunes:summary` section | a summary `]]>` | strip the tags, then escape, so the section reads back as the stripped summary | not executed | RssLines.ItunesSummaryAsWrittenBreaks | RssLines.ItunesSummaryRoundTrip |
| json_to_opml.py:19 | only `"` is escaped in the `text` attribute, so a title holding `&` or `<` produces an attribute that is not well-formed XML | a title `&` | escape `&`, `<` and `"` so every title reads back through the attribute's entity references | not executed | Opml.QuoteEscapeAmpersand | Opml.OutlineTitleFixed |

The script models (`Opml.JsonToOpml`, `RssLines.JsonToRss`) follow the code as written. The corrected definitions sit beside them (`Opml.OutlineLineFixed`, `RssLines.ItunesSummary`), and `Opml.OutlineAgrees` and `RssLines.ItunesSummaryAgrees` state the inputs on which both give the same text.
