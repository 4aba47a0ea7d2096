# GradCafe admissions pipeline: harvester, normaliser and loaders

This project models the data path of a pipeline that collects graduate-admission reports from
thegradcafe.com and stores them in PostgreSQL:

- **Harvester** (`scrape_data` of module_2/scrape.py, the full revision, and of
  module_3/scrape_update.py, the update revision; module_5/src/scrape_update.py shares the
  update revision's helpers). It reads listing pages, turns each table row into a raw record,
  canonicalises and validates the entry URL, de-duplicates by URL and fetches the detail page
  of every new record in chunks. The detail result is merged into the record.
- **Normaliser** (`clean_data` of module_5/src/clean_update.py and module_2/clean.py). It
  strips HTML and whitespace, turns blank strings into None and labels the nationality. When
  the start term or year is missing, it infers them from the free text.
- **Loaders** (`load_update.py` of module_3, module_4 and module_5 and `load_data.py` of the
  same modules). They build one database row per cleaned record and run
  `INSERT ... ON CONFLICT (url) DO NOTHING`. They count the inserts that added a row. A
  `date_posted` that makes `parse_date` raise rolls the whole transaction back.
- **Stored URLs** (`load_existing_urls_from_db`). It reads the URLs already in the
  `applicants` table, canonicalised, which seed the update harvester's de-duplication.

Python values are modelled explicitly:
- JSON values are `Null`, strings, booleans or integers (module `PyJson`).
- Python truthiness, `dict.get`, `a or b` and f-string rendering are written out.
- The TypeError paths of `re.sub`, `" ".join` and `strptime` become a `Result`.
- Regular expressions are hand-written matchers that follow the regex engine's order:
  alternatives left to right, the leftmost match, greedy repetition with backtracking.
- `urllib.parse.urlparse`/`urlsplit`/`geturl` are modelled on CPython 3.13 (module `UrlParse`).
- `datetime.strptime(s, "%Y-%m-%d")` is modelled through the regex it compiles to (module `Dates`).

Where a routine changes state step by step, the model is imperative:
- The harvest loops, the detail-fetch loops, the normaliser loops and the URL loading are
  methods with loops and invariants. Each is proved against a specification function.
- The database table is a class (`Loader.Table`) whose insert and load methods are proved
  against the functional model of the table (`Loader.Insert`, `Loader.Main`).

Network access, HTML parsing, the clock, `float()` and the file system are parameters of the
model. Threads are modelled as a sequential loop.

## Model

| member | source | states |
|---|---|---|
| Util.NormalizeNone | module_3/scrape_update.py:101-105 | `_normalize_none` of the harvester: None stays None, an all-whitespace text becomes None, and any other text comes back stripped, with no whitespace at either end |
| Util.NormalizeNoneIdempotent | module_2/scrape.py:70-74 | normalising an already normalised value changes nothing |
| Util.StripEmptyIffAllSpace | module_5/src/clean_update.py:75-77 | `strip()` yields "" exactly when the text is all whitespace, so the cleaner returns None exactly then |
| Util.StripSplits | module_5/src/clean_update.py:75 | `strip()` removes only whitespace: the text is the stripped text with whitespace on either side |
| Util.CollapseSpacesRuns | module_5/src/clean_update.py:75 | after `re.sub(r"\s+", " ", s)` every whitespace character is a single ' ' followed by a non-whitespace character or the end |
| Util.CollapseSpacesKeepsInk | module_5/src/clean_update.py:75 | collapsing whitespace keeps every non-whitespace character, in order |
| Util.SqueezeTidy | module_5/src/clean_update.py:75 | `re.sub(r"\s+", " ", s).strip()` is single-spaced and keeps every non-whitespace character in order |
| Util.SqueezeIdempotent | module_2/clean.py:40 | squeezing whitespace twice is squeezing it once |
| Util.RemoveAbsentPhrase | module_3/scrape_update.py:204-207 | where `\bword\b` does not occur, `re.sub` of it changes nothing |
| Util.PhraseFromIff | module_3/scrape_update.py:204-207 | the recursive search for `\bword\b` (ASCII case-insensitive) succeeds exactly when a whole-word match exists at some index |
| Util.ContainsIff | module_3/scrape_update.py:186 | `p in s` holds exactly when `p` occurs at some index of `s` |
| Util.DecimalValue | module_2/scrape.py:118 | `str(n)` of a natural number reads back as `n` |
| Util.DecimalInjective | module_2/scrape.py:118 | distinct numbers have distinct numerals |
| UrlParse.SanitizeSpec | module_3/scrape_update.py:116 | the clean-up `urlsplit` does first leaves no tab, CR or LF, and no control character or space in front |
| UrlParse.SplitUrlWellFormed | module_3/scrape_update.py:116 | every component `urlsplit` returns is free of the characters that delimit it |
| UrlParse.ParsedWellFormed | module_3/scrape_update.py:116 | every component `urlparse` returns is free of the characters that delimit it |
| UrlParse.JoinSplitParams | module_3/scrape_update.py:116-125 | rejoining the params `urlparse` split off gives back the path, except when the cut was a trailing ';' with nothing after it |
| UrlParse.SplitParamsKeepsSlash | module_3/scrape_update.py:116 | a path starting with '/' is never cut at index 0 by the params split |
| UrlParse.ParsedScheme | module_3/scrape_update.py:116 | a non-empty scheme `urlparse` returns is one it would recognise again |
| UrlParse.ParseAbsolute | module_3/scrape_update.py:116-125 | `urlparse` reads back the scheme, host, path, query and fragment of `scheme://netloc/path?query#fragment` built from clean parts |
| ResultUrl.CanonicalResultUrl | module_3/scrape_update.py:108-127 | `_canonical_result_url` of the update revision: None exactly for a missing or empty url; a url `urlparse` rejects comes back unchanged (the shape of every other result is stated by `CanonicalShape` and `CanonicalReparse`) |
| ResultUrl.CanonicalShape | module_3/scrape_update.py:116-125 | the canonical url is `https://<host>` followed by the parsed path and params |
| ResultUrl.CanonicalReparse | module_3/scrape_update.py:116-125 | the canonical url parses back with scheme "https", the forced host and no query or fragment |
| ResultUrl.CanonicalIdempotent | module_3/scrape_update.py:108-127 | canonicalising a canonical url that does not end in ';' changes nothing; a url `urlparse` rejects is its own canonical form |
| ResultUrl.CanonicalSettles | module_3/scrape_update.py:108-127 | canonicalising twice reaches a fixed point: a third pass changes nothing |
| ResultUrl.CanonicalTrailingSemicolon | module_3/scrape_update.py:116-125 | for `file:///result/<digits>;` the first pass keeps the ';' and the second drops it, so one pass is not idempotent |
| ResultUrl.KeptResultUrl | module_2/scrape.py:77-86 | `_canonical_result_url` of the full revision: None exactly for a missing or empty url; a url `urlparse` rejects comes back unchanged (the shape of every other result is stated by `KeptShape` and `KeptReparse`) |
| ResultUrl.KeptShape | module_2/scrape.py:77-86 | the full revision's url is `scheme://host` followed by the parsed path and params, with the scheme and host as they were |
| ResultUrl.KeptReparse | module_2/scrape.py:77-86 | for a url with a scheme and a host, the full revision's url parses back with the same scheme and host and no query or fragment |
| ResultUrl.KeptIdempotent | module_2/scrape.py:77-86 | the full revision's form is idempotent on urls with a scheme and a host whose result does not end in ';' |
| ResultUrl.ValidCanonical | module_3/scrape_update.py:130-137 | `_valid_result_url` of a canonical url holds exactly when the host after the host rule ends with "thegradcafe.com" and the original path starts with "/result/" |
| ResultUrl.SplitParamsKeepsResultPrefix | module_3/scrape_update.py:135 | cutting `;params` off a path never cuts into a leading "/result/" |
| ResultUrl.CanonicalBareDomain | module_3/scrape_update.py:108-127 | `http://thegradcafe.com/result/<digits>?<query>` becomes `https://www.thegradcafe.com/result/<digits>`, for any digits and query |
| ResultUrl.ValidBareDomain | module_3/scrape_update.py:130-137 | the url that example becomes is a valid result url |
| ResultUrl.ExampleComInvalid | module_3/scrape_update.py:130-137 | `https://example.com/test` is not a valid result url |
| ScrapeHelpers.CleanBadLabelValues | module_3/scrape_update.py:140-151 | `_clean_bad_label_values`: None for None, blank text, a known label or a text of at most 25 characters ending in ':'; otherwise the stripped text |
| ScrapeHelpers.CleanBadLabelValuesIdempotent | module_2/scrape.py:99-110 | filtering twice is filtering once |
| ScrapeHelpers.ExtractInt | module_3/scrape_update.py:162-167 | `_extract_int`: None for a falsy text or one with no digit; otherwise the digits starting at the first digit and ending where the next character is not a digit (the first maximal run) |
| ScrapeHelpers.ExtractFloat | module_3/scrape_update.py:154-159 | `_extract_float`: the first `\d+(?:\.\d+)?` match: it starts at the first digit with the integer `_extract_int` finds, goes past it exactly when a '.' and a digit follow, and is not followed by a digit |
| ScrapeHelpers.ExtractFloatDecimal | module_3/scrape_update.py:154-159 | what `_extract_float` returns is digits, optionally followed by '.' and more digits |
| ScrapeHelpers.ExtractFloatExtendsInt | module_2/scrape.py:113-126 | `_extract_float` finds a number exactly when `_extract_int` does, and its text starts with the integer's |
| ScrapeHelpers.ExtractIntIdempotent | module_2/scrape.py:121-126 | extracting from an extracted integer gives it back |
| ScrapeHelpers.ExtractExamples | module_3/scrape_update.py:154-167 | "GPA <d>.<e>" gives "<d>.<e>" and "GRE <d>" gives "<d>", for any digit runs |
| ScrapeHelpers.ZeroToNone | module_3/scrape_update.py:170-176 | `_zero_to_none`: None for None and for "0", "0.0" and "0.00" after stripping; otherwise the stripped text |
| ScrapeHelpers.ZeroToNoneIdempotent | module_2/scrape.py:129-135 | dropping zero placeholders twice is doing it once |
| ScrapeHelpers.DegreeLevel | module_3/scrape_update.py:179-193 | `_degree_level`: None for a falsy degree; "PhD" when a doctoral mark occurs anywhere in the lower-cased text; else "Masters" for "master" or a whole-word master's abbreviation; else None |
| ScrapeHelpers.PhdWins | module_3/scrape_update.py:186-187 | doctoral marks are tested first: any degree mentioning "phd" is a PhD, whatever else it says |
| ScrapeHelpers.PhdDegree | module_2/scrape.py:138-152 | a degree that opens with "PhD", in any case, is a PhD |
| ScrapeHelpers.MsDegree | module_3/scrape_update.py:190-191 | a degree that opens with the word "MS" and contains no 'd' is a master's |
| ScrapeHelpers.UnmarkedDegree | module_3/scrape_update.py:179-193 | a degree with neither 'd' nor 'm' in either case has no level |
| ScrapeHelpers.NoDoctoralWithoutD | module_3/scrape_update.py:186 | every doctoral mark begins or ends with 'd', so a text without 'd' has none |
| ScrapeHelpers.NoMasterWithoutM | module_3/scrape_update.py:190 | every master's pattern begins with 'm', so a text without 'm' matches none |
| ScrapeHelpers.DegreePhdExample | module_3/scrape_update.py:179-193 | "PhD Physics" is a PhD |
| ScrapeHelpers.DegreeMsExample | module_3/scrape_update.py:179-193 | "MS Computer Science" is a master's |
| ScrapeHelpers.DegreeNoneExample | module_3/scrape_update.py:179-193 | "Certificate" has no level |
| ScrapeHelpers.CleanListpageComments | module_3/scrape_update.py:199-209 | `_clean_listpage_comments`: the four interface phrases removed as whole words in any case, whitespace squeezed, an empty result None |
| ScrapeHelpers.CommentsWithoutFiller | module_3/scrape_update.py:204-208 | a comment without interface text is only squeezed |
| ScrapeHelpers.CleanListpageCommentsIdempotent | module_2/scrape.py:158-168 | cleaning a cleaned comment changes nothing, provided the cleaned text contains none of the four phrases as a whole word (not guaranteed; see `CleanListpageCommentsTwice`) |
| ScrapeHelpers.CleanListpageCommentsTwice | module_3/scrape_update.py:199-209 | "see report more" cleans to "see more", and cleaning that again gives None |
| ScrapeHelpers.DecisionMatch | module_3/scrape_update.py:234 | the anchored decision regex: which keyword alternative matches at the start (ASCII case-insensitive) and the date group after `\s+on\s+` |
| ScrapeHelpers.ParseDecision | module_3/scrape_update.py:222-245 | `_parse_decision`: (None, None, None) for a falsy text; a keyword match gives the titled status and its date in the accepted or rejected slot; any other text is the stripped status |
| ScrapeHelpers.ParseDecisionStatus | module_3/scrape_update.py:222-245 | the status is a keyword or the whole text trimmed: never blank, no outer whitespace, missing exactly for a blank text |
| ScrapeHelpers.AcceptedOn | module_3/scrape_update.py:234-239 | any spelling of "accepted" followed by " on <d>" is an acceptance dated `d` |
| ScrapeHelpers.RejectedOn | module_3/scrape_update.py:234-241 | any spelling of "rejected" followed by " on <d>" is a rejection dated `d` |
| ScrapeHelpers.WaitlistedOn | module_3/scrape_update.py:234-241 | "Wait listed" and "Waitlisted", in any case, followed by " on <d>", give the status "Waitlisted" and no date |
| ScrapeHelpers.OtherDecision | module_3/scrape_update.py:242-243 | a text that does not open with a letter matches no keyword and becomes the stripped status |
| ScrapeHelpers.AcceptedExample | module_3/scrape_update.py:222-245 | "Accepted on 29 Jan" gives ("Accepted", "29 Jan", None) |
| ScrapeHelpers.RejectedExample | module_5/tests/test_scrape_parsing.py:14-17 | "Rejected on 02 Feb" gives ("Rejected", None, "02 Feb"), as the tests expect of `_parse_decision` |
| ScrapeHelpers.WaitlistedExample | module_3/scrape_update.py:222-245 | "Wait listed on 03 Feb" has the status "Waitlisted" |
| ScrapePages.CanonicalFor | module_2/scrape.py:77-86 | the revision's canonical form is None exactly for a missing or empty url |
| ScrapePages.FirstResultHrefIsFirst | module_3/scrape_update.py:214-216 | the link chosen is the first stripped href that contains "/result/" |
| ScrapePages.ExtractEntryUrl | module_3/scrape_update.py:212-219 | `_extract_entry_url`: the loop returns the canonical form of the first result link joined to the page url, or None |
| ScrapePages.EntryUrlSettled | module_3/scrape_update.py:212-219 | in the update revision an entry url is already settled: canonicalising it again yields a fixed point |
| ScrapePages.ParseSurveyPage | module_3/scrape_update.py:248-298 | `_parse_survey_page`: one record per row with at least five cells, in order; every record has its detail fields None, the page url and the timestamp; in the update revision every entry url is settled |
| ScrapePages.SurveyRecordsAppend | module_2/scrape.py:207-254 | parsing two runs of rows one after the other gives the records of each, in order |
| ScrapePages.SurveyRecordsOfRow | module_2/scrape.py:216-218 | a row with fewer than five cells yields nothing; any other row yields its record |
| ScrapePages.LabelValueFrom | module_3/scrape_update.py:328-332 | `get_after(key)` from a line on: the normalised line after the first line that strips to `key` and is not the last line |
| ScrapePages.GetAfter | module_3/scrape_update.py:328-332 | the loop of `get_after` returns exactly that value |
| ScrapePages.LabelValueFirst | module_2/scrape.py:280-284 | the value is read from the line after the first line carrying the key |
| ScrapePages.LabelValueAbsent | module_2/scrape.py:280-284 | a key that appears on no line but the last has no value |
| ScrapePages.InternationalOf | module_3/scrape_update.py:356-359 | `is_international` from the origin: None without an origin, False exactly for "american" in any case, True otherwise |
| ScrapePages.NotesOf | module_3/scrape_update.py:337-339 | the notes are kept unless they are a stray label |
| ScrapePages.ParseResultPage | module_3/scrape_update.py:304-372 | `_parse_result_page`: a failed fetch gives the all-None detail; otherwise the detail read off the page's lines |
| ScrapePages.DetailOfShape | module_3/scrape_update.py:334-372 | the level is the degree's, `is_international` is None exactly when there is no origin and False exactly for "American", the notes are no label, and the scores are numbers |
| ScrapePages.EmptyPageNoDetail | module_2/scrape.py:260-323 | a page with no lines yields what a failed fetch yields |
| DetailFetch.Merge | module_3/scrape_update.py:421-438 | the merge of one detail: notes replace the comments only when truthy; the eight detail fields are overwritten; `is_international` always copied (update) or copied only with an origin (full); the scores filtered by `_clean_bad_label_values` |
| DetailFetch.MergeShape | module_2/scrape.py:372-392 | what a merge keeps (listing fields, entry url) and what it takes from the detail |
| DetailFetch.PrepareTasks | module_3/scrape_update.py:396-401 | the first loop: each index's entry url canonicalised; a valid one is written back and becomes a task, in order |
| DetailFetch.RunTask | module_3/scrape_update.py:412-438 | one worker: a crash counts as failed, otherwise the fetched page is parsed and merged into its record |
| DetailFetch.RunTasks | module_3/scrape_update.py:409-438 | the second loop over the tasks, one after the other, equals the specification fold |
| DetailFetch.FetchDetailsForIndices | module_3/scrape_update.py:391-440 | `_fetch_details_for_indices`: the records after both loops and the counts; updated + failed is the number of tasks; (0, 0) and nothing changed when there is no task |
| DetailFetch.PreparedNoTasks | module_3/scrape_update.py:403-404 | without tasks the first loop changed nothing |
| DetailFetch.PrepareStepKeeps | module_3/scrape_update.py:397-401 | one step touches only the entry url of its own record and adds at most its task, whose url is valid |
| DetailFetch.PreparedFixed | module_3/scrape_update.py:396-401 | over records whose urls are valid fixed points the first loop changes nothing and every index becomes a task |
| DetailFetch.AppliedKeeps | module_3/scrape_update.py:412-438 | only records named by a task change in the second loop, and the merge never touches an entry url |
| DetailFetch.FetchDetailsFrame | module_2/scrape.py:342-394 | no record outside the indices is modified, and entry urls change only where the first loop wrote back a canonical form |
| DetailFetch.FetchDetailsListing | module_3/scrape_update.py:391-440 | the detail fetch never changes a listing field (program, university, date posted, status, decision dates, source url, scrape time) of any record |
| DetailFetch.AppliedListing | module_3/scrape_update.py:412-438 | the second loop leaves every record's listing fields as they were |
| DetailFetch.FetchDetailsKeepsFixedUrls | module_3/scrape_update.py:391-440 | over records whose urls are valid fixed points the entry urls come out unchanged |
| HarvestUpdate.PageUrl | module_3/scrape_update.py:469 | the url of listing page `page` is the survey url followed by "?page=" |
| HarvestUpdate.PageUrlInjective | module_3/scrape_update.py:468-469 | distinct pages are fetched from distinct urls |
| HarvestUpdate.DedupSpec | module_3/scrape_update.py:480-493 | `seen` only grows; every record appended carries a valid fixed-point url that was not seen, and each such url is added to `seen` with its record and no other |
| HarvestUpdate.DedupBounded | module_3/scrape_update.py:480-493 | the de-duplication adds nothing foreign: `seen` grows only by canonical urls of the page, and every record appended is a record of the page with its url canonicalised |
| HarvestUpdate.DedupSeesAll | module_3/scrape_update.py:481-490 | every valid canonical url of the page is in `seen` afterwards |
| HarvestUpdate.DedupCovers | module_3/scrape_update.py:480-493 | it drops nothing it should keep: a record whose canonical url is valid, not seen before and not earlier on the page is appended |
| HarvestUpdate.DedupSeen | module_3/scrape_update.py:487-491 | `seen` afterwards is `seen` before plus the urls of the records appended |
| HarvestUpdate.DedupKeeps | module_3/scrape_update.py:480-493 | the de-duplication keeps the harvest invariant: stored urls never come back, no url twice, every url valid and settled |
| HarvestUpdate.AddPage | module_3/scrape_update.py:479-493 | the inner loop equals the de-duplication fold, and the appended indices are queued in order |
| HarvestUpdate.DispatchChunk | module_3/scrape_update.py:526-531 | the detail fetch of a chunk keeps the harvest invariant, since queued urls are valid fixed points, and changes no listing field and no entry url; at most one failure per index handed over |
| HarvestUpdate.Flush | module_3/scrape_update.py:551-555 | after the final fetch every index so far has been handed over exactly once, in order, and the listing fields and urls are still those of the fold; without a pending chunk nothing changes; at most one failure per index handed over |
| HarvestUpdate.HarvestPage | module_3/scrape_update.py:477-498 | one fetched page: the records and `seen` afterwards are those of the de-duplication fold over the parsed page, `added` is the number appended, the harvest invariant is kept and the new indices are queued after the pending ones |
| HarvestUpdate.CountPage | module_3/scrape_update.py:502-507 | the no-new counter grows on a page that added nothing and is reset otherwise; below the threshold the run had no reason to stop |
| HarvestUpdate.ScrapeUpdate | module_3/scrape_update.py:446-571 | `scrape_data` (update): `pages` are the records parsed from the pages read; the records are, field by listing field and by entry url, the de-duplication fold over those pages starting from the stored urls, and `history[k]` is what page k added; they are new to the database and unique by valid settled url; every record is handed to the detail fetch exactly once, in order; the run stops early exactly after two consecutive fetched pages with nothing new, otherwise after the last page; on an early stop every page up to the last one read whose fetch succeeded was read; `totalFailed` is at most the number of records |
| HarvestUpdate.DedupPagesNext | module_3/scrape_update.py:468-505 | one more page read extends the fold over the pages by exactly that page's appended records, `seen` and count |
| HarvestUpdate.DedupPagesSound | module_3/scrape_update.py:479-493 | the fold over pages of settled urls keeps the harvest invariant: nothing stored comes back, no url twice |
| HarvestUpdate.DedupPagesSeen | module_3/scrape_update.py:487-491 | every url in the final `seen` is a stored url or the url of a record appended |
| HarvestUpdate.DedupPagesSeesAll | module_3/scrape_update.py:458-490 | the stored urls stay in `seen`, and every valid canonical url on a page read ends up in it |
| HarvestUpdate.ScrapeUpdateCovers | module_3/scrape_update.py:446-505 | completeness of the harvest: every valid canonical url on a page read is already stored or is the entry url of a harvested record |
| HarvestUpdate.ChunkMerged | module_3/scrape_update.py:526-531 | a chunk's detail fetch keeps the harvest invariant and every listing field and entry url of every record |
| HarvestFull.SeedSeen | module_2/scrape.py:404-414 | the resume loop: `seen` starts as the non-empty entry urls of the loaded records |
| HarvestFull.SeenOfRecords | module_2/scrape.py:407-410 | the seeded set holds exactly the non-empty urls of the records |
| HarvestFull.KeepSpec | module_2/scrape.py:431-439 | the de-duplication is sound: no url appended twice or after being seen, and `seen` grows by exactly the urls appended |
| HarvestFull.KeepCovers | module_2/scrape.py:431-439 | it drops nothing it should keep: every record without a url is appended, every url of the page ends up seen, only records of the page are appended |
| HarvestFull.KeepWithoutUrls | module_2/scrape.py:431-439 | a page whose records carry no url is appended whole |
| HarvestFull.AddPage | module_2/scrape.py:430-439 | the inner loop equals the de-duplication fold, and the appended indices are queued in order |
| HarvestFull.HarvestPage | module_2/scrape.py:428-441 | one fetched page: the records appended and `seen` afterwards are those of the de-duplication fold over the parsed page, the loop invariant is kept and the new indices are queued after the pending ones |
| HarvestFull.KeepPagesNext | module_2/scrape.py:430-439 | one more page read extends the fold over the pages by exactly that page's appended records and `seen` |
| HarvestFull.KeepPagesSeen | module_2/scrape.py:433-436 | `seen` after the fold is the starting `seen` plus the non-empty urls of the records appended |
| HarvestFull.KeepPagesCovers | module_2/scrape.py:431-439 | over all pages read: every record without a url is appended, and every url on a page ends up in `seen` |
| HarvestFull.ReadPage | module_2/scrape.py:420-441 | one page of the loop: a failed fetch changes nothing; otherwise the page is parsed, harvested and recorded as read, keeping the fold invariant |
| HarvestFull.PageStep | module_2/scrape.py:419-451 | one iteration: the page is read and at a multiple of 25 pages the pending chunk is handed over; the fold invariant and the dispatch schedule are kept; at most one failure per index handed over |
| HarvestFull.ReadAllPages | module_2/scrape.py:416-457 | the page loop: afterwards every page whose fetch succeeded has been read, in order, and the records are those of the fold over them; `totalFailed` is at most the number of new records handed over |
| HarvestFull.FinalDispatch | module_2/scrape.py:459-463 | the final fetch of the pending chunk: every new index handed over exactly once, listing fields kept; nothing changes without a pending chunk; at most one failure per index handed over |
| HarvestFull.Dispatch | module_2/scrape.py:443-448 | after a detail fetch every new index so far has been handed over exactly once, in order, and no record before the chunk has changed; at most one failure per index handed over |
| HarvestFull.DispatchTracked | module_2/scrape.py:443-448 | a detail fetch of the pending chunk keeps every record before it |
| HarvestFull.ScrapeFull | module_2/scrape.py:400-478 | `scrape_data` (full): every page whose fetch succeeded is read, and `pages` are the records parsed from them; the records are, field by listing field, the resumed ones followed by the de-duplication fold over those pages, and `urls` are the urls it de-duplicated by; the resumed records come first, unchanged; every later url is new and distinct; every new record is handed to the detail fetch exactly once, in order, in non-empty batches at increasing multiples of 25 pages and at most one final batch; `totalFailed` is at most the number of new records |
| HarvestFull.ScrapeFullSeesAll | module_2/scrape.py:404-439 | every url on a page read is among the urls the records were de-duplicated by |
| HarvestFull.ScrapeFullKeepsUnlinked | module_2/scrape.py:431-439 | every row without a url on a page read is kept: some harvested record after the resumed ones carries its listing fields |
| ExistingUrls.FetchLimit | module_5/src/scrape_update.py:63 | the LIMIT `max(1, min(n, 100))` lies in 1..100, equals `n` within that range, 1 below it and 100 above it |
| ExistingUrls.Selected | module_5/src/scrape_update.py:64-67 | the selected urls are a prefix of the non-NULL urls and no more than the LIMIT |
| ExistingUrls.CanonicalSet | module_5/src/scrape_update.py:68-71 | the collected set has at most one url per fetched url |
| ExistingUrls.CanonicalSetIff | module_3/scrape_update.py:44-47 | a url is collected exactly when it is the non-empty canonical form of some fetched url |
| ExistingUrls.LoadExistingUrls | module_5/src/scrape_update.py:53-73 | `load_existing_urls_from_db`: the loop collects the canonical forms of the selected urls |
| ExistingUrls.AtMostLimit | module_5/src/scrape_update.py:50-73 | module_5 collects at most 100 urls |
| ExistingUrls.CollectedAreCanonical | module_3/scrape_update.py:25-48 | a collected url not ending in ';' is its own canonical form, so a scraped url with the same canonical form is recognised as seen |
| PyJson.RenderInt | module_3/load_update.py:70 | the f-string rendering of an integer reads back as that integer |
| CleanText.StripTagsFree | module_5/src/clean_update.py:72 | no match of `<[^>]+>` survives `re.sub` |
| CleanText.StripTagsOfTagFree | module_5/src/clean_update.py:72 | removing tags from a tag-free text changes nothing |
| CleanText.CollapseTagFree | module_5/src/clean_update.py:75 | collapsing whitespace keeps a text tag-free |
| CleanText.TidyShape | module_5/src/clean_update.py:62-77 | the tidied text holds no tag, no doubled or outer whitespace, and every non-whitespace character outside the tags |
| CleanText.TidyIdempotent | module_2/clean.py:35-41 | tidying tidied text changes nothing |
| CleanText.TidyOfPlain | module_2/clean.py:35-41 | a text without whitespace and without '<' is already tidy |
| CleanText.CleanTextValue | module_5/src/clean_update.py:62-77 | `_clean_text`: None stays None; a string is tidied and an empty result becomes None; any other value makes `re.sub` raise TypeError |
| CleanText.CleanTextIdempotent | module_2/clean.py:35-41 | cleaning a cleaned value changes nothing |
| CleanText.NormalizeValue | module_5/src/clean_update.py:80-94 | `_normalize_none`: strings are cleaned, every other value passes through unchanged |
| CleanText.NormalizeValueIdempotent | module_2/clean.py:44-50 | normalising a normalised value changes nothing |
| CleanText.NationalityLabel | module_5/src/clean_update.py:100-126 | True and "true" give "International", False and "false" give "American", the two labels are kept up to case and outer whitespace; anything else, integers included, gives None |
| CleanText.NationalityLabelIdempotent | module_2/clean.py:53-78 | a label is its own label |
| TermInfer.SeasonTerm | module_5/src/clean_update.py:33-39 | `_TERM_ALIASES.get`: each season word maps to its season, "autumn" to "Fall" |
| TermInfer.MonthTermCovers | module_5/src/clean_update.py:43-56 | the month table covers every month spelling the pattern accepts except "sepember" |
| TermInfer.TermsAreSeasons | module_2/clean.py:10-32 | every term either table yields is one of the four seasons |
| TermInfer.WordYearAtNone | module_5/src/clean_update.py:154 | no match of `\b(word)\b\W*(20\d{2})\b` at an index exactly when no alternative fits there |
| TermInfer.WordYearAtFirst | module_5/src/clean_update.py:154 | a match at an index comes from the earliest alternative that fits there |
| TermInfer.SearchFromLeftmost | module_5/src/clean_update.py:154-165 | a `re.search` result is the match at the leftmost index where one starts |
| TermInfer.SearchFromNone | module_5/src/clean_update.py:154-165 | the search finds nothing exactly when no match starts anywhere |
| TermInfer.TruthyTexts | module_5/src/clean_update.py:139 | the texts `" ".join` receives: the truthy ones; a truthy value that is not a string raises TypeError |
| TermInfer.HaystackTidy | module_5/src/clean_update.py:139-143 | the haystack holds no tag and no doubled whitespace |
| TermInfer.InferUpdateSound | module_5/src/clean_update.py:132-171 | nothing without a context word; a year only as "20" and two digits; a term only with a year, and then a season; a season with a year outranks any month |
| TermInfer.SearchHitSound | module_5/src/clean_update.py:154-169 | a search result is a match of one of the words, followed by a year |
| TermInfer.NearSearchWitness | module_2/clean.py:106-110 | a month the near-search reports has a context word ending at most 50 characters before it or starting at most 50 after its year |
| TermInfer.InferFullSound | module_2/clean.py:81-123 | a year only as "20dd"; a term only with a year, and then a season; the leftmost season and year wins whatever the context |
| TermInfer.SeasonWithoutContext | module_2/clean.py:92-102 | the revisions part ways on a season and year without any context word: the clean-update revision infers nothing, the clean-full one takes it |
| TermFill.CleanTextTidy | module_5/src/clean_update.py:62-77 | what `_clean_text` yields is a tidy text |
| TermFill.FillTwice | module_5/src/clean_update.py:231-238 | filling with the same inference twice is filling once |
| TermFill.InferUpdateIsSound | module_5/src/clean_update.py:132-171 | the clean-update inference only yields a season and a "20dd" year |
| TermFill.InferFullIsSound | module_2/clean.py:81-123 | the clean-full inference only yields a season and a "20dd" year |
| TermFill.HaystackFails | module_5/src/clean_update.py:139 | on tidy texts the haystack fails exactly when the status is truthy and not a string |
| TermFill.NormalizeInferred | module_5/src/clean_update.py:80-94 | inferred terms and years are left alone by `_normalize_none` |
| TermFill.NormalizeFilled | module_5/src/clean_update.py:231-238 | a filled value is kept by `_normalize_none` when the value before filling was |
| CleanUpdate.AsRecordKeys | module_5/src/clean_update.py:186-195 | every output row carries exactly the 19 keys of the schema |
| CleanUpdate.CleanTextsFail | module_5/src/clean_update.py:200-202 | cleaning the three texts fails exactly when one is a boolean or an integer |
| CleanUpdate.CleanRecordFails | module_5/src/clean_update.py:197-266 | a record fails exactly when a cleaned text is a boolean or an integer, or when the inference must run and the status is truthy and not a string |
| CleanUpdate.CleanRecordShape | module_5/src/clean_update.py:197-266 | a cleaned row holds tidy texts and a nationality label |
| CleanUpdate.CleanRecordTermYear | module_5/src/clean_update.py:211-238 | a term or year the record gives (after cleaning) is kept; only a missing one is filled, with a season or a "20dd" year |
| CleanUpdate.AsRecordReadsBack | module_5/src/clean_update.py:240-264 | the written row reads back as itself, except for the nationality key |
| CleanUpdate.CleanAgain | module_5/src/clean_update.py:197-266 | re-cleaning a record that reads back as a cleaned row gives that row again |
| CleanUpdate.CleanRowAgain | module_5/src/clean_update.py:228-251 | cleaning a written row again gives the same row, except that the nationality is lost: it is written under "US/International" but read from "is_international" |
| CleanUpdate.CleanData | module_5/src/clean_update.py:177-268 | `clean_data`: one row per record, in order; the first record that raises TypeError ends the run |
| CleanFull.NormalizeAllGet | module_2/clean.py:165-169 | after the `normalize_keys` loop every listed key is present and normalised; every other key is untouched |
| CleanFull.SetDefaultsGet | module_2/clean.py:196-197 | `setdefault` adds the missing required keys as None and changes no value |
| CleanFull.NormalizeKeysLoop | module_2/clean.py:165-169 | the in-place loop equals the specification fold |
| CleanFull.DefaultsLoop | module_2/clean.py:196-197 | the in-place loop equals the specification fold |
| CleanFull.WriteTexts | module_2/clean.py:160-162 | the three texts are cleaned and written back into the copy, or TypeError |
| CleanFull.Prepare | module_2/clean.py:165-172 | the normalising loop and the nationality label on the copy |
| CleanFull.FillTermYear | module_2/clean.py:175-185 | the inference runs only when the term or the year is None and fills only what is None |
| CleanFull.Finish | module_2/clean.py:188-197 | the combined `program` and the required-keys loop |
| CleanFull.CleanOne | module_2/clean.py:157-199 | one pass of the loop body equals the step-by-step specification of the copy |
| CleanFull.CleanRecords | module_2/clean.py:156-201 | the record loop: records cleaned in order into a new list; the first TypeError ends the run; the inputs are never changed |
| CleanFull.CleanFullData | module_2/clean.py:126-201 | `clean_data` of the full revision |
| CleanFull.CleanReads | module_2/clean.py:156-199 | the loop body raises TypeError when a text is not a string or the inference raises, otherwise every key holds what the closed per-key reference says; the keys are the input's, the required ones and `program` |
| CleanFull.CleanFullReads | module_2/clean.py:126-201 | the same for the key lists of this revision |
| CleanFull.CombinedTexts | module_2/clean.py:188-193 | the combined program of two tidy texts: both joined by ", ", the one present, or None |
| CleanFull.CleanFullFails | module_2/clean.py:156-199 | the loop body raises TypeError exactly when a text is a boolean or an integer, or when the term or year is missing and the status is a truthy boolean or integer |
| CleanFull.FullTextsFail | module_2/clean.py:160-162 | `_clean_text` refuses a boolean or an integer; otherwise the texts come out tidy |
| CleanFull.InferFullFails | module_2/clean.py:175-181 | the inference fails on tidy texts exactly when it runs and the status is truthy and not a string |
| CleanFull.CleanTermYear | module_2/clean.py:165-185 | a present normalised term or year is kept; a missing one becomes None or a season and a "20dd" year |
| CleanFull.CleanFullTermYear | module_2/clean.py:126-201 | the same for the clean-full inference |
| CleanFull.CleanIdempotent | module_2/clean.py:156-199 | cleaning a cleaned record succeeds and gives back every key with the same value, and no key more |
| CleanFull.CleanFullIdempotent | module_2/clean.py:126-201 | `clean_data` of this revision is idempotent |
| CleanFull.CleanFullRecordIdempotent | module_2/clean.py:126-201 | the same with the clean-full inference |
| Dates.Strptime | module_5/src/load_update.py:19-29 | a parsed date is a valid calendar date of a string of 8 to 10 characters whose first four are the year's digits |
| Dates.ParseDate | module_5/src/load_update.py:19-29 | `parse_date`: Ok(None) for a falsy value; TypeError exactly for a truthy non-string; a date only from a string, and only a valid one |
| Dates.IsoRoundTrip | module_5/src/load_data.py:41-48 | every valid date round-trips through its "YYYY-MM-DD" form |
| Dates.ParseDateExample | module_4/src/load_data.py:42-55 | "2026-02-10" parses to 10 February 2026 |
| Dates.ParseDateBadMonth | module_4/src/load_data.py:42-55 | "2026-13-40" gives None |
| Dates.ParseDateNotDigits | module_4/src/load_data.py:42-55 | "bad-date" gives None |
| Dates.ParseDateImpossibleDay | module_3/load_data.py:14-20 | "2026-02-30" matches the regex and is rejected by `date`, giving None |
| Loader.SafeFloat | module_5/src/load_update.py:32-42 | `safe_float`: None and "" give None without calling `float`; other values give what `float` gives, None for an error the except clause catches (module_5's `load_update.py` catches OSError and ValueError, its `load_data.py` ValueError and TypeError, module_4's and module_3's loaders every Exception) |
| Loader.TermStripped | module_3/load_update.py:70 | module_3's term is always a trimmed string |
| Loader.TermTruthy | module_5/src/load_update.py:72-81 | "T Y" when both parts are truthy, the truthy part alone, None when neither is |
| Loader.TermNoneRule | module_5/src/load_data.py:136-138 | None exactly when both parts are None or missing; otherwise module_3's stripped string |
| Loader.RowOf | module_5/src/load_update.py:84-124 | the row of a record fails exactly when `date_posted` makes `parse_date` raise; otherwise its url is `entry_url` |
| Loader.RowColumns | module_5/src/load_data.py:132-146 | the url as given; a date only from a valid "YYYY-MM-DD" string; degree from `degree_level`, else `degree`; LLM columns copied by `load_data.py` and None in the update loaders; a "" GPA, GRE total, GRE V or GRE AW stored as None |
| Loader.StripJoined | module_3/load_data.py:91 | `strip()` of two trimmed texts joined by a space keeps the non-empty ones |
| Loader.TermRulesAgree | module_4/src/load_update.py:78-87 | on missing or non-blank trimmed parts the three rules agree ("T Y", the part present, or nothing); module_3 stores "" where the others store None |
| Loader.TermRulesNoneYear | module_3/load_data.py:90-91 | a year present as None next to a term is dropped by the truthiness rule but rendered as "None" by the other two |
| Loader.TermRulesBlankParts | module_5/src/load_update.py:72-81 | blank parts: the truthiness rule stores None, the other two store "" |
| Loader.Insert | module_5/src/load_update.py:84-128 | `INSERT ... ON CONFLICT (url) DO NOTHING`: rowcount 1 exactly when the url is NULL or not yet in the table, else 0 |
| Loader.InsertKeeps | module_5/src/load_update.py:84-128 | an insert keeps every row, adds as many as it reports, files the row under its url and keeps the table well keyed |
| Loader.InsertAll | module_5/src/load_update.py:69-128 | a run of inserts counts at most one row per record |
| Loader.InsertAllKeeps | module_5/src/load_update.py:69-128 | a run of inserts keeps every row, adds as many as it counts, keeps the table well keyed and leaves every url it was given in the table |
| Loader.BuilderFacts | module_5/src/load_data.py:112-146 | every loader files a record under its `entry_url` and builds rows for all records exactly when no `date_posted` raises |
| Loader.RowsOf | module_5/src/load_data.py:112-146 | one row per record, in order |
| Loader.LoadStep | module_5/src/load_data.py:112-151 | one more record's row is inserted after those of the records before it |
| Loader.RunCommits | module_5/src/load_update.py:45-132 | a committed run keeps the old rows, adds exactly `count` rows, at most one per record, and leaves every record's url in the table |
| Loader.MainCommits | module_3/load_update.py:32-88 | `main`: FileNotFoundError exactly when the file is missing and TypeError exactly when a `date_posted` raises, both leaving the table as it was; otherwise the committed run's guarantees |
| Loader.InsertAllSeen | module_5/src/load_data.py:112-151 | inserting rows whose urls are all in the table adds only the url-less ones |
| Loader.NoUnkeyed | module_5/src/load_data.py:133-134 | records that all have a url build no url-less row |
| Loader.RunTwice | module_5/src/load_data.py:112-151 | a second run on the same records adds only the url-less ones |
| Loader.LoadTwice | module_4/src/load_data.py:125-182 | loading the same file again keeps the keyed rows and adds only records without a url; if all have a url it inserts nothing and leaves the table unchanged |
| Loader.ThreeAttemptsOneConflict | module_5/src/load_update.py:84-128 | three inserts into an empty table whose third repeats the first url add two rows |
| Loader.OverlappingPulls | module_5/src/load_update.py:69-128 | two pulls of two records that share one url leave three rows |
| Loader.Table.constructor | module_5/src/load_data.py:87-108 | a new table is empty |
| Loader.Table.InsertOrIgnore | module_5/src/load_update.py:84-128 | one insert on the table and its rowcount, as `Insert` says |
| Loader.Table.Load | module_5/src/load_data.py:80-155 | `main` on the table: the new state and the outcome are what `Main` says |
| Loader.Table.Run | module_5/src/load_update.py:63-130 | the loop inserting the records one by one and counting rowcount 1; a TypeError rolls the table back to where the transaction began |
| Loader.FirstExisting | module_5/src/load_data.py:34 | `next(p for p in candidates if p.exists())`: None exactly when no candidate exists, otherwise the earliest existing one |
| Loader.InputPath | module_5/src/load_data.py:29-38 | the top-level file is preferred over the one under `src/`; with neither the import raises FileNotFoundError |

## Left out

- Network I/O (`_fetch_html`, `_safe_fetch_html`, retries, back-off, sleeps) is not modelled. A listing page is a parameter giving its rows or None, and a detail page is a parameter giving its lines or a crash.
- BeautifulSoup is not modelled. A listing row is given as its cells' texts and its hrefs, and a detail page as its text lines. `urljoin` is a parameter.
- `datetime.now` is a parameter (`clock`) giving the timestamp of each page.
- The ThreadPoolExecutor of `_fetch_details_for_indices` is a sequential loop over the tasks. Completion order, the per-future timeout and exceptions other than a worker crash are not modelled.
- `save_data`/`load_data` JSON files, checkpoint writes, `print`, and the KeyboardInterrupt handler of the update harvester are left out. The checkpoint content is a parameter of `HarvestFull.ScrapeFull`.
- The DB-side steps are left out: psycopg connections, `_db_params`, `connect_db`, the `CREATE TABLE` statement and the environment lookups. The table is modelled as a map from url to row plus the url-less rows.
- Postgres casts a non-string url to text; the model keys the table by the JSON value instead.
- `float()` is a parameter (`FloatOf`). Floating-point numbers are `real`.
- `load_existing_urls_from_db` reads the url column in the order the database returns it. The model takes that order as given, and `LIMIT` takes a prefix of it.
- Regular expressions and case folding are ASCII only: `\d` is 0-9, `\w` is ASCII letters, digits and '_', and `re.I` folds ASCII letters. Non-ASCII digits and letters are not modelled.
- `urlparse` does not model bracketed IPv6 hosts beyond the bracket-balance check, or the NFKC netloc check.
- `query_data.py`, the Flask apps, `db.py` and module_1 are outside the modelled core.
- ExistingUrls.LoadExistingUrls: a failed connection or query, which raises out of the function, is not modelled.
- The harvesters' final `setdefault` loop over the required keys has no counterpart. A raw record is a datatype that always carries all 19 fields.
- The helpers of module_5/src/scrape_update.py after line 154 are not part of this model's source text. The model uses module_3's helpers, whose text is the same up to that line.
- HarvestFull.ScrapeFull: each record is related to the de-duplication fold by its listing fields only. Its entry url may have been canonicalised by the detail fetch (`urls` keeps the url it was de-duplicated by). Its comments and detail fields are what the merge produced and are not related to the page's.
- HarvestUpdate.ScrapeUpdate: each record is related to the de-duplication fold by its listing fields and entry url. Its comments and detail fields are what the merge produced and are not related to the page's.
- Loader.SafeFloat: an error that `float` raises and module_5's `safe_float` does not catch (OverflowError for a JSON integer beyond the double range, and TypeError in module_5's `load_update.py`) is not modelled; in the source it escapes `safe_float` and aborts `main`, whose `with` connection rolls back.
- Loader.RowOf: for the module_5 loaders, "fails exactly when `date_posted` raises" leaves out the same uncaught `float` errors, which also abort `main` with a rollback; the commit claims of `Loader.Table.Load` and `Loader.Table.Run` assume no such error.
- ResultUrl.CanonicalIdempotent: stated only for urls that do not end in ';' (see `CanonicalTrailingSemicolon`).
- ResultUrl.KeptIdempotent: stated only for urls with a scheme and a host.

## Observations on the source

- `_clean_listpage_comments` is not idempotent. Removing a phrase can leave a doubled space that
  hides the next phrase from its single-space pattern, and the final squeeze then closes the gap:
  "see report more" cleans to "see more", which a second cleaning removes, giving None
  (`ScrapeHelpers.CleanListpageCommentsTwice`).
- The update revision's `_canonical_result_url` is not idempotent. Take a url whose scheme does
  not split params (such as `file:///result/1;`): the first pass keeps the trailing ';' and the
  second drops it (`ResultUrl.CanonicalTrailingSemicolon`). Two passes always reach a fixed point
  (`ResultUrl.CanonicalSettles`). So the harvest loop's second canonicalisation of a url already
  canonicalised by `_extract_entry_url` can still change it.
- The month pattern of `_extract_start_term_year` accepts "sepember", which `_MONTH_TO_TERM`
  lacks. Such a text yields a year and no term (`TermInfer.MonthTermCovers`).
- The clean-update revision writes the nationality under "US/International" but reads it from
  "is_international", so cleaning its own output loses the label (`CleanUpdate.CleanRowAgain`).
- The loaders' term rules differ:
  - A `start_year` that is present as None next to a term is stored as "Fall None" by
    `load_data.py` and by module_3's `load_update.py`, and as "Fall" by the module_4/5 update
    loaders (`Loader.TermRulesNoneYear`).
  - Blank parts are stored as "" by `load_data.py` and module_3's loader, and as NULL by the
    module_4/5 update loaders (`Loader.TermRulesBlankParts`).
- A NULL url never conflicts under a UNIQUE constraint. Re-loading a file therefore duplicates
  every record without a url (`Loader.LoadTwice`).
