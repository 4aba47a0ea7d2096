/** The two page parsers of the harvester. A listing page is a sequence of table rows,
    each the texts of its cells and the `href`s of its links; a result page is the
    sequence of its text lines. `urljoin` is a parameter. */
module ScrapePages {
  import opened Util
  import opened ResultUrl
  import opened ScrapeHelpers

  /** The harvester revision: the original full harvester keeps the scheme and host of a
      result link, the update harvester forces `https` and the `www.` host. */
  datatype Revision = Full | Update

  /** `_canonical_result_url` of the given revision. */
  function CanonicalFor(rev: Revision, url: Option<string>): (r: Option<string>)
    ensures r == None <==> url == None || url.value == ""
  {
    match rev
    case Full => KeptResultUrl(url)
    case Update => CanonicalResultUrl(url)
  }

  /** A URL whose update-revision canonical form is a fixed point of canonicalisation. */
  predicate Settled(u: Option<string>) {
    CanonicalResultUrl(CanonicalResultUrl(u)) == CanonicalResultUrl(u)
  }

  /** An applicant record as the harvester stores it: the 19 keys of its output. */
  datatype RawRecord = RawRecord(
    program: Option<string>,
    university: Option<string>,
    comments: Option<string>,
    datePosted: Option<string>,
    entryUrl: Option<string>,
    status: Option<string>,
    acceptedDate: Option<string>,
    rejectedDate: Option<string>,
    startTerm: Option<string>,
    startYear: Option<string>,
    isInternational: Option<bool>,
    greTotal: Option<string>,
    greV: Option<string>,
    greAw: Option<string>,
    degreeLevel: Option<string>,
    degree: Option<string>,
    gpa: Option<string>,
    sourceUrl: Option<string>,
    scrapedAt: Option<string>)

  /** The fields only a result page fills in are all still None. */
  predicate DetailsPending(r: RawRecord) {
    && r.startTerm == None && r.startYear == None && r.isInternational == None
    && r.greTotal == None && r.greV == None && r.greAw == None
    && r.degree == None && r.degreeLevel == None && r.gpa == None
  }

  // ----- listing page -----

  /** A table row: the text of each cell and the `href` of each link. */
  datatype Row = Row(cells: seq<string>, hrefs: seq<string>)

  /** `href.startswith("/result/") or "/result/" in href`, on the stripped href. */
  predicate ResultHref(h: string) {
    StartsWith(Strip(h), "/result/") || Contains(Strip(h), "/result/")
  }

  /** The first result link of a row, stripped. */
  function FirstResultHref(hrefs: seq<string>): (r: Option<string>)
    ensures r == None <==> forall i :: 0 <= i < |hrefs| ==> !ResultHref(hrefs[i])
    ensures r.Some? ==> Contains(r.value, "/result/")
  {
    if hrefs == [] then None
    else if ResultHref(hrefs[0]) then Some(Strip(hrefs[0]))
    else
      var r := FirstResultHref(hrefs[1..]);
      assert forall i :: 1 <= i < |hrefs| ==> hrefs[i] == hrefs[1..][i - 1];
      r
  }

  /** The link chosen is the first one that qualifies. */
  lemma {:induction false} FirstResultHrefIsFirst(hrefs: seq<string>, i: nat)
    requires i < |hrefs| && ResultHref(hrefs[i])
    requires forall j :: 0 <= j < i ==> !ResultHref(hrefs[j])
    ensures FirstResultHref(hrefs) == Some(Strip(hrefs[i]))
  {
    if i > 0 {
      assert hrefs[1..][i - 1] == hrefs[i];
      FirstResultHrefIsFirst(hrefs[1..], i - 1);
    }
  }

  /** `_extract_entry_url`: the first result link, joined to the page URL and
      canonicalised. */
  function EntryUrlOf(row: Row, sourceUrl: string, join: (string, string) -> string, rev: Revision): Option<string> {
    match FirstResultHref(row.hrefs)
    case None => None
    case Some(h) => CanonicalFor(rev, Some(join(sourceUrl, h)))
  }

  method ExtractEntryUrl(row: Row, sourceUrl: string, join: (string, string) -> string, rev: Revision)
    returns (u: Option<string>)
    ensures u == EntryUrlOf(row, sourceUrl, join, rev)
  {
    for k := 0 to |row.hrefs|
      invariant forall j :: 0 <= j < k ==> !ResultHref(row.hrefs[j])
    {
      var href := Strip(row.hrefs[k]);
      if StartsWith(href, "/result/") || Contains(href, "/result/") {
        FirstResultHrefIsFirst(row.hrefs, k);
        return CanonicalFor(rev, Some(join(sourceUrl, href)));
      }
    }
    return None;
  }

  /** In the update revision an entry URL is already settled: the canonical pass of the
      harvest loop yields a fixed point. */
  lemma EntryUrlSettled(row: Row, sourceUrl: string, join: (string, string) -> string)
    ensures Settled(EntryUrlOf(row, sourceUrl, join, Update))
  {
    var h := FirstResultHref(row.hrefs);
    if h.Some? {
      CanonicalSettles(Some(join(sourceUrl, h.value)));
    }
  }

  /** The record of one row with at least five cells. */
  function RowRecord(row: Row, entryUrl: Option<string>, sourceUrl: string, scrapedAt: string): RawRecord
    requires |row.cells| >= 5
  {
    var decision := ParseDecision(NormalizeNone(Some(row.cells[3])));
    RawRecord(
      program := NormalizeNone(Some(row.cells[1])),
      university := NormalizeNone(Some(row.cells[0])),
      comments := CleanListpageComments(Some(row.cells[4])),
      datePosted := NormalizeNone(Some(row.cells[2])),
      entryUrl := entryUrl,
      status := decision.status,
      acceptedDate := decision.acceptedDate,
      rejectedDate := decision.rejectedDate,
      startTerm := None, startYear := None, isInternational := None,
      greTotal := None, greV := None, greAw := None,
      degreeLevel := None, degree := None, gpa := None,
      sourceUrl := Some(sourceUrl),
      scrapedAt := Some(scrapedAt))
  }

  /** The records of a listing page: one per row with at least five cells, in row order. */
  function SurveyRecords(rows: seq<Row>, sourceUrl: string, scrapedAt: string, join: (string, string) -> string, rev: Revision): seq<RawRecord> {
    if rows == [] then []
    else
      var last := rows[|rows| - 1];
      SurveyRecords(rows[..|rows| - 1], sourceUrl, scrapedAt, join, rev)
      + (if |last.cells| >= 5 then [RowRecord(last, EntryUrlOf(last, sourceUrl, join, rev), sourceUrl, scrapedAt)] else [])
  }

  /** `_parse_survey_page`. */
  method ParseSurveyPage(rows: seq<Row>, sourceUrl: string, scrapedAt: string, join: (string, string) -> string, rev: Revision)
    returns (records: seq<RawRecord>)
    ensures records == SurveyRecords(rows, sourceUrl, scrapedAt, join, rev)
    ensures |records| <= |rows|
    ensures forall r :: r in records ==> DetailsPending(r) && r.sourceUrl == Some(sourceUrl) && r.scrapedAt == Some(scrapedAt)
    ensures rev == Update ==> forall r :: r in records ==> Settled(r.entryUrl)
  {
    records := [];
    for i := 0 to |rows|
      invariant records == SurveyRecords(rows[..i], sourceUrl, scrapedAt, join, rev)
      invariant |records| <= i
      invariant forall r :: r in records ==> DetailsPending(r) && r.sourceUrl == Some(sourceUrl) && r.scrapedAt == Some(scrapedAt)
      invariant rev == Update ==> forall r :: r in records ==> Settled(r.entryUrl)
    {
      var row := rows[i];
      assert rows[..i + 1][..i] == rows[..i];
      if |row.cells| >= 5 {
        var u := ExtractEntryUrl(row, sourceUrl, join, rev);
        if rev == Update {
          EntryUrlSettled(row, sourceUrl, join);
        }
        records := records + [RowRecord(row, u, sourceUrl, scrapedAt)];
      }
    }
    assert rows[..|rows|] == rows;
  }

  /** Parsing two runs of rows one after the other gives the records of each, in order. */
  lemma {:induction false} SurveyRecordsAppend(a: seq<Row>, b: seq<Row>, sourceUrl: string, scrapedAt: string, join: (string, string) -> string, rev: Revision)
    ensures SurveyRecords(a + b, sourceUrl, scrapedAt, join, rev)
      == SurveyRecords(a, sourceUrl, scrapedAt, join, rev) + SurveyRecords(b, sourceUrl, scrapedAt, join, rev)
    decreases |b|
  {
    if b == [] {
      assert a + b == a;
    } else {
      var b0 := b[..|b| - 1];
      assert (a + b)[..|a + b| - 1] == a + b0;
      SurveyRecordsAppend(a, b0, sourceUrl, scrapedAt, join, rev);
    }
  }

  /** A row with fewer than five cells yields nothing; any other yields its record. */
  lemma SurveyRecordsOfRow(row: Row, sourceUrl: string, scrapedAt: string, join: (string, string) -> string, rev: Revision)
    ensures SurveyRecords([row], sourceUrl, scrapedAt, join, rev)
      == if |row.cells| >= 5 then [RowRecord(row, EntryUrlOf(row, sourceUrl, join, rev), sourceUrl, scrapedAt)] else []
  {
    assert [row][..0] == [];
  }

  // ----- result page -----

  /** The fields `_parse_result_page` returns; `origin` is kept only by the full revision. */
  datatype Detail = Detail(
    degree: Option<string>,
    degreeLevel: Option<string>,
    origin: Option<string>,
    isInternational: Option<bool>,
    gpa: Option<string>,
    greTotal: Option<string>,
    greV: Option<string>,
    greAw: Option<string>,
    detailComments: Option<string>,
    startTerm: Option<string>,
    startYear: Option<string>)

  /** What a result page that could not be fetched yields. */
  const NoDetail := Detail(None, None, None, None, None, None, None, None, None, None, None)

  const OriginLabel := "Degree's Country of Origin"

  /** `get_after(key)` from line `i` on: the normalised line after the first line that
      strips to `key` and is not the last line. */
  function LabelValueFrom(lines: seq<string>, key: string, i: nat): (r: Option<string>)
    ensures r.Some? ==> r.value != "" && !IsSpace(r.value[0]) && !IsSpace(r.value[|r.value| - 1])
    decreases |lines| - i
  {
    if i >= |lines| then None
    else if Strip(lines[i]) == key && i + 1 < |lines| then NormalizeNone(Some(lines[i + 1]))
    else LabelValueFrom(lines, key, i + 1)
  }

  function LabelValue(lines: seq<string>, key: string): Option<string> {
    LabelValueFrom(lines, key, 0)
  }

  /** The helper `get_after` of `_parse_result_page`. */
  method GetAfter(lines: seq<string>, key: string) returns (r: Option<string>)
    ensures r == LabelValue(lines, key)
  {
    for i := 0 to |lines|
      invariant LabelValueFrom(lines, key, i) == LabelValue(lines, key)
    {
      if Strip(lines[i]) == key && i + 1 < |lines| {
        return NormalizeNone(Some(lines[i + 1]));
      }
    }
    return None;
  }

  lemma {:induction false} LabelValueSkips(lines: seq<string>, key: string, j: nat, i: nat)
    requires j <= i <= |lines|
    requires forall k :: j <= k < i ==> Strip(lines[k]) != key || k + 1 >= |lines|
    ensures LabelValueFrom(lines, key, j) == LabelValueFrom(lines, key, i)
    decreases i - j
  {
    if j < i {
      assert !(Strip(lines[j]) == key && j + 1 < |lines|);
      assert LabelValueFrom(lines, key, j) == LabelValueFrom(lines, key, j + 1);
      LabelValueSkips(lines, key, j + 1, i);
    }
  }

  /** The value is read from the line after the first line carrying the key. */
  lemma LabelValueFirst(lines: seq<string>, key: string, i: nat)
    requires i + 1 < |lines| && Strip(lines[i]) == key
    requires forall j :: 0 <= j < i ==> Strip(lines[j]) != key
    ensures LabelValue(lines, key) == NormalizeNone(Some(lines[i + 1]))
  {
    LabelValueSkips(lines, key, 0, i);
  }

  /** A key that appears on no line but the last has no value. */
  lemma LabelValueAbsent(lines: seq<string>, key: string)
    requires forall j :: 0 <= j < |lines| - 1 ==> Strip(lines[j]) != key
    ensures LabelValue(lines, key) == None
  {
    LabelValueSkips(lines, key, 0, |lines|);
  }

  /** `is_international` from the origin: None without an origin, False exactly for
      "american" in any case, True otherwise. */
  function InternationalOf(origin: Option<string>): (r: Option<bool>)
    ensures r == None <==> origin == None || origin.value == ""
    ensures r == Some(false) <==> origin.Some? && origin.value != "" && LowerStr(Strip(origin.value)) == "american"
  {
    if origin == None || origin.value == "" then None
    else Some(LowerStr(Strip(origin.value)) != "american")
  }

  /** The notes, unless they are a stray key. */
  function NotesOf(notes: Option<string>): (r: Option<string>)
    ensures r.Some? ==> Strip(r.value) !in LabelGarbage
  {
    if notes.Some? && notes.value != "" && Strip(notes.value) in LabelGarbage then None else notes
  }

  /** The fields of a fetched result page. */
  function DetailOf(lines: seq<string>, rev: Revision): Detail {
    var degree := NormalizeNone(LabelValue(lines, "Degree Type"));
    var origin := NormalizeNone(LabelValue(lines, OriginLabel));
    Detail(
      degree := degree,
      degreeLevel := DegreeLevel(degree),
      origin := if rev == Full then origin else None,
      isInternational := InternationalOf(origin),
      gpa := ExtractFloat(CleanBadLabelValues(ZeroToNone(LabelValue(lines, "Undergrad GPA")))),
      greTotal := ExtractInt(CleanBadLabelValues(ZeroToNone(LabelValue(lines, "GRE General:")))),
      greV := ExtractInt(CleanBadLabelValues(ZeroToNone(LabelValue(lines, "GRE Verbal:")))),
      greAw := ExtractFloat(CleanBadLabelValues(ZeroToNone(LabelValue(lines, "Analytical Writing:")))),
      detailComments := NotesOf(NormalizeNone(LabelValue(lines, "Notes"))),
      startTerm := NormalizeNone(LabelValue(lines, "Term")),
      startYear := NormalizeNone(LabelValue(lines, "Year")))
  }

  /** `_parse_result_page`, given the lines of the fetched page (None when the fetch
      failed). */
  method ParseResultPage(page: Option<seq<string>>, rev: Revision) returns (d: Detail)
    ensures page == None ==> d == NoDetail
    ensures page.Some? ==> d == DetailOf(page.value, rev)
  {
    if page == None {
      return NoDetail;
    }
    var lines := page.value;
    var degree := GetAfter(lines, "Degree Type");
    var origin := GetAfter(lines, OriginLabel);
    var notes := GetAfter(lines, "Notes");
    var term := GetAfter(lines, "Term");
    var year := GetAfter(lines, "Year");
    var gpa := GetAfter(lines, "Undergrad GPA");
    var greTotal := GetAfter(lines, "GRE General:");
    var greV := GetAfter(lines, "GRE Verbal:");
    var greAw := GetAfter(lines, "Analytical Writing:");
    degree := NormalizeNone(degree);
    origin := NormalizeNone(origin);
    d := Detail(
      degree := degree,
      degreeLevel := DegreeLevel(degree),
      origin := if rev == Full then origin else None,
      isInternational := InternationalOf(origin),
      gpa := ExtractFloat(CleanBadLabelValues(ZeroToNone(gpa))),
      greTotal := ExtractInt(CleanBadLabelValues(ZeroToNone(greTotal))),
      greV := ExtractInt(CleanBadLabelValues(ZeroToNone(greV))),
      greAw := ExtractFloat(CleanBadLabelValues(ZeroToNone(greAw))),
      detailComments := NotesOf(NormalizeNone(notes)),
      startTerm := NormalizeNone(term),
      startYear := NormalizeNone(year));
  }

  /** What a parsed result page promises: the level is the degree's, `is_international`
      is None exactly when no origin was found and False exactly for "American", the
      notes are no key, and the numbers are numbers. */
  lemma DetailOfShape(lines: seq<string>, rev: Revision)
    ensures var d := DetailOf(lines, rev); var o := LabelValue(lines, OriginLabel);
      && d.degreeLevel == DegreeLevel(d.degree)
      && (d.isInternational == None <==> o == None)
      && (d.isInternational == Some(false) <==> o.Some? && LowerStr(o.value) == "american")
      && (rev == Full ==> d.origin == o)
      && (rev == Update ==> d.origin == None)
      && (d.detailComments.Some? ==> Strip(d.detailComments.value) !in LabelGarbage)
      && (d.greTotal.Some? ==> AllDigits(d.greTotal.value))
      && (d.greV.Some? ==> AllDigits(d.greV.value))
      && (d.gpa.Some? ==> IsDecimalText(d.gpa.value))
      && (d.greAw.Some? ==> IsDecimalText(d.greAw.value))
  {
    var o := LabelValue(lines, OriginLabel);
    if o.Some? {
      StripOfStripped(o.value);
    }
    var d := DetailOf(lines, rev);
    if d.gpa.Some? {
      ExtractFloatDecimal(CleanBadLabelValues(ZeroToNone(LabelValue(lines, "Undergrad GPA"))));
    }
    if d.greAw.Some? {
      ExtractFloatDecimal(CleanBadLabelValues(ZeroToNone(LabelValue(lines, "Analytical Writing:"))));
    }
  }

  /** A page with no lines yields what a failed fetch yields. */
  lemma EmptyPageNoDetail(rev: Revision)
    ensures DetailOf([], rev) == NoDetail
  {
  }
}
