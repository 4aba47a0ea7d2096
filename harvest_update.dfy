/** The page loop of the update harvester (`scrape_data` of the update revision): listing
    pages are read in order, each new record (valid canonical URL, not yet seen, in the
    database or earlier in the run) is appended and queued, the queued records have their
    result pages merged every `CHUNK_SURVEY_PAGES` pages, and the run stops after
    `STOP_AFTER_PAGES_WITH_NO_NEW` consecutive fetched pages that add nothing. Page fetches,
    the clock and `urljoin` are parameters. */
module HarvestUpdate {
  import opened Util
  import opened ResultUrl
  import opened ScrapePages
  import opened DetailFetch

  const BaseUrl := "https://www.thegradcafe.com/survey/"
  const SurveyPages := 1550
  const ChunkSurveyPages := 25
  const StopAfterPagesWithNoNew := 2

  /** The URL of listing page `page`. */
  function PageUrl(page: nat): (u: string)
    ensures StartsWith(u, BaseUrl + "?page=")
  {
    BaseUrl + "?page=" + Decimal(page)
  }

  /** Distinct pages are fetched from distinct URLs. */
  lemma PageUrlInjective(m: nat, n: nat)
    requires PageUrl(m) == PageUrl(n)
    ensures m == n
  {
    var p := BaseUrl + "?page=";
    assert Decimal(m) == PageUrl(m)[|p|..];
    assert Decimal(n) == PageUrl(n)[|p|..];
    DecimalInjective(m, n);
  }

  /** What the run promises of its records: each entry URL is valid, a fixed point of
      canonicalisation and not among the database URLs, and no two records share one. */
  predicate NewAndUnique(existing: set<string>, records: seq<RawRecord>) {
    && (forall i :: 0 <= i < |records| ==> FixedUrl(Update, records[i].entryUrl) && records[i].entryUrl.value !in existing)
    && (forall i, j :: 0 <= i < j < |records| ==> records[i].entryUrl != records[j].entryUrl)
  }

  /** What the loop keeps: the above, every URL so far is in `seen`, and `seen` holds
      every database URL. */
  predicate Harvested(existing: set<string>, seen: set<string>, records: seq<RawRecord>) {
    && existing <= seen
    && NewAndUnique(existing, records)
    && (forall i :: 0 <= i < |records| ==> records[i].entryUrl.value in seen)
  }

  /** The entry URLs of records that have one. */
  function UrlsOf(records: seq<RawRecord>): (r: set<string>)
    ensures forall k :: 0 <= k < |records| && records[k].entryUrl.Some? ==> records[k].entryUrl.value in r
    ensures forall u :: u in r ==> exists k :: 0 <= k < |records| && records[k].entryUrl == Some(u)
  {
    if records == [] then {}
    else
      var last := records[|records| - 1];
      UrlsOf(records[..|records| - 1]) + (if last.entryUrl.Some? then {last.entryUrl.value} else {})
  }

  lemma UrlsOfAppend(records: seq<RawRecord>, r: RawRecord)
    requires r.entryUrl.Some?
    ensures UrlsOf(records + [r]) == UrlsOf(records) + {r.entryUrl.value}
  {
    assert (records + [r])[..|records|] == records;
  }

  /** One step of the de-duplication: the record is appended, with its canonical URL,
      when that URL is valid and not yet seen. */
  function DedupNext(prev: (seq<RawRecord>, set<string>), rec: RawRecord): (seq<RawRecord>, set<string>) {
    var u := CanonicalResultUrl(rec.entryUrl);
    if !ValidResultUrl(u) || u.value in prev.1 then prev
    else (prev.0 + [rec.(entryUrl := u)], prev.1 + {u.value})
  }

  /** The de-duplication of one parsed page against `seen`: the records appended and the
      new `seen`. */
  function Dedup(seen: set<string>, page: seq<RawRecord>): (d: (seq<RawRecord>, set<string>))
    decreases |page|
  {
    if page == [] then ([], seen) else DedupNext(Dedup(seen, page[..|page| - 1]), page[|page| - 1])
  }

  lemma DedupStep(seen: set<string>, page: seq<RawRecord>, k: nat)
    requires k < |page|
    ensures Dedup(seen, page[..k + 1]) == DedupNext(Dedup(seen, page[..k]), page[k])
  {
    assert page[..k + 1][..k] == page[..k];
  }

  /** What the de-duplication has produced so far against the starting `seen`: every
      record appended carries a valid fixed-point URL that was not in `seen`, and `seen`
      has grown by exactly those URLs. */
  predicate DedupSound(seen: set<string>, d: (seq<RawRecord>, set<string>)) {
    && (forall k :: 0 <= k < |d.0| ==> FixedUrl(Update, d.0[k].entryUrl) && d.0[k].entryUrl.value !in seen)
    && d.1 == seen + UrlsOf(d.0)
  }

  lemma DedupNextSound(seen: set<string>, prev: (seq<RawRecord>, set<string>), rec: RawRecord)
    requires DedupSound(seen, prev) && Settled(rec.entryUrl)
    ensures var d := DedupNext(prev, rec); DedupSound(seen, d) && |d.0| <= |prev.0| + 1
  {
    var u := CanonicalResultUrl(rec.entryUrl);
    if ValidResultUrl(u) && u.value !in prev.1 {
      assert FixedUrl(Update, u);
      UrlsOfAppend(prev.0, rec.(entryUrl := u));
    }
  }

  /** `seen` only grows, every record appended carries a valid fixed-point URL that was
      not in `seen`, and each such URL is added to `seen` with its record and no other. */
  lemma {:induction false} DedupSpec(seen: set<string>, page: seq<RawRecord>)
    requires forall k :: 0 <= k < |page| ==> Settled(page[k].entryUrl)
    ensures var d := Dedup(seen, page); DedupSound(seen, d) && seen <= d.1 && |d.0| <= |page|
    decreases |page|
  {
    if page != [] {
      var front := page[..|page| - 1];
      DedupSpec(seen, front);
      DedupNextSound(seen, Dedup(seen, front), page[|page| - 1]);
    }
  }

  /** A parsed record as the de-duplication appends it: with its canonical entry URL. */
  function WithCanonicalUrl(r: RawRecord): (c: RawRecord)
    ensures c.entryUrl == CanonicalResultUrl(r.entryUrl) && c == r.(entryUrl := c.entryUrl)
  {
    r.(entryUrl := CanonicalResultUrl(r.entryUrl))
  }

  /** Record `k` of the page is the first to carry its valid canonical URL, and that URL
      was not seen before the page. */
  predicate FirstNew(seen: set<string>, page: seq<RawRecord>, k: nat)
    requires k < |page|
  {
    var u := CanonicalResultUrl(page[k].entryUrl);
    && ValidResultUrl(u) && u.value !in seen
    && forall j :: 0 <= j < k ==> CanonicalResultUrl(page[j].entryUrl) != u
  }

  /** What the de-duplication can produce: `seen` grows by valid canonical URLs of the
      page and no others, and every record appended is a record of the page with its
      canonical URL. */
  lemma {:induction false} DedupBounded(seen: set<string>, page: seq<RawRecord>)
    ensures var d := Dedup(seen, page);
      && seen <= d.1
      && (forall x :: x in d.1 ==> x in seen || exists k :: 0 <= k < |page| && CanonicalResultUrl(page[k].entryUrl) == Some(x))
      && (forall r :: r in d.0 ==> exists k :: 0 <= k < |page| && r == WithCanonicalUrl(page[k]))
    decreases |page|
  {
    if page != [] {
      var n := |page| - 1;
      var front := page[..n];
      DedupBounded(seen, front);
      var prev := Dedup(seen, front);
      var d := Dedup(seen, page);
      forall x | x in d.1
        ensures x in seen || exists k :: 0 <= k < |page| && CanonicalResultUrl(page[k].entryUrl) == Some(x)
      {
        if x in prev.1 && x !in seen {
          var k :| 0 <= k < n && CanonicalResultUrl(front[k].entryUrl) == Some(x);
          assert front[k] == page[k];
        }
      }
      forall r | r in d.0
        ensures exists k :: 0 <= k < |page| && r == WithCanonicalUrl(page[k])
      {
        if r in prev.0 {
          var k :| 0 <= k < n && r == WithCanonicalUrl(front[k]);
          assert front[k] == page[k];
        } else {
          assert r == WithCanonicalUrl(page[n]);
        }
      }
    }
  }

  /** One step of the de-duplication keeps what came before and sees the record's valid
      canonical URL; it appends the record when that URL was not seen. */
  lemma DedupNextGrows(prev: (seq<RawRecord>, set<string>), rec: RawRecord)
    ensures var d := DedupNext(prev, rec); var u := CanonicalResultUrl(rec.entryUrl);
      && prev.1 <= d.1 && (d.0 == prev.0 || d.0 == prev.0 + [WithCanonicalUrl(rec)])
      && (ValidResultUrl(u) ==> u.value in d.1)
      && (ValidResultUrl(u) && u.value !in prev.1 ==> WithCanonicalUrl(rec) in d.0)
  {
  }

  /** The record's canonical URL, when it is valid, is in `s`. */
  predicate SeenIfValid(r: RawRecord, s: set<string>) {
    var u := CanonicalResultUrl(r.entryUrl);
    ValidResultUrl(u) ==> u.value in s
  }

  lemma SeenIfValidGrows(r: RawRecord, s: set<string>, t: set<string>)
    requires SeenIfValid(r, s) && s <= t
    ensures SeenIfValid(r, t)
  {
  }

  /** The de-duplication loses no URL: every valid canonical URL of the page ends up
      seen. */
  lemma {:induction false} DedupSeesAll(seen: set<string>, page: seq<RawRecord>)
    ensures var d := Dedup(seen, page); forall k :: 0 <= k < |page| ==> SeenIfValid(page[k], d.1)
    decreases |page|
  {
    if page != [] {
      var n := |page| - 1;
      var front := page[..n];
      DedupSeesAll(seen, front);
      var prev := Dedup(seen, front);
      DedupNextGrows(prev, page[n]);
      var d := Dedup(seen, page);
      assert d == DedupNext(prev, page[n]);
      forall k | 0 <= k < |page|
        ensures SeenIfValid(page[k], d.1)
      {
        if k < n {
          assert front[k] == page[k];
          SeenIfValidGrows(page[k], prev.1, d.1);
        } else {
          assert k == n;
        }
      }
    }
  }

  /** The de-duplication drops nothing it should keep: the first record of the page to
      carry a valid canonical URL not seen before is appended with it. */
  lemma {:induction false} DedupCovers(seen: set<string>, page: seq<RawRecord>)
    ensures var d := Dedup(seen, page);
      forall k :: 0 <= k < |page| && FirstNew(seen, page, k) ==> WithCanonicalUrl(page[k]) in d.0
    decreases |page|
  {
    if page != [] {
      var n := |page| - 1;
      var front := page[..n];
      DedupCovers(seen, front);
      var prev := Dedup(seen, front);
      DedupNextGrows(prev, page[n]);
      DedupBounded(seen, front);
      forall k | 0 <= k < |page| && FirstNew(seen, page, k)
        ensures WithCanonicalUrl(page[k]) in Dedup(seen, page).0
      {
        if k < n {
          assert front[k] == page[k];
          assert FirstNew(seen, front, k);
        } else {
          var u := CanonicalResultUrl(page[n].entryUrl);
          forall j | 0 <= j < n
            ensures CanonicalResultUrl(front[j].entryUrl) != u
          {
            assert front[j] == page[j];
          }
        }
      }
    }
  }

  /** Appending a record with a valid fixed-point URL that is not yet seen, and marking
      that URL seen, keeps the harvest invariant. */
  lemma AppendKeeps(existing: set<string>, seen: set<string>, all: seq<RawRecord>, r: RawRecord)
    requires Harvested(existing, seen, all)
    requires FixedUrl(Update, r.entryUrl) && r.entryUrl.value !in seen
    ensures Harvested(existing, seen + {r.entryUrl.value}, all + [r])
  {
    var all' := all + [r];
    forall i, j | 0 <= i < j < |all'|
      ensures all'[i].entryUrl != all'[j].entryUrl
    {
      if j == |all| {
        assert all'[i] == all[i];
      }
    }
  }

  /** One step of the de-duplication keeps the harvest invariant. */
  lemma DedupNextKeeps(existing: set<string>, records: seq<RawRecord>, prev: (seq<RawRecord>, set<string>), rec: RawRecord)
    requires Harvested(existing, prev.1, records + prev.0)
    requires Settled(rec.entryUrl)
    ensures var d := DedupNext(prev, rec); Harvested(existing, d.1, records + d.0)
  {
    var u := CanonicalResultUrl(rec.entryUrl);
    if ValidResultUrl(u) && u.value !in prev.1 {
      assert FixedUrl(Update, u);
      AppendKeeps(existing, prev.1, records + prev.0, rec.(entryUrl := u));
      assert (records + prev.0) + [rec.(entryUrl := u)] == records + (prev.0 + [rec.(entryUrl := u)]);
    }
  }

  /** The de-duplication keeps the harvest invariant: what it appends has a valid settled
      URL that was not seen before, and that URL is added to `seen` with it. */
  lemma {:induction false} DedupKeeps(existing: set<string>, seen: set<string>, records: seq<RawRecord>, page: seq<RawRecord>)
    requires Harvested(existing, seen, records)
    requires forall k :: 0 <= k < |page| ==> Settled(page[k].entryUrl)
    ensures var d := Dedup(seen, page); Harvested(existing, d.1, records + d.0)
    decreases |page|
  {
    if page == [] {
      assert records + [] == records;
    } else {
      var front := page[..|page| - 1];
      DedupKeeps(existing, seen, records, front);
      DedupNextKeeps(existing, records, Dedup(seen, front), page[|page| - 1]);
    }
  }

  /** The inner loop of a page: canonicalise each parsed record's URL, skip it when the
      URL is invalid or seen, otherwise mark it seen and append it. The indices of the
      appended records are queued in the pending chunk, in order (one step after the
      loop; the queue is not read inside it). */
  method AddPage(records: seq<RawRecord>, seen: set<string>, chunk: seq<nat>, page: seq<RawRecord>)
    returns (records': seq<RawRecord>, seen': set<string>, chunk': seq<nat>, added: nat)
    ensures var d := Dedup(seen, page); records' == records + d.0 && seen' == d.1
    ensures chunk' == chunk + Range(|records|, |records'|) && added == |records'| - |records|
  {
    ghost var newRecords: seq<RawRecord> := [];
    records', seen', added := records, seen, 0;
    for k := 0 to |page|
      invariant (newRecords, seen') == Dedup(seen, page[..k])
      invariant records' == records + newRecords && added == |newRecords|
    {
      assert page[..k + 1][..k] == page[..k];
      var u := CanonicalResultUrl(page[k].entryUrl);
      var rec := page[k].(entryUrl := u);
      if !ValidResultUrl(u) {
        continue;
      }
      if u.value in seen' {
        continue;
      }
      seen' := seen' + {u.value};
      newRecords := newRecords + [rec];
      records' := records' + [rec];
      added := added + 1;
    }
    assert page[..|page|] == page;
    chunk' := chunk + Range(|records|, |records'|);
  }

  /** The pending indices are `flushed .. n - 1`; the batches already handed over hold
      `0 .. flushed - 1`, in order. */
  ghost predicate Queued(batches: seq<seq<nat>>, flushed: nat, chunk: seq<nat>, n: nat) {
    flushed <= n && Flatten(batches) == Range(0, flushed) && chunk == Range(flushed, n)
  }

  /** Each record is its pre-merge record with at most the fields of a result page
      changed: the same listing fields and the same entry URL. */
  predicate MergedFrom(records: seq<RawRecord>, pre: seq<RawRecord>) {
    && |records| == |pre|
    && forall i :: 0 <= i < |records| ==> SameListing(records[i], pre[i]) && records[i].entryUrl == pre[i].entryUrl
  }

  lemma MergedFromTrans(a: seq<RawRecord>, b: seq<RawRecord>, c: seq<RawRecord>)
    requires MergedFrom(a, b) && MergedFrom(b, c)
    ensures MergedFrom(a, c)
  {
  }

  /** The records parsed from each listing page read, in order: `pages[k]` is what
      `_parse_survey_page` yields for page `pagesRead[k]`, parsed at `clock(pagesRead[k])`. */
  ghost predicate ParsedPages(survey: string -> Option<seq<Row>>, clock: nat -> string, join: (string, string) -> string,
                              rev: Revision, pagesRead: seq<nat>, pages: seq<seq<RawRecord>>) {
    && |pages| == |pagesRead|
    && forall k :: 0 <= k < |pages| ==>
         && survey(PageUrl(pagesRead[k])).Some?
         && pages[k] == SurveyRecords(survey(PageUrl(pagesRead[k])).value, PageUrl(pagesRead[k]), clock(pagesRead[k]), join, rev)
  }

  lemma ParsedPagesNext(survey: string -> Option<seq<Row>>, clock: nat -> string, join: (string, string) -> string,
                        rev: Revision, pagesRead: seq<nat>, pages: seq<seq<RawRecord>>, page: nat)
    requires ParsedPages(survey, clock, join, rev, pagesRead, pages) && survey(PageUrl(page)).Some?
    ensures ParsedPages(survey, clock, join, rev, pagesRead + [page],
                        pages + [SurveyRecords(survey(PageUrl(page)).value, PageUrl(page), clock(page), join, rev)])
  {
  }

  /** The de-duplication of the pages read, one after the other, starting from `seen`:
      the records appended, the final `seen` and how many records each page added. */
  function DedupPages(seen: set<string>, pages: seq<seq<RawRecord>>): (h: (seq<RawRecord>, set<string>, seq<nat>))
    ensures |h.2| == |pages|
    decreases |pages|
  {
    if pages == [] then ([], seen, [])
    else
      var prev := DedupPages(seen, pages[..|pages| - 1]);
      var d := Dedup(prev.1, pages[|pages| - 1]);
      (prev.0 + d.0, d.1, prev.2 + [|d.0|])
  }

  /** One more page read: its de-duplicated records follow the earlier ones, unmerged,
      and the number it added is appended to the counts. */
  lemma DedupPagesNext(seen0: set<string>, pages: seq<seq<RawRecord>>, pre: seq<RawRecord>, seen: set<string>, history: seq<nat>,
                       records: seq<RawRecord>, page: seq<RawRecord>, records': seq<RawRecord>, seen': set<string>, added: nat)
    requires DedupPages(seen0, pages) == (pre, seen, history) && MergedFrom(records, pre)
    requires var d := Dedup(seen, page); records' == records + d.0 && seen' == d.1 && added == |records'| - |records|
    ensures var h := DedupPages(seen0, pages + [page]); h == (h.0, seen', history + [added]) && MergedFrom(records', h.0)
  {
    assert (pages + [page])[..|pages|] == pages;
    var d := Dedup(seen, page);
    forall i | |records| <= i < |records'|
      ensures records'[i] == (pre + d.0)[i]
    {
    }
  }

  /** Every record parsed from the pages carries a settled entry URL. */
  predicate AllSettled(pages: seq<seq<RawRecord>>) {
    forall k, j :: 0 <= k < |pages| && 0 <= j < |pages[k]| ==> Settled(pages[k][j].entryUrl)
  }

  /** `seen` grows by exactly the URLs of the records appended. */
  lemma {:induction false} DedupSeen(seen: set<string>, page: seq<RawRecord>)
    ensures var d := Dedup(seen, page); d.1 == seen + UrlsOf(d.0)
    decreases |page|
  {
    if page != [] {
      var n := |page| - 1;
      DedupSeen(seen, page[..n]);
      var prev := Dedup(seen, page[..n]);
      var u := CanonicalResultUrl(page[n].entryUrl);
      if ValidResultUrl(u) && u.value !in prev.1 {
        UrlsOfAppend(prev.0, page[n].(entryUrl := u));
      }
    }
  }

  /** The fold over the pages is sound: its records satisfy the harvest invariant against
      the database URLs. */
  lemma {:induction false} DedupPagesSound(existing: set<string>, pages: seq<seq<RawRecord>>)
    requires AllSettled(pages)
    ensures var h := DedupPages(existing, pages); Harvested(existing, h.1, h.0)
    decreases |pages|
  {
    if pages != [] {
      var front := pages[..|pages| - 1];
      assert AllSettled(front);
      DedupPagesSound(existing, front);
      var prev := DedupPages(existing, front);
      DedupKeeps(existing, prev.1, prev.0, pages[|pages| - 1]);
    }
  }

  /** What the fold has seen is a database URL or the URL of one of its records. */
  lemma {:induction false} DedupPagesSeen(existing: set<string>, pages: seq<seq<RawRecord>>)
    ensures var h := DedupPages(existing, pages);
      forall x :: x in h.1 ==> x in existing || exists i :: 0 <= i < |h.0| && h.0[i].entryUrl == Some(x)
    decreases |pages|
  {
    if pages != [] {
      var front := pages[..|pages| - 1];
      var last := pages[|pages| - 1];
      DedupPagesSeen(existing, front);
      var prev := DedupPages(existing, front);
      DedupSeen(prev.1, last);
      var d := Dedup(prev.1, last);
      var h := DedupPages(existing, pages);
      forall x | x in h.1
        ensures x in existing || exists i :: 0 <= i < |h.0| && h.0[i].entryUrl == Some(x)
      {
        if x in prev.1 {
          if x !in existing {
            var i :| 0 <= i < |prev.0| && prev.0[i].entryUrl == Some(x);
            assert h.0[i] == prev.0[i];
          }
        } else {
          assert x in UrlsOf(d.0);
          var k :| 0 <= k < |d.0| && d.0[k].entryUrl == Some(x);
          assert h.0[|prev.0| + k] == d.0[k];
        }
      }
    }
  }

  /** The fold over the pages loses nothing: every valid canonical URL on a page read is
      seen at the end. */
  lemma {:induction false} DedupPagesSeesAll(existing: set<string>, pages: seq<seq<RawRecord>>)
    ensures var h := DedupPages(existing, pages);
      && existing <= h.1
      && forall k, j :: 0 <= k < |pages| && 0 <= j < |pages[k]| ==> SeenIfValid(pages[k][j], h.1)
    decreases |pages|
  {
    if pages != [] {
      var n := |pages| - 1;
      var front := pages[..n];
      DedupPagesSeesAll(existing, front);
      var prev := DedupPages(existing, front);
      DedupSeesAll(prev.1, pages[n]);
      DedupBounded(prev.1, pages[n]);
      var h := DedupPages(existing, pages);
      forall k, j | 0 <= k < |pages| && 0 <= j < |pages[k]|
        ensures SeenIfValid(pages[k][j], h.1)
      {
        if k < n {
          assert front[k] == pages[k];
          SeenIfValidGrows(pages[k][j], prev.1, h.1);
        } else {
          assert k == n;
        }
      }
    }
  }

  /** What the run promises of the pages it read, whatever they hold: every valid
      canonical URL on them is a database URL or the entry URL of a record returned. */
  lemma ScrapeUpdateCovers(existing: set<string>, pages: seq<seq<RawRecord>>, records: seq<RawRecord>)
    requires MergedFrom(records, DedupPages(existing, pages).0)
    ensures forall k, j :: 0 <= k < |pages| && 0 <= j < |pages[k]| && ValidResultUrl(CanonicalResultUrl(pages[k][j].entryUrl)) ==>
      var u := CanonicalResultUrl(pages[k][j].entryUrl).value;
      u in existing || exists i :: 0 <= i < |records| && records[i].entryUrl == Some(u)
  {
    DedupPagesSeen(existing, pages);
    DedupPagesSeesAll(existing, pages);
    var h := DedupPages(existing, pages);
    forall k, j | 0 <= k < |pages| && 0 <= j < |pages[k]| && ValidResultUrl(CanonicalResultUrl(pages[k][j].entryUrl))
      ensures var u := CanonicalResultUrl(pages[k][j].entryUrl).value;
        u in existing || exists i :: 0 <= i < |records| && records[i].entryUrl == Some(u)
    {
      var u := CanonicalResultUrl(pages[k][j].entryUrl).value;
      assert SeenIfValid(pages[k][j], h.1);
      if u !in existing {
        var i :| 0 <= i < |h.0| && h.0[i].entryUrl == Some(u);
        assert records[i].entryUrl == Some(u);
      }
    }
  }

  /** The detail fetch of one chunk. The queued URLs are valid fixed points, so the merge
      leaves every entry URL as it was and the harvest invariant holds after it. */
  method DispatchChunk(existing: set<string>, seen: set<string>, records: seq<RawRecord>, chunk: seq<nat>, fetch: string -> Outcome)
    returns (out: seq<RawRecord>, failed: nat)
    requires Harvested(existing, seen, records) && IndicesIn(chunk, |records|)
    ensures |out| == |records| && Harvested(existing, seen, out) && MergedFrom(out, records)
    ensures failed <= |chunk|
  {
    var updated;
    out, updated, failed := FetchDetailsForIndices(Update, records, chunk, fetch);
    ChunkMerged(existing, seen, records, chunk, fetch);
  }

  /** What the detail fetch of a chunk of harvested records yields. */
  lemma ChunkMerged(existing: set<string>, seen: set<string>, records: seq<RawRecord>, chunk: seq<nat>, fetch: string -> Outcome)
    requires Harvested(existing, seen, records) && IndicesIn(chunk, |records|)
    ensures var p := Prepared(Update, records, chunk); var a := Applied(Update, p.0, p.1, fetch);
      Harvested(existing, seen, a.0) && MergedFrom(a.0, records)
  {
    FetchDetailsKeepsFixedUrls(Update, records, chunk, fetch);
    FetchDetailsListing(Update, records, chunk, fetch);
  }

  /** The detail fetch of the pending chunk, when there is one; afterwards every index so
      far has been handed over exactly once, in order. */
  method Flush(existing: set<string>, seen: set<string>, records: seq<RawRecord>, chunk: seq<nat>,
               fetch: string -> Outcome, ghost batches: seq<seq<nat>>, ghost flushed: nat, ghost pre: seq<RawRecord>)
    returns (out: seq<RawRecord>, failed: nat, ghost batches': seq<seq<nat>>)
    requires Harvested(existing, seen, records) && Queued(batches, flushed, chunk, |records|) && MergedFrom(records, pre)
    ensures |out| == |records| && Harvested(existing, seen, out) && Queued(batches', |out|, [], |out|)
    ensures MergedFrom(out, pre)
    ensures chunk == [] ==> out == records && failed == 0 && batches' == batches
    ensures failed <= |records| - flushed
  {
    if chunk == [] {
      out, failed, batches' := records, 0, batches;
      return;
    }
    out, failed := DispatchChunk(existing, seen, records, chunk, fetch);
    MergedFromTrans(out, records, pre);
    batches' := Flushed(batches, flushed, |records|);
  }

  /** One listing page that was fetched: its rows are parsed and de-duplicated into the
      records, and the new indices are queued after the pending ones. */
  method HarvestPage(existing: set<string>, seen: set<string>, records: seq<RawRecord>, chunk: seq<nat>,
                     rows: seq<Row>, url: string, scrapedAt: string, join: (string, string) -> string,
                     ghost batches: seq<seq<nat>>, ghost flushed: nat)
    returns (records': seq<RawRecord>, seen': set<string>, chunk': seq<nat>, added: nat)
    requires Harvested(existing, seen, records) && Queued(batches, flushed, chunk, |records|)
    ensures Harvested(existing, seen', records') && Queued(batches, flushed, chunk', |records'|)
    ensures var d := Dedup(seen, SurveyRecords(rows, url, scrapedAt, join, Update)); records' == records + d.0 && seen' == d.1
    ensures added == |records'| - |records|
  {
    var pageRecords := ParseSurveyPage(rows, url, scrapedAt, join, Update);
    DedupKeeps(existing, seen, records, pageRecords);
    records', seen', chunk', added := AddPage(records, seen, chunk, pageRecords);
    RangeSplit(flushed, |records|, |records'|);
  }

  /** The number of pages at the end of `history` that added nothing. */
  function NoNewStreak(history: seq<nat>): nat {
    if history == [] || history[|history| - 1] != 0 then 0 else NoNewStreak(history[..|history| - 1]) + 1
  }

  /** No prefix of `history` ends in a streak long enough to stop. */
  predicate NeverQuiet(history: seq<nat>) {
    forall n :: 0 <= n <= |history| ==> NoNewStreak(history[..n]) < StopAfterPagesWithNoNew
  }

  /** The batch list after the pending indices `flushed .. n - 1` are handed over. */
  ghost function Flushed(batches: seq<seq<nat>>, flushed: nat, n: nat): (r: seq<seq<nat>>)
    requires flushed <= n && Flatten(batches) == Range(0, flushed)
    ensures Flatten(r) == Range(0, n)
  {
    var r := batches + [Range(flushed, n)];
    assert r[..|batches|] == batches;
    RangeSplit(0, flushed, n);
    r
  }

  /** The counter after one more fetched page: it grows on a page that added nothing and
      is reset otherwise; while it stays below the threshold the run never had a reason
      to stop. */
  lemma {:induction false} CountPage(history: seq<nat>, added: nat)
    requires NeverQuiet(history)
    ensures NoNewStreak(history) < StopAfterPagesWithNoNew
    ensures NoNewStreak(history + [added]) == if added == 0 then NoNewStreak(history) + 1 else 0
    ensures (history + [added])[..|history|] == history
    ensures NoNewStreak(history + [added]) < StopAfterPagesWithNoNew ==> NeverQuiet(history + [added])
  {
    var h := history + [added];
    assert history[..|history|] == history;
    assert h[..|h| - 1] == history;
    if NoNewStreak(h) < StopAfterPagesWithNoNew {
      forall n | 0 <= n <= |h|
        ensures NoNewStreak(h[..n]) < StopAfterPagesWithNoNew
      {
        if n < |h| {
          assert h[..n] == history[..n];
        } else {
          assert h[..n] == h;
        }
      }
    }
  }

  /** The survey pages whose listing was fetched and handled, in increasing page order;
      a page whose fetch failed is never among them, so it never moves the counter. */
  ghost predicate PagesRead(survey: string -> Option<seq<Row>>, pages: seq<nat>) {
    && (forall k :: 0 <= k < |pages| ==> 1 <= pages[k] <= SurveyPages && survey(PageUrl(pages[k])).Some?)
    && (forall i, j :: 0 <= i < j < |pages| ==> pages[i] < pages[j])
  }


  /** `pages` are exactly the pages before `page` whose listing was fetched. */
  ghost predicate PagesReadBefore(survey: string -> Option<seq<Row>>, pages: seq<nat>, page: nat) {
    && page <= SurveyPages + 1 && PagesRead(survey, pages)
    && (forall k :: 0 <= k < |pages| ==> pages[k] < page)
    && (forall p :: 1 <= p < page && survey(PageUrl(p)).Some? ==> p in pages)
  }

  lemma PagesReadSkip(survey: string -> Option<seq<Row>>, pages: seq<nat>, page: nat)
    requires PagesReadBefore(survey, pages, page) && 1 <= page <= SurveyPages && survey(PageUrl(page)) == None
    ensures PagesReadBefore(survey, pages, page + 1)
  {
  }

  lemma PagesReadNext(survey: string -> Option<seq<Row>>, pages: seq<nat>, page: nat)
    requires PagesReadBefore(survey, pages, page) && 1 <= page <= SurveyPages && survey(PageUrl(page)).Some?
    ensures PagesReadBefore(survey, pages + [page], page + 1)
  {
  }

  /** `scrape_data` of the update revision. `survey` gives the rows of a listing page by
      URL (None when the fetch failed), `fetch` the outcome of a result page, `clock` the
      timestamp taken while parsing each page. The ghost `pagesRead` lists the pages whose
      listing was fetched, `pages` the records parsed from each of them, `history` how many
      records each of them added, and `batches` the index lists handed to the detail
      fetch. The records are those the de-duplication of `pages` against the database URLs
      appends, each with at most the fields of its result page merged in. */
  method ScrapeUpdate(existing: set<string>, survey: string -> Option<seq<Row>>, fetch: string -> Outcome,
                      clock: nat -> string, join: (string, string) -> string)
    returns (records: seq<RawRecord>, totalFailed: nat, stoppedEarly: bool,
             ghost pagesRead: seq<nat>, ghost pages: seq<seq<RawRecord>>, ghost history: seq<nat>, ghost batches: seq<seq<nat>>)
    ensures ParsedPages(survey, clock, join, Update, pagesRead, pages)
    ensures var h := DedupPages(existing, pages); history == h.2 && MergedFrom(records, h.0)
    ensures NewAndUnique(existing, records)
    ensures Flatten(batches) == Range(0, |records|)
    ensures |pagesRead| == |history| && PagesRead(survey, pagesRead)
    ensures !stoppedEarly ==> PagesReadBefore(survey, pagesRead, SurveyPages + 1) && NeverQuiet(history)
    ensures stoppedEarly ==> NoNewStreak(history) == StopAfterPagesWithNoNew && NeverQuiet(history[..|history| - 1])
    ensures stoppedEarly ==> |pagesRead| > 0 && PagesReadBefore(survey, pagesRead, pagesRead[|pagesRead| - 1] + 1)
    ensures totalFailed <= |records|
  {
    records := [];
    var seen := existing;
    var chunk: seq<nat> := [];
    totalFailed := 0;
    var pagesWithNoNew := 0;
    stoppedEarly := false;
    pagesRead, pages, history, batches := [], [], [], [];
    ghost var flushed: nat := 0;
    ghost var pre: seq<RawRecord> := [];
    var page := 1;
    while page <= SurveyPages
      invariant Harvested(existing, seen, records) && Queued(batches, flushed, chunk, |records|)
      invariant ParsedPages(survey, clock, join, Update, pagesRead, pages)
      invariant DedupPages(existing, pages) == (pre, seen, history) && MergedFrom(records, pre)
      invariant pagesWithNoNew == NoNewStreak(history) && NeverQuiet(history)
      invariant 1 <= page && |pagesRead| == |history| && PagesReadBefore(survey, pagesRead, page)
      invariant totalFailed <= flushed
    {
      var url := PageUrl(page);
      var html := survey(url);
      if html == None {
        PagesReadSkip(survey, pagesRead, page);
        page := page + 1;
        continue;
      }
      var added, failed;
      ghost var parsed := SurveyRecords(html.value, url, clock(page), join, Update);
      ParsedPagesNext(survey, clock, join, Update, pagesRead, pages, page);
      var records', seen';
      records', seen', chunk, added := HarvestPage(existing, seen, records, chunk, html.value, url, clock(page), join, batches, flushed);
      DedupPagesNext(existing, pages, pre, seen, history, records, parsed, records', seen', added);
      records, seen := records', seen';
      PagesReadNext(survey, pagesRead, page);
      CountPage(history, added);
      history, pagesRead, pages := history + [added], pagesRead + [page], pages + [parsed];
      pre := DedupPages(existing, pages).0;
      if added == 0 {
        pagesWithNoNew := pagesWithNoNew + 1;
      } else {
        pagesWithNoNew := 0;
      }
      if pagesWithNoNew >= StopAfterPagesWithNoNew {
        records, failed, batches := Flush(existing, seen, records, chunk, fetch, batches, flushed, pre);
        totalFailed := totalFailed + failed;
        stoppedEarly := true;
        break;
      }
      if page % ChunkSurveyPages == 0 {
        records, failed, batches := Flush(existing, seen, records, chunk, fetch, batches, flushed, pre);
        totalFailed := totalFailed + failed;
        chunk, flushed := [], |records|;
      }
      page := page + 1;
    }
    if !stoppedEarly {
      var failed;
      records, failed, batches := Flush(existing, seen, records, chunk, fetch, batches, flushed, pre);
      totalFailed := totalFailed + failed;
    }
  }
}
