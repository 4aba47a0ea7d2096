/** The page loop of the original full harvester (`scrape_data` of the full revision):
    the run may resume from checkpoint records, whose entry URLs seed `seen`; each parsed
    record is appended unless its entry URL is non-empty and already seen, with no
    validity check and no early stop; the queued records have their result pages merged
    every `CHUNK_SURVEY_PAGES` pages when some are pending, and once more after the last
    page. Page fetches, the clock, the checkpoint file and `urljoin` are parameters. */
module HarvestFull {
  import opened Util
  import opened ScrapePages
  import opened DetailFetch
  import HarvestUpdate

  const SurveyPages := 1550
  const ChunkSurveyPages := 25

  /** Python truthiness of an entry URL: present and non-empty. */
  predicate HasUrl(u: Option<string>) {
    u.Some? && u.value != ""
  }

  /** The entry URL of each record, in order. */
  function EntryUrls(records: seq<RawRecord>): (r: seq<Option<string>>)
    ensures |r| == |records| && forall k :: 0 <= k < |records| ==> r[k] == records[k].entryUrl
  {
    if records == [] then [] else EntryUrls(records[..|records| - 1]) + [records[|records| - 1].entryUrl]
  }

  /** The non-empty URLs among `urls`. */
  function UrlSet(urls: seq<Option<string>>): (s: set<string>)
    ensures forall k :: 0 <= k < |urls| && HasUrl(urls[k]) ==> urls[k].value in s
    ensures forall u :: u in s ==> u != "" && Some(u) in urls
  {
    if urls == [] then {}
    else
      var last := urls[|urls| - 1];
      UrlSet(urls[..|urls| - 1]) + (if HasUrl(last) then {last.value} else {})
  }

  lemma UrlSetNext(urls: seq<Option<string>>, u: Option<string>)
    ensures UrlSet(urls + [u]) == UrlSet(urls) + (if HasUrl(u) then {u.value} else {})
  {
    assert (urls + [u])[..|urls|] == urls;
  }

  lemma UrlSetPrefixNext(urls: seq<Option<string>>, k: nat)
    requires k < |urls|
    ensures UrlSet(urls[..k + 1]) == UrlSet(urls[..k]) + (if HasUrl(urls[k]) then {urls[k].value} else {})
  {
    assert urls[..k + 1] == urls[..k] + [urls[k]];
    UrlSetNext(urls[..k], urls[k]);
  }

  lemma {:induction false} UrlSetAppend(a: seq<Option<string>>, b: seq<Option<string>>)
    ensures UrlSet(a + b) == UrlSet(a) + UrlSet(b)
    decreases |b|
  {
    if b == [] {
      assert a + b == a;
    } else {
      var b0 := b[..|b| - 1];
      assert a + b == (a + b0) + [b[|b| - 1]];
      UrlSetAppend(a, b0);
      UrlSetNext(a + b0, b[|b| - 1]);
      UrlSetNext(b0, b[|b| - 1]);
    }
  }

  /** The records a run starts from: the checkpoint when resuming and it could be loaded,
      nothing otherwise (a missing or unreadable checkpoint resets both the records and
      `seen`). */
  function Resumed(resume: bool, checkpoint: Option<seq<RawRecord>>): seq<RawRecord> {
    if resume && checkpoint.Some? then checkpoint.value else []
  }

  /** The resume loop: `seen` starts as the non-empty entry URLs of the loaded records. */
  method SeedSeen(records: seq<RawRecord>) returns (seen: set<string>)
    ensures seen == UrlSet(EntryUrls(records))
    ensures forall u :: u in seen <==> u != "" && exists i :: 0 <= i < |records| && records[i].entryUrl == Some(u)
  {
    ghost var urls := EntryUrls(records);
    seen := {};
    for k := 0 to |records|
      invariant seen == UrlSet(urls[..k])
    {
      UrlSetPrefixNext(urls, k);
      var u := records[k].entryUrl;
      if HasUrl(u) {
        seen := seen + {u.value};
      }
    }
    assert urls[..|records|] == urls;
    SeenOfRecords(records);
  }

  /** The set of URLs of the records, element-wise. */
  lemma SeenOfRecords(records: seq<RawRecord>)
    ensures forall u :: u in UrlSet(EntryUrls(records)) <==> u != "" && exists i :: 0 <= i < |records| && records[i].entryUrl == Some(u)
  {
    var urls := EntryUrls(records);
    forall u | u != "" && exists i :: 0 <= i < |records| && records[i].entryUrl == Some(u)
      ensures u in UrlSet(urls)
    {
      var i :| 0 <= i < |records| && records[i].entryUrl == Some(u);
      assert HasUrl(urls[i]);
    }
    forall u | u in UrlSet(urls)
      ensures exists i :: 0 <= i < |records| && records[i].entryUrl == Some(u)
    {
      var i :| 0 <= i < |urls| && urls[i] == Some(u);
      assert records[i].entryUrl == Some(u);
    }
  }

  /** One step of the de-duplication: a record with a non-empty URL already seen is
      dropped; any other record is appended, and its URL, when it has one, is seen. */
  function KeepNext(prev: (seq<RawRecord>, set<string>), rec: RawRecord): (seq<RawRecord>, set<string>) {
    var u := rec.entryUrl;
    if HasUrl(u) && u.value in prev.1 then prev
    else (prev.0 + [rec], if HasUrl(u) then prev.1 + {u.value} else prev.1)
  }

  /** The de-duplication of one parsed page against `seen`: the records appended and the
      new `seen`. */
  function Keep(seen: set<string>, page: seq<RawRecord>): (seq<RawRecord>, set<string>)
    decreases |page|
  {
    if page == [] then ([], seen) else KeepNext(Keep(seen, page[..|page| - 1]), page[|page| - 1])
  }

  /** No URL appended from index `b` on repeats a URL appended before it. */
  predicate NewDistinct(urls: seq<Option<string>>, b: nat) {
    forall i, j :: 0 <= i < j < |urls| && b <= j && HasUrl(urls[j]) ==> urls[i] != urls[j]
  }

  /** What the de-duplication keeps: every URL appended is new to the starting `seen`
      and to the records appended before it, and `seen` grows by exactly those URLs. */
  predicate KeepSound(seen: set<string>, d: (seq<RawRecord>, set<string>)) {
    && (forall k :: 0 <= k < |d.0| && HasUrl(d.0[k].entryUrl) ==> d.0[k].entryUrl.value !in seen)
    && NewDistinct(EntryUrls(d.0), 0)
    && d.1 == seen + UrlSet(EntryUrls(d.0))
  }

  /** A URL not among the earlier ones keeps them pairwise new. */
  lemma DistinctNext(urls: seq<Option<string>>, b: nat, u: Option<string>)
    requires NewDistinct(urls, b) && (HasUrl(u) ==> u.value !in UrlSet(urls))
    ensures NewDistinct(urls + [u], b)
  {
    var urls' := urls + [u];
    forall i, j | 0 <= i < j < |urls'| && b <= j && HasUrl(urls'[j])
      ensures urls'[i] != urls'[j]
    {
      if j == |urls| && HasUrl(urls[i]) {
        assert urls[i].value in UrlSet(urls);
      }
    }
  }

  lemma EntryUrlsNext(records: seq<RawRecord>, rec: RawRecord)
    ensures EntryUrls(records + [rec]) == EntryUrls(records) + [rec.entryUrl]
  {
    assert (records + [rec])[..|records|] == records;
  }

  lemma KeepNextSound(seen: set<string>, prev: (seq<RawRecord>, set<string>), rec: RawRecord)
    requires KeepSound(seen, prev)
    ensures KeepSound(seen, KeepNext(prev, rec))
  {
    var u := rec.entryUrl;
    if !(HasUrl(u) && u.value in prev.1) {
      var urls := EntryUrls(prev.0);
      EntryUrlsNext(prev.0, rec);
      UrlSetNext(urls, u);
      DistinctNext(urls, 0, u);
    }
  }

  /** The de-duplication is sound: no URL is appended twice, none that was seen before,
      and `seen` grows by exactly the URLs appended. */
  lemma {:induction false} KeepSpec(seen: set<string>, page: seq<RawRecord>)
    ensures KeepSound(seen, Keep(seen, page))
    decreases |page|
  {
    if page != [] {
      KeepSpec(seen, page[..|page| - 1]);
      KeepNextSound(seen, Keep(seen, page[..|page| - 1]), page[|page| - 1]);
    }
  }

  /** The de-duplication drops nothing it should keep: every record without a URL is
      appended, every URL of the page ends up seen, and only records of the page are
      appended. */
  lemma {:induction false} KeepCovers(seen: set<string>, page: seq<RawRecord>)
    ensures var d := Keep(seen, page);
      && seen <= d.1 && |d.0| <= |page|
      && (forall k :: 0 <= k < |page| && !HasUrl(page[k].entryUrl) ==> page[k] in d.0)
      && (forall k :: 0 <= k < |page| && HasUrl(page[k].entryUrl) ==> page[k].entryUrl.value in d.1)
      && (forall r :: r in d.0 ==> r in page)
    decreases |page|
  {
    if page != [] {
      var front := page[..|page| - 1];
      KeepCovers(seen, front);
      var prev := Keep(seen, front);
      var d := Keep(seen, page);
      assert prev.1 <= d.1 && multiset(prev.0) <= multiset(d.0);
      forall k | 0 <= k < |page| && !HasUrl(page[k].entryUrl)
        ensures page[k] in d.0
      {
        if k < |front| {
          assert front[k] in prev.0;
        }
      }
      forall k | 0 <= k < |page| && HasUrl(page[k].entryUrl)
        ensures page[k].entryUrl.value in d.1
      {
        if k < |front| {
          assert front[k].entryUrl.value in prev.1;
        }
      }
      forall r | r in d.0
        ensures r in page
      {
        if r in prev.0 {
          assert r in front;
        }
      }
    }
  }

  /** A page whose records carry no URL is appended whole. */
  lemma {:induction false} KeepWithoutUrls(seen: set<string>, page: seq<RawRecord>)
    requires forall k :: 0 <= k < |page| ==> !HasUrl(page[k].entryUrl)
    ensures Keep(seen, page) == (page, seen)
    decreases |page|
  {
    if page != [] {
      KeepWithoutUrls(seen, page[..|page| - 1]);
      assert page[..|page| - 1] + [page[|page| - 1]] == page;
    }
  }

  /** The inner loop of a page: a record whose non-empty URL is already seen is skipped,
      any other is appended and its URL, when it has one, marked seen. The indices of the
      appended records are queued in the pending chunk, in order. */
  method AddPage(records: seq<RawRecord>, seen: set<string>, chunk: seq<nat>, page: seq<RawRecord>)
    returns (records': seq<RawRecord>, seen': set<string>, chunk': seq<nat>, added: nat)
    ensures var d := Keep(seen, page); records' == records + d.0 && seen' == d.1
    ensures chunk' == chunk + Range(|records|, |records'|) && added == |records'| - |records|
  {
    ghost var newRecords: seq<RawRecord> := [];
    records', seen', added := records, seen, 0;
    for k := 0 to |page|
      invariant (newRecords, seen') == Keep(seen, page[..k])
      invariant records' == records + newRecords && added == |newRecords|
    {
      assert page[..k + 1][..k] == page[..k];
      var rec := page[k];
      var u := rec.entryUrl;
      if HasUrl(u) && u.value in seen' {
        continue;
      }
      if HasUrl(u) {
        seen' := seen' + {u.value};
      }
      newRecords := newRecords + [rec];
      records' := records' + [rec];
      added := added + 1;
    }
    assert page[..|page|] == page;
    chunk' := chunk + Range(|records|, |records'|);
  }

  /** What the page loop keeps. `urls` holds the entry URL of each record as it was
      de-duplicated; `seen` is exactly their non-empty ones; the loaded records stay in
      front, unchanged; no URL appended in this run repeats an earlier one; and records
      not yet handed to a detail fetch still carry their URL. */
  ghost predicate Tracked(base: seq<RawRecord>, seen: set<string>, records: seq<RawRecord>, urls: seq<Option<string>>, flushed: nat) {
    && |base| <= flushed <= |records| == |urls|
    && records[..|base|] == base && urls[..|base|] == EntryUrls(base)
    && seen == UrlSet(urls)
    && NewDistinct(urls, |base|)
    && (forall i :: flushed <= i < |records| ==> records[i].entryUrl == urls[i])
  }

  /** The pending indices are `flushed .. n - 1`; the batches handed over hold
      `b .. flushed - 1`, in order. */
  ghost predicate Pending(batches: seq<seq<nat>>, b: nat, flushed: nat, chunk: seq<nat>, n: nat) {
    b <= flushed <= n && Flatten(batches) == Range(b, flushed) && chunk == Range(flushed, n)
  }

  /** URLs that are new to `urls` and pairwise new keep the list pairwise new. */
  lemma DistinctAppend(urls: seq<Option<string>>, b: nat, more: seq<Option<string>>)
    requires NewDistinct(urls, b) && NewDistinct(more, 0)
    requires forall k :: 0 <= k < |more| && HasUrl(more[k]) ==> more[k].value !in UrlSet(urls)
    ensures NewDistinct(urls + more, b)
  {
    var all := urls + more;
    forall i, j | 0 <= i < j < |all| && b <= j && HasUrl(all[j])
      ensures all[i] != all[j]
    {
      if j >= |urls| {
        assert all[j] == more[j - |urls|];
        if i < |urls| {
          if HasUrl(urls[i]) {
            assert urls[i].value in UrlSet(urls);
          }
        } else {
          assert all[i] == more[i - |urls|];
        }
      }
    }
  }

  /** Appending a page's de-duplicated records keeps the loop invariant. */
  lemma AppendTracked(base: seq<RawRecord>, seen: set<string>, records: seq<RawRecord>, urls: seq<Option<string>>,
                      flushed: nat, d: (seq<RawRecord>, set<string>))
    requires Tracked(base, seen, records, urls, flushed) && KeepSound(seen, d)
    ensures Tracked(base, d.1, records + d.0, urls + EntryUrls(d.0), flushed)
  {
    var more := EntryUrls(d.0);
    UrlSetAppend(urls, more);
    DistinctAppend(urls, |base|, more);
    PrefixOfAppend(records, d.0, |base|);
    PrefixOfAppend(urls, more, |base|);
    PendingAppend(records, urls, flushed, d.0);
  }

  lemma PrefixOfAppend<T>(a: seq<T>, b: seq<T>, n: nat)
    requires n <= |a|
    ensures (a + b)[..n] == a[..n]
  {
  }

  /** Appended records carry the URL they were appended with. */
  lemma PendingAppend(records: seq<RawRecord>, urls: seq<Option<string>>, flushed: nat, more: seq<RawRecord>)
    requires |records| == |urls| && forall i :: flushed <= i < |records| ==> records[i].entryUrl == urls[i]
    ensures var r := records + more; var u := urls + EntryUrls(more);
      forall i :: flushed <= i < |r| ==> r[i].entryUrl == u[i]
  {
    var r := records + more;
    var u := urls + EntryUrls(more);
    forall i | flushed <= i < |r|
      ensures r[i].entryUrl == u[i]
    {
      if i >= |records| {
        assert r[i] == more[i - |records|];
      }
    }
  }

  /** One listing page that was fetched: its rows are parsed and de-duplicated into the
      records, and the new indices are queued after the pending ones. */
  method HarvestPage(base: seq<RawRecord>, seen: set<string>, records: seq<RawRecord>, chunk: seq<nat>,
                     rows: seq<Row>, url: string, scrapedAt: string, join: (string, string) -> string,
                     ghost urls: seq<Option<string>>, ghost batches: seq<seq<nat>>, ghost flushed: nat,
                     ghost pages: seq<seq<RawRecord>>, ghost pre: seq<RawRecord>)
    returns (records': seq<RawRecord>, seen': set<string>, chunk': seq<nat>, ghost urls': seq<Option<string>>, ghost pre': seq<RawRecord>)
    requires Tracked(base, seen, records, urls, flushed) && Pending(batches, |base|, flushed, chunk, |records|)
    requires KeepPages(UrlSet(EntryUrls(base)), pages) == (pre, seen) && SameListings(records, base + pre) && urls == EntryUrls(base + pre)
    ensures Tracked(base, seen', records', urls', flushed) && Pending(batches, |base|, flushed, chunk', |records'|)
    ensures var d := Keep(seen, SurveyRecords(rows, url, scrapedAt, join, Full));
      records' == records + d.0 && seen' == d.1 && urls' == urls + EntryUrls(d.0)
    ensures KeepPages(UrlSet(EntryUrls(base)), pages + [SurveyRecords(rows, url, scrapedAt, join, Full)]) == (pre', seen')
    ensures SameListings(records', base + pre') && urls' == EntryUrls(base + pre')
  {
    var pageRecords := ParseSurveyPage(rows, url, scrapedAt, join, Full);
    var added;
    records', seen', chunk', added := AddPage(records, seen, chunk, pageRecords);
    KeepSpec(seen, pageRecords);
    var d := Keep(seen, pageRecords);
    AppendTracked(base, seen, records, urls, flushed, d);
    urls' := urls + EntryUrls(d.0);
    RangeSplit(flushed, |records|, |records'|);
    KeepPagesNext(UrlSet(EntryUrls(base)), pages, base, pre, seen, records, urls, pageRecords, records', seen', urls');
    pre' := KeepPages(UrlSet(EntryUrls(base)), pages + [pageRecords]).0;
  }

  /** Each record has the listing fields of its pre-merge record. */
  predicate SameListings(records: seq<RawRecord>, pre: seq<RawRecord>) {
    |records| == |pre| && forall i :: 0 <= i < |records| ==> SameListing(records[i], pre[i])
  }

  /** The de-duplication of the pages read, one after the other, starting from `seen`:
      the records appended and the final `seen`. */
  function KeepPages(seen: set<string>, pages: seq<seq<RawRecord>>): (seq<RawRecord>, set<string>)
    decreases |pages|
  {
    if pages == [] then ([], seen)
    else
      var prev := KeepPages(seen, pages[..|pages| - 1]);
      var d := Keep(prev.1, pages[|pages| - 1]);
      (prev.0 + d.0, d.1)
  }

  lemma EntryUrlsAppend(a: seq<RawRecord>, b: seq<RawRecord>)
    ensures EntryUrls(a + b) == EntryUrls(a) + EntryUrls(b)
  {
    assert |EntryUrls(a + b)| == |EntryUrls(a) + EntryUrls(b)|;
    forall i | 0 <= i < |a + b|
      ensures EntryUrls(a + b)[i] == (EntryUrls(a) + EntryUrls(b))[i]
    {
      if i >= |a| {
        assert (a + b)[i] == b[i - |a|];
      }
    }
  }

  /** One more page read: its de-duplicated records follow the earlier ones, unmerged. */
  lemma KeepPagesNext(seen0: set<string>, pages: seq<seq<RawRecord>>, base: seq<RawRecord>, pre: seq<RawRecord>, seen: set<string>,
                      records: seq<RawRecord>, urls: seq<Option<string>>, page: seq<RawRecord>,
                      records': seq<RawRecord>, seen': set<string>, urls': seq<Option<string>>)
    requires KeepPages(seen0, pages) == (pre, seen) && SameListings(records, base + pre) && urls == EntryUrls(base + pre)
    requires var d := Keep(seen, page); records' == records + d.0 && seen' == d.1 && urls' == urls + EntryUrls(d.0)
    ensures var h := KeepPages(seen0, pages + [page]);
      h.1 == seen' && SameListings(records', base + h.0) && urls' == EntryUrls(base + h.0)
  {
    assert (pages + [page])[..|pages|] == pages;
    var d := Keep(seen, page);
    assert base + (pre + d.0) == (base + pre) + d.0;
    EntryUrlsAppend(base + pre, d.0);
    forall i | |records| <= i < |records'|
      ensures records'[i] == ((base + pre) + d.0)[i]
    {
    }
  }

  /** What the fold has seen: the starting URLs and those of its records. */
  lemma {:induction false} KeepPagesSeen(seen: set<string>, pages: seq<seq<RawRecord>>)
    ensures var h := KeepPages(seen, pages); h.1 == seen + UrlSet(EntryUrls(h.0))
    decreases |pages|
  {
    if pages != [] {
      var front := pages[..|pages| - 1];
      KeepPagesSeen(seen, front);
      var prev := KeepPages(seen, front);
      KeepSpec(prev.1, pages[|pages| - 1]);
      var d := Keep(prev.1, pages[|pages| - 1]);
      EntryUrlsAppend(prev.0, d.0);
      UrlSetAppend(EntryUrls(prev.0), EntryUrls(d.0));
    }
  }

  /** The fold over the pages drops nothing it should keep: every record of a page read
      without a URL is appended, and every URL on a page read is seen. */
  lemma {:induction false} KeepPagesCovers(seen: set<string>, pages: seq<seq<RawRecord>>)
    ensures var h := KeepPages(seen, pages);
      && seen <= h.1
      && (forall k, j :: 0 <= k < |pages| && 0 <= j < |pages[k]| && !HasUrl(pages[k][j].entryUrl) ==> pages[k][j] in h.0)
      && (forall k, j :: 0 <= k < |pages| && 0 <= j < |pages[k]| && HasUrl(pages[k][j].entryUrl) ==> pages[k][j].entryUrl.value in h.1)
    decreases |pages|
  {
    if pages != [] {
      var n := |pages| - 1;
      var front := pages[..n];
      KeepPagesCovers(seen, front);
      var prev := KeepPages(seen, front);
      KeepCovers(prev.1, pages[n]);
      var h := KeepPages(seen, pages);
      assert multiset(prev.0) <= multiset(h.0);
      forall k, j | 0 <= k < |pages| && 0 <= j < |pages[k]| && !HasUrl(pages[k][j].entryUrl)
        ensures pages[k][j] in h.0
      {
        if k < n {
          assert front[k] == pages[k];
        } else {
          assert k == n;
        }
      }
      forall k, j | 0 <= k < |pages| && 0 <= j < |pages[k]| && HasUrl(pages[k][j].entryUrl)
        ensures pages[k][j].entryUrl.value in h.1
      {
        if k < n {
          assert front[k] == pages[k];
        } else {
          assert k == n;
        }
      }
    }
  }

  /** What the run promises of the pages it read, whatever they hold: every non-empty URL
      on them is the URL of a loaded or appended record. */
  lemma ScrapeFullSeesAll(base: seq<RawRecord>, pages: seq<seq<RawRecord>>, urls: seq<Option<string>>)
    requires urls == EntryUrls(base + KeepPages(UrlSet(EntryUrls(base)), pages).0)
    ensures forall k, j :: 0 <= k < |pages| && 0 <= j < |pages[k]| && HasUrl(pages[k][j].entryUrl) ==> pages[k][j].entryUrl in urls
  {
    var seen0 := UrlSet(EntryUrls(base));
    var h := KeepPages(seen0, pages);
    KeepPagesCovers(seen0, pages);
    KeepPagesSeen(seen0, pages);
    EntryUrlsAppend(base, h.0);
    UrlSetAppend(EntryUrls(base), EntryUrls(h.0));
    assert h.1 == UrlSet(urls);
  }

  /** Every row of a page read without a URL yields a record of the run, after the loaded
      ones, with that row's listing fields kept through the merge. */
  lemma ScrapeFullKeepsUnlinked(base: seq<RawRecord>, pages: seq<seq<RawRecord>>, records: seq<RawRecord>, urls: seq<Option<string>>)
    requires var h := KeepPages(UrlSet(EntryUrls(base)), pages);
      SameListings(records, base + h.0) && urls == EntryUrls(base + h.0)
    ensures forall k, j :: 0 <= k < |pages| && 0 <= j < |pages[k]| && !HasUrl(pages[k][j].entryUrl) ==>
      exists i :: |base| <= i < |records| && SameListing(records[i], pages[k][j]) && urls[i] == pages[k][j].entryUrl
  {
    var h := KeepPages(UrlSet(EntryUrls(base)), pages);
    KeepPagesCovers(UrlSet(EntryUrls(base)), pages);
    forall k, j | 0 <= k < |pages| && 0 <= j < |pages[k]| && !HasUrl(pages[k][j].entryUrl)
      ensures exists i :: |base| <= i < |records| && SameListing(records[i], pages[k][j]) && urls[i] == pages[k][j].entryUrl
    {
      var m :| 0 <= m < |h.0| && h.0[m] == pages[k][j];
      assert (base + h.0)[|base| + m] == h.0[m];
    }
  }

  /** A detail fetch of the pending chunk keeps every record before it. */
  lemma DispatchTracked(base: seq<RawRecord>, seen: set<string>, records: seq<RawRecord>, out: seq<RawRecord>,
                        chunk: seq<nat>, urls: seq<Option<string>>, flushed: nat)
    requires Tracked(base, seen, records, urls, flushed) && flushed <= |records| && chunk == Range(flushed, |records|)
    requires |out| == |records| && forall i :: 0 <= i < |records| && i !in chunk ==> out[i] == records[i]
    ensures Tracked(base, seen, out, urls, |out|)
  {
    forall i | 0 <= i < |base|
      ensures out[i] == records[i]
    {
      assert i !in chunk;
    }
    assert out[..|base|] == records[..|base|];
  }

  /** The loaded records, before any page is read, satisfy the loop invariant. */
  lemma TrackedStart(base: seq<RawRecord>)
    ensures Tracked(base, UrlSet(EntryUrls(base)), base, EntryUrls(base), |base|)
  {
    assert base[..|base|] == base;
    assert EntryUrls(base)[..|base|] == EntryUrls(base);
  }

  /** The detail fetch of the pending chunk: afterwards every new index so far has been
      handed over exactly once, in order, and no record before the chunk has changed. */
  method Dispatch(base: seq<RawRecord>, seen: set<string>, records: seq<RawRecord>, chunk: seq<nat>, fetch: string -> Outcome,
                  ghost urls: seq<Option<string>>, ghost batches: seq<seq<nat>>, ghost flushed: nat, ghost pre: seq<RawRecord>,
                  ghost at: seq<nat>, ghost bound: nat, page: nat)
    returns (out: seq<RawRecord>, failed: nat, ghost batches': seq<seq<nat>>, ghost at': seq<nat>)
    requires Tracked(base, seen, records, urls, flushed) && Pending(batches, |base|, flushed, chunk, |records|)
    requires SameListings(records, pre)
    requires chunk != [] && DispatchedAt(batches, at, bound) && bound <= page <= SurveyPages + 1
    requires page % ChunkSurveyPages == 0 || page == SurveyPages + 1
    ensures |out| == |records| && Tracked(base, seen, out, urls, |out|) && Pending(batches', |base|, |out|, [], |out|)
    ensures SameListings(out, pre)
    ensures batches' == batches + [chunk] && DispatchedAt(batches', at', page + 1)
    ensures failed <= |records| - flushed
  {
    DispatchedNext(batches, at, bound, chunk, page);
    at' := at + [page];
    var updated;
    out, updated, failed := FetchDetailsForIndices(Full, records, chunk, fetch);
    FetchDetailsFrame(Full, records, chunk, fetch);
    FetchDetailsListing(Full, records, chunk, fetch);
    DispatchTracked(base, seen, records, out, chunk, urls, flushed);
    batches' := batches + [chunk];
    assert batches'[..|batches|] == batches;
    RangeSplit(|base|, flushed, |records|);
  }

  /** The pages before `page` that were read, what was parsed from them, and the records
      as the fold over those pages has them, listing fields kept through the merges. */
  ghost predicate PagesHarvested(base: seq<RawRecord>, survey: string -> Option<seq<Row>>, clock: nat -> string,
                                 join: (string, string) -> string, page: nat, pagesRead: seq<nat>, pages: seq<seq<RawRecord>>,
                                 pre: seq<RawRecord>, seen: set<string>, records: seq<RawRecord>, urls: seq<Option<string>>) {
    && HarvestUpdate.PagesReadBefore(survey, pagesRead, page)
    && HarvestUpdate.ParsedPages(survey, clock, join, Full, pagesRead, pages)
    && KeepPages(UrlSet(EntryUrls(base)), pages) == (pre, seen) && SameListings(records, base + pre) && urls == EntryUrls(base + pre)
  }

  /** Before the first page nothing has been read and the loaded records stand alone. */
  lemma HarvestStart(base: seq<RawRecord>, survey: string -> Option<seq<Row>>, clock: nat -> string, join: (string, string) -> string)
    ensures PagesHarvested(base, survey, clock, join, 1, [], [], [], UrlSet(EntryUrls(base)), base, EntryUrls(base))
  {
    assert base + [] == base;
  }

  /** One page of the loop: its listing is fetched; when the fetch fails nothing changes,
      otherwise the page is harvested and recorded as read. */
  method ReadPage(base: seq<RawRecord>, seen: set<string>, records: seq<RawRecord>, chunk: seq<nat>, page: nat,
                  survey: string -> Option<seq<Row>>, clock: nat -> string, join: (string, string) -> string,
                  ghost urls: seq<Option<string>>, ghost batches: seq<seq<nat>>, ghost flushed: nat,
                  ghost pagesRead: seq<nat>, ghost pages: seq<seq<RawRecord>>, ghost pre: seq<RawRecord>)
    returns (records': seq<RawRecord>, seen': set<string>, chunk': seq<nat>, ghost urls': seq<Option<string>>,
             ghost pagesRead': seq<nat>, ghost pages': seq<seq<RawRecord>>, ghost pre': seq<RawRecord>)
    requires 1 <= page <= SurveyPages
    requires Tracked(base, seen, records, urls, flushed) && Pending(batches, |base|, flushed, chunk, |records|)
    requires PagesHarvested(base, survey, clock, join, page, pagesRead, pages, pre, seen, records, urls)
    ensures Tracked(base, seen', records', urls', flushed) && Pending(batches, |base|, flushed, chunk', |records'|)
    ensures PagesHarvested(base, survey, clock, join, page + 1, pagesRead', pages', pre', seen', records', urls')
    ensures survey(HarvestUpdate.PageUrl(page)) == None ==> records' == records && seen' == seen && chunk' == chunk
  {
    var url := HarvestUpdate.PageUrl(page);
    var html := survey(url);
    if html == None {
      HarvestUpdate.PagesReadSkip(survey, pagesRead, page);
      return records, seen, chunk, urls, pagesRead, pages, pre;
    }
    ghost var parsed := SurveyRecords(html.value, url, clock(page), join, Full);
    HarvestUpdate.ParsedPagesNext(survey, clock, join, Full, pagesRead, pages, page);
    HarvestUpdate.PagesReadNext(survey, pagesRead, page);
    records', seen', chunk', urls', pre' := HarvestPage(base, seen, records, chunk, html.value, url, clock(page), join, urls, batches, flushed, pages, pre);
    pagesRead', pages' := pagesRead + [page], pages + [parsed];
  }

  /** The pages at which the batches were handed over: a multiple of the chunk size, or
      (only for the last batch) the end of the run, `SurveyPages + 1`; in increasing
      order, and every batch is non-empty. */
  ghost predicate DispatchedAt(batches: seq<seq<nat>>, at: seq<nat>, bound: nat) {
    && |at| == |batches|
    && (forall k :: 0 <= k < |at| ==> batches[k] != [] && at[k] < bound)
    && (forall k :: 0 <= k < |at| ==> at[k] % ChunkSurveyPages == 0 || (k == |at| - 1 && at[k] == SurveyPages + 1))
    && (forall i, j :: 0 <= i < j < |at| ==> at[i] < at[j])
  }

  lemma DispatchedNext(batches: seq<seq<nat>>, at: seq<nat>, bound: nat, chunk: seq<nat>, page: nat)
    requires DispatchedAt(batches, at, bound) && bound <= page <= SurveyPages + 1 && chunk != []
    requires page % ChunkSurveyPages == 0 || page == SurveyPages + 1
    ensures DispatchedAt(batches + [chunk], at + [page], page + 1)
  {
  }

  /** The page loop of `scrape_data`: every survey page in turn is read, and the pending
      chunk is handed over at every multiple of the chunk size; what is still pending at
      the end is returned in `chunk`. */
  method ReadAllPages(base: seq<RawRecord>, seen0: set<string>, survey: string -> Option<seq<Row>>,
                      fetch: string -> Outcome, clock: nat -> string, join: (string, string) -> string)
    returns (records: seq<RawRecord>, seen: set<string>, chunk: seq<nat>, totalFailed: nat,
             ghost urls: seq<Option<string>>, ghost batches: seq<seq<nat>>, ghost at: seq<nat>, ghost flushed: nat,
             ghost pagesRead: seq<nat>, ghost pages: seq<seq<RawRecord>>, ghost pre: seq<RawRecord>)
    requires seen0 == UrlSet(EntryUrls(base))
    ensures Tracked(base, seen, records, urls, flushed) && Pending(batches, |base|, flushed, chunk, |records|)
    ensures DispatchedAt(batches, at, SurveyPages + 1)
    ensures PagesHarvested(base, survey, clock, join, SurveyPages + 1, pagesRead, pages, pre, seen, records, urls)
    ensures totalFailed <= flushed - |base|
  {
    records, seen, urls := base, seen0, EntryUrls(base);
    TrackedStart(base);
    HarvestStart(base, survey, clock, join);
    chunk := [];
    totalFailed := 0;
    batches, at, pagesRead, pages := [], [], [], [];
    flushed, pre := |base|, [];
    for page := 1 to SurveyPages + 1
      invariant Tracked(base, seen, records, urls, flushed) && Pending(batches, |base|, flushed, chunk, |records|)
      invariant DispatchedAt(batches, at, page)
      invariant PagesHarvested(base, survey, clock, join, page, pagesRead, pages, pre, seen, records, urls)
      invariant totalFailed <= flushed - |base|
    {
      var failed;
      records, seen, chunk, failed, urls, batches, at, flushed, pagesRead, pages, pre :=
        PageStep(base, seen, records, chunk, page, survey, fetch, clock, join, urls, batches, at, flushed, pagesRead, pages, pre);
      totalFailed := totalFailed + failed;
    }
  }

  /** One iteration of the page loop: the page is read, and at a multiple of the chunk size
      the pending chunk is handed over to the detail fetch. */
  method PageStep(base: seq<RawRecord>, seen: set<string>, records: seq<RawRecord>, chunk: seq<nat>, page: nat,
                  survey: string -> Option<seq<Row>>, fetch: string -> Outcome, clock: nat -> string,
                  join: (string, string) -> string, ghost urls: seq<Option<string>>, ghost batches: seq<seq<nat>>,
                  ghost at: seq<nat>, ghost flushed: nat, ghost pagesRead: seq<nat>, ghost pages: seq<seq<RawRecord>>,
                  ghost pre: seq<RawRecord>)
    returns (records': seq<RawRecord>, seen': set<string>, chunk': seq<nat>, failed: nat,
             ghost urls': seq<Option<string>>, ghost batches': seq<seq<nat>>, ghost at': seq<nat>, ghost flushed': nat,
             ghost pagesRead': seq<nat>, ghost pages': seq<seq<RawRecord>>, ghost pre': seq<RawRecord>)
    requires 1 <= page <= SurveyPages
    requires Tracked(base, seen, records, urls, flushed) && Pending(batches, |base|, flushed, chunk, |records|)
    requires DispatchedAt(batches, at, page)
    requires PagesHarvested(base, survey, clock, join, page, pagesRead, pages, pre, seen, records, urls)
    ensures Tracked(base, seen', records', urls', flushed') && Pending(batches', |base|, flushed', chunk', |records'|)
    ensures DispatchedAt(batches', at', page + 1)
    ensures PagesHarvested(base, survey, clock, join, page + 1, pagesRead', pages', pre', seen', records', urls')
    ensures failed <= flushed' - flushed
  {
    records', seen', chunk', urls', pagesRead', pages', pre' :=
      ReadPage(base, seen, records, chunk, page, survey, clock, join, urls, batches, flushed, pagesRead, pages, pre);
    failed, batches', at', flushed' := 0, batches, at, flushed;
    if page % ChunkSurveyPages == 0 && chunk' != [] {
      records', failed, batches', at' := Dispatch(base, seen', records', chunk', fetch, urls', batches, flushed, base + pre', at, page, page);
      chunk', flushed' := [], |records'|;
    }
  }

  /** `scrape_data` of the full revision. `checkpoint` is the content of the checkpoint
      file (None when it is absent or cannot be loaded), `survey` gives the rows of a
      listing page by URL (None when the fetch failed), `fetch` the outcome of a result
      page, `clock` the timestamp taken while parsing each page. The ghost `pagesRead`
      lists the pages whose listing was fetched and `pages` the records parsed from each;
      `urls` holds the entry URL of each record as it was de-duplicated, `batches` the
      index lists handed to the detail fetch and `at` the page after which each was handed
      over. The records are the loaded ones followed by those the de-duplication of `pages`
      appends, each with the listing fields it was appended with. */
  method ScrapeFull(resume: bool, checkpoint: Option<seq<RawRecord>>, survey: string -> Option<seq<Row>>,
                    fetch: string -> Outcome, clock: nat -> string, join: (string, string) -> string)
    returns (records: seq<RawRecord>, totalFailed: nat, ghost pagesRead: seq<nat>, ghost pages: seq<seq<RawRecord>>,
             ghost urls: seq<Option<string>>, ghost batches: seq<seq<nat>>, ghost at: seq<nat>)
    ensures HarvestUpdate.PagesReadBefore(survey, pagesRead, SurveyPages + 1)
    ensures HarvestUpdate.ParsedPages(survey, clock, join, Full, pagesRead, pages)
    ensures var base := Resumed(resume, checkpoint); var h := KeepPages(UrlSet(EntryUrls(base)), pages);
      SameListings(records, base + h.0) && urls == EntryUrls(base + h.0)
    ensures var base := Resumed(resume, checkpoint);
      && |base| <= |records| && records[..|base|] == base
      && |urls| == |records| && urls[..|base|] == EntryUrls(base) && NewDistinct(urls, |base|)
      && Flatten(batches) == Range(|base|, |records|)
    ensures DispatchedAt(batches, at, SurveyPages + 2)
    ensures totalFailed <= |records| - |Resumed(resume, checkpoint)|
  {
    var base := Resumed(resume, checkpoint);
    var seen := SeedSeen(base);
    var chunk;
    ghost var flushed, pre;
    records, seen, chunk, totalFailed, urls, batches, at, flushed, pagesRead, pages, pre :=
      ReadAllPages(base, seen, survey, fetch, clock, join);
    var failed;
    records, failed, batches, at := FinalDispatch(base, seen, records, chunk, fetch, urls, batches, at, flushed, base + pre);
    totalFailed := totalFailed + failed;
  }

  /** After the last page, what is still pending is handed over to the detail fetch; then
      every new record has been handed over exactly once. */
  method FinalDispatch(base: seq<RawRecord>, seen: set<string>, records: seq<RawRecord>, chunk: seq<nat>, fetch: string -> Outcome,
                       ghost urls: seq<Option<string>>, ghost batches: seq<seq<nat>>, ghost at: seq<nat>, ghost flushed: nat,
                       ghost pre: seq<RawRecord>)
    returns (out: seq<RawRecord>, failed: nat, ghost batches': seq<seq<nat>>, ghost at': seq<nat>)
    requires Tracked(base, seen, records, urls, flushed) && Pending(batches, |base|, flushed, chunk, |records|)
    requires DispatchedAt(batches, at, SurveyPages + 1) && SameListings(records, pre)
    ensures SameListings(out, pre)
    ensures && |base| <= |out| && out[..|base|] == base
            && |urls| == |out| && urls[..|base|] == EntryUrls(base) && NewDistinct(urls, |base|)
            && Flatten(batches') == Range(|base|, |out|)
    ensures DispatchedAt(batches', at', SurveyPages + 2)
    ensures chunk == [] ==> out == records && batches' == batches
    ensures failed <= |out| - flushed
  {
    if chunk == [] {
      return records, 0, batches, at;
    }
    out, failed, batches', at' := Dispatch(base, seen, records, chunk, fetch, urls, batches, flushed, pre, at, SurveyPages + 1, SurveyPages + 1);
  }
}
