/** `_fetch_details_for_indices` of both harvester revisions: the records at the given
    indices whose canonical entry URL is valid become tasks, each task's result page is
    fetched and its fields are merged into that record. The worker pool is modelled as a
    sequential loop over the tasks in order; task `i` writes only `records[i]`. */
module DetailFetch {
  import opened Util
  import opened ResultUrl
  import opened ScrapeHelpers
  import opened ScrapePages

  /** What the worker of one task hands back: the lines of the result page (None when
      the page could not be fetched), or an exception, which counts as a failure. */
  datatype Outcome = Crashed | Fetched(page: Option<seq<string>>)

  /** One task: the record index and its canonical entry URL. */
  datatype Task = Task(index: nat, url: string)

  /** What `_parse_result_page` yields for a fetched or unfetchable page. */
  function DetailOfPage(page: Option<seq<string>>, rev: Revision): Detail {
    if page == None then NoDetail else DetailOf(page.value, rev)
  }

  /** The merge of one detail result into its record. The notes replace the listing
      comments only when they are non-empty; the update revision always copies
      `is_international`, the full revision only when the detail carries an origin. */
  function Merge(rev: Revision, r: RawRecord, d: Detail): (m: RawRecord)
    ensures m.entryUrl == r.entryUrl
  {
    var intl := match rev
      case Update => d.isInternational
      case Full => if d.origin != None then d.isInternational else None;
    r.(comments := if d.detailComments.Some? && d.detailComments.value != "" then d.detailComments else r.comments,
       degree := d.degree,
       degreeLevel := d.degreeLevel,
       startTerm := d.startTerm,
       startYear := d.startYear,
       isInternational := intl,
       gpa := CleanBadLabelValues(d.gpa),
       greTotal := CleanBadLabelValues(d.greTotal),
       greV := CleanBadLabelValues(d.greV),
       greAw := CleanBadLabelValues(d.greAw))
  }

  /** What a merge keeps and what it takes from the detail. */
  lemma MergeShape(rev: Revision, r: RawRecord, d: Detail)
    ensures var m := Merge(rev, r, d);
      && m.program == r.program && m.university == r.university && m.datePosted == r.datePosted
      && m.status == r.status && m.acceptedDate == r.acceptedDate && m.rejectedDate == r.rejectedDate
      && m.sourceUrl == r.sourceUrl && m.scrapedAt == r.scrapedAt
      && (m.comments != r.comments ==> m.comments == d.detailComments && d.detailComments != Some(""))
      && (d.detailComments == None || d.detailComments == Some("") ==> m.comments == r.comments)
      && m.degree == d.degree && m.degreeLevel == d.degreeLevel
      && m.startTerm == d.startTerm && m.startYear == d.startYear
      && (rev == Update ==> m.isInternational == d.isInternational)
      && (rev == Full ==> m.isInternational == (if d.origin == None then None else d.isInternational))
      && CleanBadLabelValues(m.gpa) == m.gpa && CleanBadLabelValues(m.greTotal) == m.greTotal
      && CleanBadLabelValues(m.greV) == m.greV && CleanBadLabelValues(m.greAw) == m.greAw
  {
    CleanBadLabelValuesIdempotent(d.gpa);
    CleanBadLabelValuesIdempotent(d.greTotal);
    CleanBadLabelValuesIdempotent(d.greV);
    CleanBadLabelValuesIdempotent(d.greAw);
  }

  /** The fields a record takes from its listing row, which neither the canonicalisation
      of its URL nor a merge touches. */
  predicate SameListing(m: RawRecord, r: RawRecord) {
    && m.program == r.program && m.university == r.university && m.datePosted == r.datePosted
    && m.status == r.status && m.acceptedDate == r.acceptedDate && m.rejectedDate == r.rejectedDate
    && m.sourceUrl == r.sourceUrl && m.scrapedAt == r.scrapedAt
  }

  /** A valid entry URL that canonicalisation leaves as it is. */
  predicate FixedUrl(rev: Revision, u: Option<string>) {
    ValidResultUrl(u) && CanonicalFor(rev, u) == u
  }

  predicate IndicesIn(indices: seq<nat>, n: nat) {
    forall k :: 0 <= k < |indices| ==> indices[k] < n
  }

  predicate TasksIn(tasks: seq<Task>, n: nat) {
    forall k :: 0 <= k < |tasks| ==> tasks[k].index < n
  }

  /** One index of the first loop: its entry URL is canonicalised; a valid one is written
      back and becomes a task. */
  function PrepareStep(rev: Revision, prev: (seq<RawRecord>, seq<Task>), i: nat): (q: (seq<RawRecord>, seq<Task>))
    requires i < |prev.0|
    ensures |q.0| == |prev.0| && |q.1| <= |prev.1| + 1
  {
    var u := CanonicalFor(rev, prev.0[i].entryUrl);
    if ValidResultUrl(u) then (prev.0[i := prev.0[i].(entryUrl := u)], prev.1 + [Task(i, u.value)])
    else prev
  }

  /** The first loop: every index in turn has its entry URL canonicalised; a valid one is
      written back and becomes a task. */
  function Prepared(rev: Revision, records: seq<RawRecord>, indices: seq<nat>): (p: (seq<RawRecord>, seq<Task>))
    requires IndicesIn(indices, |records|)
    ensures |p.0| == |records| && TasksIn(p.1, |records|) && |p.1| <= |indices|
    decreases |indices|
  {
    if indices == [] then (records, [])
    else PrepareStep(rev, Prepared(rev, records, indices[..|indices| - 1]), indices[|indices| - 1])
  }

  /** One task's outcome applied to the records and the counts (updated, failed): a
      crashed worker counts as failed, a fetched page is merged into its record. */
  function ApplyTask(rev: Revision, a: (seq<RawRecord>, nat, nat), t: Task, fetch: string -> Outcome): (b: (seq<RawRecord>, nat, nat))
    requires t.index < |a.0|
    ensures |b.0| == |a.0| && b.1 + b.2 == a.1 + a.2 + 1
  {
    match fetch(t.url)
    case Crashed => (a.0, a.1, a.2 + 1)
    case Fetched(page) => (a.0[t.index := Merge(rev, a.0[t.index], DetailOfPage(page, rev))], a.1 + 1, a.2)
  }

  /** The second loop: each task's outcome is merged into its record, or counted as a
      failure. The result is the records, the updated count and the failed count. */
  function Applied(rev: Revision, records: seq<RawRecord>, tasks: seq<Task>, fetch: string -> Outcome): (a: (seq<RawRecord>, nat, nat))
    requires TasksIn(tasks, |records|)
    ensures |a.0| == |records| && a.1 + a.2 == |tasks|
    decreases |tasks|
  {
    if tasks == [] then (records, 0, 0)
    else ApplyTask(rev, Applied(rev, records, tasks[..|tasks| - 1], fetch), tasks[|tasks| - 1], fetch)
  }

  /** The first loop of `_fetch_details_for_indices`. */
  method PrepareTasks(rev: Revision, records: seq<RawRecord>, indices: seq<nat>)
    returns (out: seq<RawRecord>, tasks: seq<Task>)
    requires IndicesIn(indices, |records|)
    ensures (out, tasks) == Prepared(rev, records, indices)
  {
    out := records;
    tasks := [];
    for k := 0 to |indices|
      invariant (out, tasks) == Prepared(rev, records, indices[..k])
    {
      assert indices[..k + 1][..k] == indices[..k];
      var i := indices[k];
      var u := CanonicalFor(rev, out[i].entryUrl);
      if ValidResultUrl(u) {
        out := out[i := out[i].(entryUrl := u)];
        tasks := tasks + [Task(i, u.value)];
      }
    }
    assert indices[..|indices|] == indices;
  }

  /** One worker: fetch the task's page, parse it, merge it into its record. */
  method RunTask(rev: Revision, records: seq<RawRecord>, updated: nat, failed: nat, t: Task, fetch: string -> Outcome)
    returns (out: seq<RawRecord>, updated': nat, failed': nat)
    requires t.index < |records|
    ensures (out, updated', failed') == ApplyTask(rev, (records, updated, failed), t, fetch)
  {
    var outcome := fetch(t.url);
    if outcome.Crashed? {
      return records, updated, failed + 1;
    }
    var d := ParseResultPage(outcome.page, rev);
    out := records[t.index := Merge(rev, records[t.index], d)];
    updated', failed' := updated + 1, failed;
  }

  /** The second loop of `_fetch_details_for_indices`, one task after the other. */
  method RunTasks(rev: Revision, records: seq<RawRecord>, tasks: seq<Task>, fetch: string -> Outcome)
    returns (out: seq<RawRecord>, updated: nat, failed: nat)
    requires TasksIn(tasks, |records|)
    ensures (out, updated, failed) == Applied(rev, records, tasks, fetch)
  {
    out, updated, failed := records, 0, 0;
    for k := 0 to |tasks|
      invariant (out, updated, failed) == Applied(rev, records, tasks[..k], fetch)
    {
      assert tasks[..k + 1][..k] == tasks[..k];
      out, updated, failed := RunTask(rev, out, updated, failed, tasks[k], fetch);
    }
    assert tasks[..|tasks|] == tasks;
  }

  /** `_fetch_details_for_indices`: the records after the merge and the counts
      (updated, failed); (0, 0) and nothing changed when there is no task. */
  method FetchDetailsForIndices(rev: Revision, records: seq<RawRecord>, indices: seq<nat>, fetch: string -> Outcome)
    returns (out: seq<RawRecord>, updated: nat, failed: nat)
    requires IndicesIn(indices, |records|)
    ensures var p := Prepared(rev, records, indices);
      (out, updated, failed) == Applied(rev, p.0, p.1, fetch)
    ensures |out| == |records|
    ensures updated + failed == |Prepared(rev, records, indices).1|
    ensures Prepared(rev, records, indices).1 == [] ==> out == records && updated == 0 && failed == 0
  {
    var tasks;
    out, tasks := PrepareTasks(rev, records, indices);
    if tasks == [] {
      PreparedNoTasks(rev, records, indices);
      return out, 0, 0;
    }
    out, updated, failed := RunTasks(rev, out, tasks, fetch);
  }

  /** Without tasks the first loop changed nothing. */
  lemma {:induction false} PreparedNoTasks(rev: Revision, records: seq<RawRecord>, indices: seq<nat>)
    requires IndicesIn(indices, |records|)
    requires Prepared(rev, records, indices).1 == []
    ensures Prepared(rev, records, indices).0 == records
    decreases |indices|
  {
    if indices != [] {
      var front := indices[..|indices| - 1];
      var prev := Prepared(rev, records, front);
      var u := CanonicalFor(rev, prev.0[indices[|indices| - 1]].entryUrl);
      assert !ValidResultUrl(u);
      PreparedNoTasks(rev, records, front);
    }
  }

  /** Only the given indices with a valid canonical URL become tasks, each carrying that
      URL; the first loop changes nothing but entry URLs, and only at the given indices. */
  /** One step touches only the entry URL of record `i` and adds at most the task for
      `i`, whose URL is valid. */
  lemma PrepareStepKeeps(rev: Revision, prev: (seq<RawRecord>, seq<Task>), i: nat)
    requires i < |prev.0|
    ensures var q := PrepareStep(rev, prev, i);
      && q.1[..|prev.1|] == prev.1
      && (forall k :: |prev.1| <= k < |q.1| ==> q.1[k].index == i && ValidResultUrl(Some(q.1[k].url)))
      && (forall j :: 0 <= j < |prev.0| ==> q.0[j] == prev.0[j].(entryUrl := q.0[j].entryUrl))
      && (forall j :: 0 <= j < |prev.0| && j != i ==> q.0[j] == prev.0[j])
  {
    var u := CanonicalFor(rev, prev.0[i].entryUrl);
    if ValidResultUrl(u) {
      assert (prev.1 + [Task(i, u.value)])[..|prev.1|] == prev.1;
    } else {
      assert prev.1[..|prev.1|] == prev.1;
    }
  }

  lemma {:induction false} PreparedTasks(rev: Revision, records: seq<RawRecord>, indices: seq<nat>)
    requires IndicesIn(indices, |records|)
    ensures var p := Prepared(rev, records, indices);
      && (forall k :: 0 <= k < |p.1| ==> p.1[k].index in indices && ValidResultUrl(Some(p.1[k].url)))
      && (forall i :: 0 <= i < |records| ==> p.0[i] == records[i].(entryUrl := p.0[i].entryUrl))
      && (forall i :: 0 <= i < |records| && i !in indices ==> p.0[i] == records[i])
    decreases |indices|
  {
    if indices != [] {
      var front := indices[..|indices| - 1];
      PreparedTasks(rev, records, front);
      var prev := Prepared(rev, records, front);
      PrepareStepKeeps(rev, prev, indices[|indices| - 1]);
      var p := Prepared(rev, records, indices);
      forall k | 0 <= k < |p.1|
        ensures p.1[k].index in indices && ValidResultUrl(Some(p.1[k].url))
      {
        if k < |prev.1| {
          assert p.1[k] == prev.1[k];
          assert prev.1[k].index in front;
        }
      }
    }
  }

  /** A record whose entry URL is valid and a fixed point of canonicalisation becomes a
      task with that URL unchanged: over such records the first loop changes nothing. */
  lemma {:induction false} PreparedFixed(rev: Revision, records: seq<RawRecord>, indices: seq<nat>)
    requires IndicesIn(indices, |records|)
    requires forall k :: 0 <= k < |indices| ==> FixedUrl(rev, records[indices[k]].entryUrl)
    ensures var p := Prepared(rev, records, indices);
      p.0 == records && |p.1| == |indices|
    decreases |indices|
  {
    if indices != [] {
      var front := indices[..|indices| - 1];
      PreparedFixed(rev, records, front);
      var prev := Prepared(rev, records, front);
      var i := indices[|indices| - 1];
      assert prev.0 == records;
      assert FixedUrl(rev, records[i].entryUrl);
    }
  }

  /** Only records named by a task change in the second loop, and the merge never touches
      an entry URL. */
  lemma {:induction false} AppliedKeeps(rev: Revision, records: seq<RawRecord>, tasks: seq<Task>, fetch: string -> Outcome)
    requires TasksIn(tasks, |records|)
    ensures var a := Applied(rev, records, tasks, fetch);
      && (forall i :: 0 <= i < |records| && (forall k :: 0 <= k < |tasks| ==> tasks[k].index != i) ==> a.0[i] == records[i])
      && (forall i :: 0 <= i < |records| ==> a.0[i].entryUrl == records[i].entryUrl)
    decreases |tasks|
  {
    if tasks != [] {
      AppliedKeeps(rev, records, tasks[..|tasks| - 1], fetch);
    }
  }

  /** No record outside the given indices is modified, and entry URLs change only where
      the first loop wrote back a canonical form. */
  lemma FetchDetailsFrame(rev: Revision, records: seq<RawRecord>, indices: seq<nat>, fetch: string -> Outcome)
    requires IndicesIn(indices, |records|)
    ensures var p := Prepared(rev, records, indices); var a := Applied(rev, p.0, p.1, fetch);
      && (forall i :: 0 <= i < |records| && i !in indices ==> a.0[i] == records[i])
      && (forall i :: 0 <= i < |records| ==> a.0[i].entryUrl == p.0[i].entryUrl)
  {
    var p := Prepared(rev, records, indices);
    PreparedTasks(rev, records, indices);
    AppliedKeeps(rev, p.0, p.1, fetch);
  }

  /** Over records whose URLs are valid fixed points, the entry URLs come out unchanged. */
  lemma FetchDetailsKeepsFixedUrls(rev: Revision, records: seq<RawRecord>, indices: seq<nat>, fetch: string -> Outcome)
    requires IndicesIn(indices, |records|)
    requires forall k :: 0 <= k < |indices| ==> FixedUrl(rev, records[indices[k]].entryUrl)
    ensures var p := Prepared(rev, records, indices); var a := Applied(rev, p.0, p.1, fetch);
      forall i :: 0 <= i < |records| ==> a.0[i].entryUrl == records[i].entryUrl
  {
    var p := Prepared(rev, records, indices);
    PreparedFixed(rev, records, indices);
    AppliedKeeps(rev, p.0, p.1, fetch);
  }

  /** The second loop keeps every record's listing fields. */
  lemma {:induction false} AppliedListing(rev: Revision, records: seq<RawRecord>, tasks: seq<Task>, fetch: string -> Outcome)
    requires TasksIn(tasks, |records|)
    ensures var a := Applied(rev, records, tasks, fetch);
      forall i :: 0 <= i < |records| ==> SameListing(a.0[i], records[i])
    decreases |tasks|
  {
    if tasks != [] {
      var front := tasks[..|tasks| - 1];
      var t := tasks[|tasks| - 1];
      AppliedListing(rev, records, front, fetch);
      var prev := Applied(rev, records, front, fetch);
      ApplyTaskListing(rev, prev, t, fetch);
      var a := Applied(rev, records, tasks, fetch);
      forall i | 0 <= i < |records|
        ensures SameListing(a.0[i], records[i])
      {
        assert SameListing(a.0[i], prev.0[i]) && SameListing(prev.0[i], records[i]);
      }
    }
  }

  /** One task keeps every record's listing fields. */
  lemma ApplyTaskListing(rev: Revision, a: (seq<RawRecord>, nat, nat), t: Task, fetch: string -> Outcome)
    requires t.index < |a.0|
    ensures var b := ApplyTask(rev, a, t, fetch); forall i :: 0 <= i < |a.0| ==> SameListing(b.0[i], a.0[i])
  {
    match fetch(t.url)
    case Crashed =>
    case Fetched(page) =>
      var m := Merge(rev, a.0[t.index], DetailOfPage(page, rev));
      MergeListing(rev, a.0[t.index], DetailOfPage(page, rev));
      assert ApplyTask(rev, a, t, fetch).0 == a.0[t.index := m];
  }

  /** A merge keeps the listing fields. */
  lemma MergeListing(rev: Revision, r: RawRecord, d: Detail)
    ensures SameListing(Merge(rev, r, d), r)
  {
  }

  /** `_fetch_details_for_indices` keeps every record's listing fields: only the entry URL
      and the fields of the result page can change. */
  lemma FetchDetailsListing(rev: Revision, records: seq<RawRecord>, indices: seq<nat>, fetch: string -> Outcome)
    requires IndicesIn(indices, |records|)
    ensures var p := Prepared(rev, records, indices); var a := Applied(rev, p.0, p.1, fetch);
      forall i :: 0 <= i < |records| ==> SameListing(a.0[i], records[i])
  {
    var p := Prepared(rev, records, indices);
    PreparedTasks(rev, records, indices);
    AppliedListing(rev, p.0, p.1, fetch);
    forall i | 0 <= i < |records|
      ensures SameListing(p.0[i], records[i])
    {
      assert p.0[i] == records[i].(entryUrl := p.0[i].entryUrl);
    }
  }
}
