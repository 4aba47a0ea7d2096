/** `clean_data` of the clean-update revision: every scraped record becomes a row of a
    fixed 19-field schema, its texts cleaned, its nationality labelled and a missing
    start term or year read off the comments, status, program and university. */
module CleanUpdate {
  import opened Util
  import opened PyJson
  import opened CleanText
  import opened TermInfer
  import opened TermFill

  /** The output schema. */
  const RequiredKeys: seq<string> := [
    "program", "university", "comments", "date_posted", "entry_url", "applicant_status",
    "accepted_date", "rejected_date", "start_term", "start_year", "US/International",
    "gre_total", "gre_v", "gre_aw", "degree_level", "degree", "GPA", "source_url", "scraped_at"]

  /** A cleaned row, one field per key of the schema. */
  datatype CleanRow = CleanRow(
    program: Json, university: Json, comments: Json, datePosted: Json, entryUrl: Json,
    applicantStatus: Json, acceptedDate: Json, rejectedDate: Json, startTerm: Json,
    startYear: Json, usIntl: Json, greTotal: Json, greV: Json, greAw: Json,
    degreeLevel: Json, degree: Json, gpa: Json, sourceUrl: Json, scrapedAt: Json)

  /** The row as the JSON object the stage writes. */
  function AsRecord(row: CleanRow): Record {
    map[
      "program" := row.program, "university" := row.university, "comments" := row.comments,
      "date_posted" := row.datePosted, "entry_url" := row.entryUrl,
      "applicant_status" := row.applicantStatus, "accepted_date" := row.acceptedDate,
      "rejected_date" := row.rejectedDate, "start_term" := row.startTerm,
      "start_year" := row.startYear, "US/International" := row.usIntl,
      "gre_total" := row.greTotal, "gre_v" := row.greV, "gre_aw" := row.greAw,
      "degree_level" := row.degreeLevel, "degree" := row.degree, "GPA" := row.gpa,
      "source_url" := row.sourceUrl, "scraped_at" := row.scrapedAt]
  }

  /** Every row carries exactly the keys of the schema. */
  lemma AsRecordKeys(row: CleanRow)
    ensures forall k :: k in AsRecord(row) <==> k in RequiredKeys
  {
  }

  /** `r.get("gpa") if "gpa" in r else r.get("GPA")`. */
  function GpaRaw(r: Record): Json {
    if "gpa" in r then r["gpa"] else Get(r, "GPA")
  }

  /** The program and university take the raw field when it is truthy and the plain one
      otherwise. */
  function ProgramText(r: Record): Json { Or(Get(r, "program_name_raw"), Get(r, "program")) }

  function UniversityText(r: Record): Json { Or(Get(r, "university_raw"), Get(r, "university")) }

  /** The three texts cleaned; TypeError when `re.sub` meets a value that is not a string. */
  function CleanTexts(r: Record): Result<Texts> {
    var program := CleanTextValue(ProgramText(r));
    var university := CleanTextValue(UniversityText(r));
    var comments := CleanTextValue(Get(r, "comments"));
    if program.TypeError? || university.TypeError? || comments.TypeError? then TypeError
    else Ok(Texts(program.value, university.value, comments.value))
  }

  /** The row once the texts, the status and the start term and year are settled. */
  function Assemble(r: Record, tx: Texts, status: Json, term: Json, year: Json): CleanRow {
    CleanRow(
      tx.program, tx.university, tx.comments,
      NormalizeValue(Get(r, "date_posted")), NormalizeValue(Get(r, "entry_url")), status,
      NormalizeValue(Get(r, "accepted_date")), NormalizeValue(Get(r, "rejected_date")),
      term, year, NationalityLabel(Get(r, "is_international")),
      NormalizeValue(Get(r, "gre_total")), NormalizeValue(Get(r, "gre_v")),
      NormalizeValue(Get(r, "gre_aw")), NormalizeValue(Get(r, "degree_level")),
      NormalizeValue(Get(r, "degree")), NormalizeValue(GpaRaw(r)),
      NormalizeValue(Get(r, "source_url")), NormalizeValue(Get(r, "scraped_at")))
  }

  /** The loop body of `clean_data` with a given inference: one record to one row, or
      the TypeError the cleaning or the inference raises. */
  function CleanRecordWith(r: Record, infer: Inference): Result<CleanRow> {
    match CleanTexts(r)
    case TypeError => TypeError
    case Ok(tx) =>
      var status := NormalizeValue(Get(r, "applicant_status"));
      var term := NormalizeValue(Get(r, "start_term"));
      var year := NormalizeValue(Get(r, "start_year"));
      var inferred := if NeedsInference(term, year) then infer(InferenceTexts(tx, status)) else Ok(NoneInferred);
      match inferred
      case TypeError => TypeError
      case Ok(inf) => Ok(Assemble(r, tx, status, Fill(term, inf.term), Fill(year, inf.year)))
  }

  /** The loop body of the clean-update revision. */
  function CleanRecord(r: Record): Result<CleanRow> {
    CleanRecordWith(r, InferUpdate)
  }

  /** The cleaning fails exactly when one of the three texts is a boolean or an
      integer. */
  lemma CleanTextsFail(r: Record)
    ensures CleanTexts(r).TypeError? <==>
      || ProgramText(r).Bool? || ProgramText(r).Int?
      || UniversityText(r).Bool? || UniversityText(r).Int?
      || Get(r, "comments").Bool? || Get(r, "comments").Int?
    ensures CleanTexts(r).Ok? ==> TidyTexts(CleanTexts(r).value)
  {
  }

  /** A record of the clean-update revision fails exactly when one of the three cleaned
      texts is a boolean or an integer, or when the inference must run and the status
      is a truthy value that is not a string. */
  lemma CleanRecordFails(r: Record)
    ensures CleanRecord(r).TypeError? <==>
      || CleanTexts(r).TypeError?
      || (&& NeedsInference(NormalizeValue(Get(r, "start_term")), NormalizeValue(Get(r, "start_year")))
          && Truthy(Get(r, "applicant_status")) && !Get(r, "applicant_status").Str?)
  {
    CleanTextsFail(r);
    if CleanTexts(r).Ok? {
      HaystackFails(CleanTexts(r).value, NormalizeValue(Get(r, "applicant_status")));
    }
  }

  /** What a cleaned row holds: tidy texts and a nationality label. */
  lemma CleanRecordShape(r: Record, infer: Inference)
    requires CleanRecordWith(r, infer).Ok?
    ensures var row := CleanRecordWith(r, infer).value;
      && TidyText(row.program) && TidyText(row.university) && TidyText(row.comments)
      && (row.usIntl == Null || row.usIntl == Str("International") || row.usIntl == Str("American"))
      && row.usIntl == NationalityLabel(Get(r, "is_international"))
  {
    CleanTextsFail(r);
  }

  /** The start term and year are never overwritten: a value the record gives (after
      cleaning) is kept, and only a missing one is filled, with a season or a year of
      the form "20dd". */
  lemma CleanRecordTermYear(r: Record, infer: Inference)
    requires SoundInference(infer) && CleanRecordWith(r, infer).Ok?
    ensures var row := CleanRecordWith(r, infer).value;
      var term := NormalizeValue(Get(r, "start_term"));
      var year := NormalizeValue(Get(r, "start_year"));
      && (term != Null ==> row.startTerm == term)
      && (year != Null ==> row.startYear == year)
      && (term == Null && row.startTerm != Null ==> row.startTerm.Str? && IsTerm(row.startTerm.s))
      && (year == Null && row.startYear != Null ==> row.startYear.Str? && IsYear(row.startYear.s))
  {
  }

  // ----- cleaning a cleaned row -----

  /** What the cleaner reads from `rec` is what `row` holds, with no nationality. */
  ghost predicate ReadsBack(rec: Record, row: CleanRow) {
    && ProgramText(rec) == Or(Null, row.program) && UniversityText(rec) == Or(Null, row.university)
    && Get(rec, "comments") == row.comments && Get(rec, "applicant_status") == row.applicantStatus
    && Get(rec, "start_term") == row.startTerm && Get(rec, "start_year") == row.startYear
    && Get(rec, "is_international") == Null && GpaRaw(rec) == row.gpa
    && Get(rec, "date_posted") == row.datePosted && Get(rec, "entry_url") == row.entryUrl
    && Get(rec, "accepted_date") == row.acceptedDate && Get(rec, "rejected_date") == row.rejectedDate
    && Get(rec, "gre_total") == row.greTotal && Get(rec, "gre_v") == row.greV
    && Get(rec, "gre_aw") == row.greAw && Get(rec, "degree_level") == row.degreeLevel
    && Get(rec, "degree") == row.degree && Get(rec, "source_url") == row.sourceUrl
    && Get(rec, "scraped_at") == row.scrapedAt
  }

  lemma AsRecordReadsTexts(row: CleanRow)
    ensures var rec := AsRecord(row);
      && ProgramText(rec) == Or(Null, row.program) && UniversityText(rec) == Or(Null, row.university)
      && Get(rec, "comments") == row.comments && Get(rec, "applicant_status") == row.applicantStatus
  {
  }

  lemma AsRecordReadsTerm(row: CleanRow)
    ensures var rec := AsRecord(row);
      && Get(rec, "start_term") == row.startTerm && Get(rec, "start_year") == row.startYear
      && Get(rec, "is_international") == Null && GpaRaw(rec) == row.gpa
  {
  }

  lemma AsRecordReadsDates(row: CleanRow)
    ensures var rec := AsRecord(row);
      && Get(rec, "date_posted") == row.datePosted && Get(rec, "entry_url") == row.entryUrl
      && Get(rec, "accepted_date") == row.acceptedDate && Get(rec, "rejected_date") == row.rejectedDate
  {
  }

  lemma AsRecordReadsScores(row: CleanRow)
    ensures var rec := AsRecord(row);
      && Get(rec, "gre_total") == row.greTotal && Get(rec, "gre_v") == row.greV
      && Get(rec, "gre_aw") == row.greAw && Get(rec, "degree_level") == row.degreeLevel
      && Get(rec, "degree") == row.degree && Get(rec, "source_url") == row.sourceUrl
      && Get(rec, "scraped_at") == row.scrapedAt
  {
  }

  /** The written row reads back as itself, without the nationality. */
  lemma AsRecordReadsBack(row: CleanRow)
    ensures ReadsBack(AsRecord(row), row)
  {
    AsRecordReadsTexts(row);
    AsRecordReadsTerm(row);
    AsRecordReadsDates(row);
    AsRecordReadsScores(row);
  }

  /** The texts of a written row clean to themselves. */
  lemma CleanTextsAgain(r: Record, row: CleanRow, rec: Record)
    requires CleanTexts(r).Ok? && ReadsBack(rec, row)
    requires var tx := CleanTexts(r).value;
      row.program == tx.program && row.university == tx.university && row.comments == tx.comments
    ensures CleanTexts(rec) == CleanTexts(r)
  {
    CleanTextIdempotent(ProgramText(r));
    CleanTextIdempotent(UniversityText(r));
    CleanTextIdempotent(Get(r, "comments"));
  }

  /** The scalar fields of a written row normalise to themselves. */
  lemma AssembleAgain(r: Record, row: CleanRow, rec: Record, tx: Texts, status: Json, term: Json, year: Json)
    requires row == Assemble(r, tx, status, term, year) && ReadsBack(rec, row)
    ensures Assemble(rec, tx, status, term, year) == row.(usIntl := Null)
  {
    NormalizeValueIdempotent(Get(r, "date_posted"));
    NormalizeValueIdempotent(Get(r, "entry_url"));
    NormalizeValueIdempotent(Get(r, "accepted_date"));
    NormalizeValueIdempotent(Get(r, "rejected_date"));
    NormalizeValueIdempotent(Get(r, "gre_total"));
    NormalizeValueIdempotent(Get(r, "gre_v"));
    NormalizeValueIdempotent(Get(r, "gre_aw"));
    NormalizeValueIdempotent(Get(r, "degree_level"));
    NormalizeValueIdempotent(Get(r, "degree"));
    NormalizeValueIdempotent(GpaRaw(r));
    NormalizeValueIdempotent(Get(r, "source_url"));
    NormalizeValueIdempotent(Get(r, "scraped_at"));
  }

  /** Re-cleaning any record that reads back as a cleaned row gives that row again. */
  lemma CleanAgain(r: Record, infer: Inference, rec: Record)
    requires SoundInference(infer) && CleanRecordWith(r, infer).Ok?
    requires ReadsBack(rec, CleanRecordWith(r, infer).value)
    ensures CleanRecordWith(rec, infer) == Ok(CleanRecordWith(r, infer).value.(usIntl := Null))
  {
    var row := CleanRecordWith(r, infer).value;
    var tx := CleanTexts(r).value;
    var status := NormalizeValue(Get(r, "applicant_status"));
    var term := NormalizeValue(Get(r, "start_term"));
    var year := NormalizeValue(Get(r, "start_year"));
    var inf := if NeedsInference(term, year) then infer(InferenceTexts(tx, status)).value else NoneInferred;
    assert row == Assemble(r, tx, status, Fill(term, inf.term), Fill(year, inf.year));
    CleanTextsAgain(r, row, rec);
    AssembleAgain(r, row, rec, tx, status, Fill(term, inf.term), Fill(year, inf.year));
    NormalizeValueIdempotent(Get(r, "applicant_status"));
    CleanRecordTermYear(r, infer);
    NormalizeValueIdempotent(Get(r, "start_term"));
    NormalizeValueIdempotent(Get(r, "start_year"));
    NormalizeFilled(term, inf.term);
    NormalizeFilled(year, inf.year);
    assert NormalizeValue(Get(rec, "applicant_status")) == status;
    assert NormalizeValue(Get(rec, "start_term")) == Fill(term, inf.term);
    assert NormalizeValue(Get(rec, "start_year")) == Fill(year, inf.year);
    FillTwice(term, inf.term);
    FillTwice(year, inf.year);
  }

  /** Cleaning a written row again yields the same row, except for the nationality: the
      row carries it under "US/International" while the cleaner reads "is_international",
      so the second pass finds none. */
  lemma CleanRowAgain(r: Record, infer: Inference)
    requires SoundInference(infer) && CleanRecordWith(r, infer).Ok?
    ensures CleanRecordWith(AsRecord(CleanRecordWith(r, infer).value), infer)
      == Ok(CleanRecordWith(r, infer).value.(usIntl := Null))
  {
    AsRecordReadsBack(CleanRecordWith(r, infer).value);
    CleanAgain(r, infer, AsRecord(CleanRecordWith(r, infer).value));
  }

  // ----- the loop -----

  /** `clean_data`: one row per record, in order; the first record that raises
      TypeError ends the run. */
  method CleanData(records: seq<Record>, infer: Inference) returns (out: Result<seq<CleanRow>>)
    ensures out.TypeError? <==> exists i :: 0 <= i < |records| && CleanRecordWith(records[i], infer).TypeError?
    ensures out.Ok? ==>
      |out.value| == |records| && forall i :: 0 <= i < |records| ==> CleanRecordWith(records[i], infer) == Ok(out.value[i])
  {
    var rows: seq<CleanRow> := [];
    var i := 0;
    while i < |records|
      invariant 0 <= i <= |records| && |rows| == i
      invariant forall j :: 0 <= j < i ==> CleanRecordWith(records[j], infer) == Ok(rows[j])
    {
      var row := CleanRecordWith(records[i], infer);
      if row.TypeError? {
        return TypeError;
      }
      rows := rows + [row.value];
      i := i + 1;
    }
    return Ok(rows);
  }
}
