/** `clean_data` of the clean-full revision: every record is copied, its texts cleaned,
    a fixed list of fields normalised (a missing one becomes None), its nationality
    labelled, a missing start term or year read off the texts, a combined `program`
    field added and every required key guaranteed. Other keys ride along unchanged.

    The specification follows the copy `r2` step by step (`CleanFullRecordWith`);
    `Expected` says in one place what each key of the result holds, and
    `CleanFullReads` proves the two agree. */
module CleanFull {
  import opened Util
  import opened PyJson
  import opened CleanText
  import opened TermInfer
  import opened TermFill

  /** The keys every cleaned record carries. */
  const FullRequiredKeys: seq<string> := [
    "program_name_raw", "university_raw", "comments", "date_posted", "entry_url",
    "applicant_status", "accepted_date", "rejected_date",
    "start_term", "start_year", "is_international",
    "gre_total", "gre_v", "gre_aw", "degree", "degree_level", "gpa",
    "source_url", "scraped_at"]

  /** The fields passed through `_normalize_none`, or set to None when missing. */
  const NormalizeKeys: seq<string> := [
    "date_posted", "entry_url", "applicant_status",
    "accepted_date", "rejected_date",
    "start_term", "start_year",
    "gre_total", "gre_v", "gre_aw",
    "degree", "degree_level", "gpa",
    "source_url", "scraped_at"]

  // ----- the two key loops, as folds -----

  /** One round of the `normalize_keys` loop. */
  function NormalizeKey(m: Record, key: string): Record {
    if key in m then m[key := NormalizeValue(Get(m, key))] else m[key := Null]
  }

  /** The `normalize_keys` loop over `keys`. */
  function NormalizeAll(m: Record, keys: seq<string>): Record
    decreases |keys|
  {
    if keys == [] then m else NormalizeAll(NormalizeKey(m, keys[0]), keys[1..])
  }

  /** After the loop every listed key is present and holds its value normalised (once
      or twice, which is the same); every other key is untouched. */
  lemma {:induction false} NormalizeAllGet(m: Record, keys: seq<string>, k: string)
    ensures k in NormalizeAll(m, keys) <==> k in m || k in keys
    ensures Get(NormalizeAll(m, keys), k) == if k in keys then NormalizeValue(Get(m, k)) else Get(m, k)
    decreases |keys|
  {
    if keys != [] {
      NormalizeAllGet(NormalizeKey(m, keys[0]), keys[1..], k);
      if k == keys[0] {
        NormalizeValueIdempotent(Get(m, k));
      }
    }
  }

  /** `d.setdefault(key, None)`. */
  function SetDefault(m: Record, key: string): Record {
    if key in m then m else m[key := Null]
  }

  /** The `required_keys` loop over `keys`. */
  function SetDefaults(m: Record, keys: seq<string>): Record
    decreases |keys|
  {
    if keys == [] then m else SetDefaults(SetDefault(m, keys[0]), keys[1..])
  }

  /** `setdefault` adds the missing keys as None and changes no value. */
  lemma {:induction false} SetDefaultsGet(m: Record, keys: seq<string>, k: string)
    ensures k in SetDefaults(m, keys) <==> k in m || k in keys
    ensures Get(SetDefaults(m, keys), k) == Get(m, k)
    decreases |keys|
  {
    if keys != [] {
      SetDefaultsGet(SetDefault(m, keys[0]), keys[1..], k);
    }
  }

  /** The `normalize_keys` loop, in place on the copy. */
  method NormalizeKeysLoop(r: Record, keys: seq<string>) returns (out: Record)
    ensures out == NormalizeAll(r, keys)
  {
    out := r;
    var i := 0;
    while i < |keys|
      invariant 0 <= i <= |keys|
      invariant NormalizeAll(out, keys[i..]) == NormalizeAll(r, keys)
    {
      var key := keys[i];
      assert keys[i..][0] == key && keys[i..][1..] == keys[i + 1..];
      if key in out {
        out := out[key := NormalizeValue(Get(out, key))];
      } else {
        out := out[key := Null];
      }
      i := i + 1;
    }
  }

  /** The `required_keys` loop, in place on the copy. */
  method DefaultsLoop(r: Record, keys: seq<string>) returns (out: Record)
    ensures out == SetDefaults(r, keys)
  {
    out := r;
    var i := 0;
    while i < |keys|
      invariant 0 <= i <= |keys|
      invariant SetDefaults(out, keys[i..]) == SetDefaults(r, keys)
    {
      var key := keys[i];
      assert keys[i..][0] == key && keys[i..][1..] == keys[i + 1..];
      if key !in out {
        out := out[key := Null];
      }
      i := i + 1;
    }
  }

  // ----- one record, step by step -----

  /** The three texts, cleaned; TypeError when one is a boolean or an integer. */
  function FullTexts(r: Record): Result<Texts> {
    var program := CleanTextValue(Get(r, "program_name_raw"));
    var university := CleanTextValue(Get(r, "university_raw"));
    var comments := CleanTextValue(Get(r, "comments"));
    if program.TypeError? || university.TypeError? || comments.TypeError? then TypeError
    else Ok(Texts(program.value, university.value, comments.value))
  }

  /** The copy with its cleaned texts written. */
  function WithTexts(r: Record, tx: Texts): Record {
    r["program_name_raw" := tx.program]["university_raw" := tx.university]["comments" := tx.comments]
  }

  /** The copy with its nationality labelled. */
  function Labelled(m: Record): Record {
    m["is_international" := NationalityLabel(Get(m, "is_international"))]
  }

  /** The copy once the texts, a `normalize_keys` loop over `keys` and the nationality
      are done. */
  function Prepared(r: Record, tx: Texts, keys: seq<string>): Record {
    Labelled(NormalizeAll(WithTexts(r, tx), keys))
  }

  /** The texts the inference reads off the copy, in the order the source passes them. */
  function HaystackOf(m: Record): seq<Json> {
    [Get(m, "comments"), Get(m, "applicant_status"), Get(m, "program_name_raw"), Get(m, "university_raw")]
  }

  /** A term and a year found by the inference fill only the fields that are None. */
  function Filled(m: Record, inf: Inferred): Record {
    var m1 := if Get(m, "start_term") == Null && inf.term.Some? then m["start_term" := Str(inf.term.value)] else m;
    if Get(m1, "start_year") == Null && inf.year.Some? then m1["start_year" := Str(inf.year.value)] else m1
  }

  /** The combined `program`: "prog, uni" when both are truthy, otherwise the truthy one,
      otherwise None. */
  function Combined(p: Json, u: Json): Json {
    var prog := Or(p, Str(""));
    var uni := Or(u, Str(""));
    if Truthy(prog) && Truthy(uni) then Str(Render(prog) + ", " + Render(uni))
    else Or(Or(prog, uni), Null)
  }

  /** The copy with its combined `program` written. */
  function WithProgram(m: Record): Record {
    m["program" := Combined(Get(m, "program_name_raw"), Get(m, "university_raw"))]
  }

  /** What the inference returns on the prepared copy, or nothing when both the term and
      the year are present. */
  function InferOn(m: Record, infer: Inference): Result<Inferred> {
    if NeedsInference(Get(m, "start_term"), Get(m, "start_year")) then infer(HaystackOf(m)) else Ok(NoneInferred)
  }

  /** The prepared copy with its term and year filled, or the inference's TypeError. */
  function FillStep(m: Record, infer: Inference): Result<Record> {
    match InferOn(m, infer)
    case TypeError => TypeError
    case Ok(inf) => Ok(Filled(m, inf))
  }

  /** The loop body of `clean_data` for the key lists `keys` (`normalize_keys`) and `req`
      (`required_keys`), with a given inference. */
  function CleanRecordOver(r: Record, infer: Inference, keys: seq<string>, req: seq<string>): Result<Record> {
    match FullTexts(r)
    case TypeError => TypeError
    case Ok(tx) =>
      match FillStep(Prepared(r, tx, keys), infer)
      case TypeError => TypeError
      case Ok(f) => Ok(SetDefaults(WithProgram(f), req))
  }

  /** The loop body of `clean_data` with a given inference. */
  function CleanFullRecordWith(r: Record, infer: Inference): Result<Record> {
    CleanRecordOver(r, infer, NormalizeKeys, FullRequiredKeys)
  }

  /** The loop body of the clean-full revision. */
  function CleanFullRecord(r: Record): Result<Record> {
    CleanFullRecordWith(r, InferFull)
  }

  /** The three texts cleaned and written back into the copy. */
  method WriteTexts(r: Record) returns (out: Result<Record>)
    ensures FullTexts(r).TypeError? ==> out.TypeError?
    ensures FullTexts(r).Ok? ==> out == Ok(WithTexts(r, FullTexts(r).value))
  {
    var r2 := r;
    var program := CleanTextValue(Get(r2, "program_name_raw"));
    if program.TypeError? {
      return TypeError;
    }
    r2 := r2["program_name_raw" := program.value];
    var university := CleanTextValue(Get(r2, "university_raw"));
    if university.TypeError? {
      return TypeError;
    }
    r2 := r2["university_raw" := university.value];
    var comments := CleanTextValue(Get(r2, "comments"));
    if comments.TypeError? {
      return TypeError;
    }
    r2 := r2["comments" := comments.value];
    return Ok(r2);
  }

  /** The `normalize_keys` loop and the nationality label on the copy. */
  method Prepare(w: Record, keys: seq<string>) returns (m: Record)
    ensures m == Labelled(NormalizeAll(w, keys))
  {
    m := NormalizeKeysLoop(w, keys);
    m := m["is_international" := NationalityLabel(Get(m, "is_international"))];
  }

  /** The inference, run only when the term or the year is None, fills what is None. */
  method FillTermYear(m: Record, infer: Inference) returns (out: Result<Record>)
    ensures out == FillStep(m, infer)
  {
    var r2 := m;
    if Get(r2, "start_term") == Null || Get(r2, "start_year") == Null {
      var inferred := infer([Get(r2, "comments"), Get(r2, "applicant_status"), Get(r2, "program_name_raw"), Get(r2, "university_raw")]);
      if inferred.TypeError? {
        return TypeError;
      }
      var inf := inferred.value;
      if Get(r2, "start_term") == Null && inf.term.Some? {
        r2 := r2["start_term" := Str(inf.term.value)];
      }
      if Get(r2, "start_year") == Null && inf.year.Some? {
        r2 := r2["start_year" := Str(inf.year.value)];
      }
    }
    return Ok(r2);
  }

  /** The combined `program` and the `required_keys` loop. */
  method Finish(f: Record, req: seq<string>) returns (out: Record)
    ensures out == SetDefaults(WithProgram(f), req)
  {
    var r2 := f;
    var prog := Or(Get(r2, "program_name_raw"), Str(""));
    var uni := Or(Get(r2, "university_raw"), Str(""));
    if Truthy(prog) && Truthy(uni) {
      r2 := r2["program" := Str(Render(prog) + ", " + Render(uni))];
    } else {
      r2 := r2["program" := Or(Or(prog, uni), Null)];
    }
    out := DefaultsLoop(r2, req);
  }

  /** One pass of the loop body: the copy `r2` updated step by step. */
  method CleanOne(r: Record, infer: Inference, keys: seq<string>, req: seq<string>) returns (out: Result<Record>)
    ensures out == CleanRecordOver(r, infer, keys, req)
  {
    var written := WriteTexts(r);
    if written.TypeError? {
      return TypeError;
    }
    var m := Prepare(written.value, keys);
    var filled := FillTermYear(m, infer);
    if filled.TypeError? {
      return TypeError;
    }
    var r2 := Finish(filled.value, req);
    return Ok(r2);
  }

  /** The record loop of `clean_data` for the key lists `keys` and `req`: the records
      cleaned in order into a new list; the first record that raises TypeError ends the
      run. The input records are values, so they are never changed. */
  method CleanRecords(records: seq<Record>, infer: Inference, keys: seq<string>, req: seq<string>)
    returns (out: Result<seq<Record>>)
    ensures out.TypeError? <==> exists i :: 0 <= i < |records| && CleanRecordOver(records[i], infer, keys, req).TypeError?
    ensures out.Ok? ==>
      && |out.value| == |records|
      && forall i :: 0 <= i < |records| ==> CleanRecordOver(records[i], infer, keys, req) == Ok(out.value[i])
  {
    var cleaned: seq<Record> := [];
    var i := 0;
    while i < |records|
      invariant 0 <= i <= |records| && |cleaned| == i
      invariant forall j :: 0 <= j < i ==> CleanRecordOver(records[j], infer, keys, req) == Ok(cleaned[j])
    {
      var r2 := CleanOne(records[i], infer, keys, req);
      if r2.TypeError? {
        return TypeError;
      }
      cleaned := cleaned + [r2.value];
      i := i + 1;
    }
    return Ok(cleaned);
  }

  /** `clean_data` of this revision. */
  method CleanFullData(records: seq<Record>, infer: Inference) returns (out: Result<seq<Record>>)
    ensures out.TypeError? <==> exists i :: 0 <= i < |records| && CleanFullRecordWith(records[i], infer).TypeError?
    ensures out.Ok? ==>
      && |out.value| == |records|
      && forall i :: 0 <= i < |records| ==> CleanFullRecordWith(records[i], infer) == Ok(out.value[i])
  {
    out := CleanRecords(records, infer, NormalizeKeys, FullRequiredKeys);
  }

  // ----- what a cleaned record holds -----

  /** The start term, the start year and the status after `_normalize_none`. */
  function TermOf(r: Record): Json { NormalizeValue(Get(r, "start_term")) }

  function YearOf(r: Record): Json { NormalizeValue(Get(r, "start_year")) }

  function StatusOf(r: Record): Json { NormalizeValue(Get(r, "applicant_status")) }

  /** What the inference returns for a record with cleaned texts `tx`, or nothing when
      both its normalised term and year are present. */
  function InferredFor(r: Record, tx: Texts, infer: Inference): Result<Inferred> {
    if NeedsInference(TermOf(r), YearOf(r)) then infer(InferenceTexts(tx, StatusOf(r))) else Ok(NoneInferred)
  }

  /** Key `k` of a record cleaned with the key list `keys`, stated directly: the cleaned
      texts, the nationality label, the term and year filled from the inference, the
      combined program, the normalised fields, and every other key as it came in. */
  function ExpectedOver(r: Record, tx: Texts, inf: Inferred, keys: seq<string>, k: string): Json {
    if k == "program_name_raw" then tx.program
    else if k == "university_raw" then tx.university
    else if k == "comments" then tx.comments
    else if k == "is_international" then NationalityLabel(Get(r, k))
    else if k == "start_term" then Fill(TermOf(r), inf.term)
    else if k == "start_year" then Fill(YearOf(r), inf.year)
    else if k == "program" then Combined(tx.program, tx.university)
    else if k in keys then NormalizeValue(Get(r, k))
    else Get(r, k)
  }

  /** Key `k` of a cleaned record of this revision. */
  function Expected(r: Record, tx: Texts, inf: Inferred, k: string): Json {
    ExpectedOver(r, tx, inf, NormalizeKeys, k)
  }

  /** The keys the loop writes besides `normalize_keys`, one lemma each. */
  lemma ProgramNotNormalized() ensures "program_name_raw" !in NormalizeKeys {}

  lemma UniversityNotNormalized() ensures "university_raw" !in NormalizeKeys {}

  lemma CommentsNotNormalized() ensures "comments" !in NormalizeKeys {}

  lemma NationalityNotNormalized() ensures "is_international" !in NormalizeKeys {}

  lemma StatusNormalized() ensures "applicant_status" in NormalizeKeys {}

  lemma TermNormalized() ensures "start_term" in NormalizeKeys {}

  lemma YearNormalized() ensures "start_year" in NormalizeKeys {}

  /** How the loop's keys sit among the written ones. */
  predicate KeysLayout(keys: seq<string>) {
    && "program_name_raw" !in keys && "university_raw" !in keys
    && "comments" !in keys && "is_international" !in keys
    && "applicant_status" in keys && "start_term" in keys && "start_year" in keys
  }

  lemma NormalizeKeysLayout()
    ensures KeysLayout(NormalizeKeys)
  {
    ProgramNotNormalized();
    UniversityNotNormalized();
    CommentsNotNormalized();
    NationalityNotNormalized();
    StatusNormalized();
    TermNormalized();
    YearNormalized();
  }

  /** The `required_keys` hold every key the loop writes, except `program`. */
  predicate RequiredLayout(keys: seq<string>, req: seq<string>) {
    && "program_name_raw" in req && "university_raw" in req && "comments" in req && "is_international" in req
    && forall k :: k in keys ==> k in req
  }

  lemma NormalizedRequired()
    ensures forall k :: k in NormalizeKeys ==> k in FullRequiredKeys
  {
  }

  lemma FullRequiredLayout()
    ensures RequiredLayout(NormalizeKeys, FullRequiredKeys)
  {
    NormalizedRequired();
    assert "program_name_raw" in FullRequiredKeys && "university_raw" in FullRequiredKeys;
  }

  /** The prepared copy: the texts, a `normalize_keys` loop that leaves the texts and the
      nationality alone, and the nationality label. */
  lemma {:induction false} PreparedGet(r: Record, tx: Texts, keys: seq<string>, k: string)
    requires KeysLayout(keys)
    ensures var m := Prepared(r, tx, keys);
      && (k in m <==>
          k in r || k in keys || k == "program_name_raw" || k == "university_raw" || k == "comments"
          || k == "is_international")
      && Get(m, k) ==
        if k == "program_name_raw" then tx.program
        else if k == "university_raw" then tx.university
        else if k == "comments" then tx.comments
        else if k == "is_international" then NationalityLabel(Get(r, k))
        else if k in keys then NormalizeValue(Get(r, k))
        else Get(r, k)
  {
    NormalizeAllGet(WithTexts(r, tx), keys, k);
    NormalizeAllGet(WithTexts(r, tx), keys, "is_international");
  }

  /** The inference reads the cleaned texts and the normalised status off the prepared
      copy, and runs when the normalised term or year is None. */
  lemma {:induction false} InferOnPrepared(r: Record, tx: Texts, keys: seq<string>, infer: Inference)
    requires KeysLayout(keys)
    ensures var m := Prepared(r, tx, keys);
      && "start_term" in m && "start_year" in m
      && Get(m, "start_term") == TermOf(r) && Get(m, "start_year") == YearOf(r)
      && InferOn(m, infer) == InferredFor(r, tx, infer)
  {
    PreparedGet(r, tx, keys, "start_term");
    PreparedGet(r, tx, keys, "start_year");
    PreparedGet(r, tx, keys, "applicant_status");
    PreparedGet(r, tx, keys, "comments");
    PreparedGet(r, tx, keys, "program_name_raw");
    PreparedGet(r, tx, keys, "university_raw");
    assert HaystackOf(Prepared(r, tx, keys)) == InferenceTexts(tx, StatusOf(r));
  }

  /** Filling writes only the term and the year, and only where they are None. */
  lemma FilledGet(m: Record, inf: Inferred, k: string)
    requires "start_term" in m && "start_year" in m
    ensures k in Filled(m, inf) <==> k in m
    ensures Get(Filled(m, inf), k) ==
      if k == "start_term" then Fill(Get(m, k), inf.term)
      else if k == "start_year" then Fill(Get(m, k), inf.year)
      else Get(m, k)
  {
  }

  /** The loop body raises TypeError when a text is not a string or the inference
      raises, and otherwise is the step-by-step copy with the inference's result. */
  lemma CleanSteps(r: Record, infer: Inference, keys: seq<string>, req: seq<string>)
    requires KeysLayout(keys)
    ensures CleanRecordOver(r, infer, keys, req).TypeError? <==>
      FullTexts(r).TypeError? || InferredFor(r, FullTexts(r).value, infer).TypeError?
    ensures CleanRecordOver(r, infer, keys, req).Ok? ==>
      CleanRecordOver(r, infer, keys, req).value ==
        SetDefaults(WithProgram(Filled(Prepared(r, FullTexts(r).value, keys),
          InferredFor(r, FullTexts(r).value, infer).value)), req)
  {
    if FullTexts(r).Ok? {
      InferOnPrepared(r, FullTexts(r).value, keys, infer);
    }
  }

  /** Every key of the finished copy holds what `ExpectedOver` says. */
  lemma {:induction false} FinishedGet(r: Record, tx: Texts, keys: seq<string>, req: seq<string>, inf: Inferred, k: string)
    requires KeysLayout(keys) && RequiredLayout(keys, req)
    ensures var out := SetDefaults(WithProgram(Filled(Prepared(r, tx, keys), inf)), req);
      && (k in out <==> k in r || k in req || k == "program")
      && Get(out, k) == ExpectedOver(r, tx, inf, keys, k)
  {
    var m := Prepared(r, tx, keys);
    var f := Filled(m, inf);
    PreparedGet(r, tx, keys, k);
    PreparedGet(r, tx, keys, "start_term");
    PreparedGet(r, tx, keys, "start_year");
    PreparedGet(r, tx, keys, "program_name_raw");
    PreparedGet(r, tx, keys, "university_raw");
    FilledGet(m, inf, k);
    FilledGet(m, inf, "program_name_raw");
    FilledGet(m, inf, "university_raw");
    SetDefaultsGet(WithProgram(f), req, k);
  }

  /** The loop body either raises TypeError, when a text is not a string or the inference
      raises, or yields a record whose every key holds what `ExpectedOver` says; its keys
      are the input's, the required ones and `program`. */
  lemma CleanReads(r: Record, infer: Inference, keys: seq<string>, req: seq<string>, k: string)
    requires KeysLayout(keys) && RequiredLayout(keys, req)
    ensures CleanRecordOver(r, infer, keys, req).TypeError? <==>
      FullTexts(r).TypeError? || InferredFor(r, FullTexts(r).value, infer).TypeError?
    ensures CleanRecordOver(r, infer, keys, req).Ok? ==>
      var out := CleanRecordOver(r, infer, keys, req).value;
      && (k in out <==> k in r || k in req || k == "program")
      && Get(out, k) == ExpectedOver(r, FullTexts(r).value, InferredFor(r, FullTexts(r).value, infer).value, keys, k)
  {
    CleanSteps(r, infer, keys, req);
    if CleanRecordOver(r, infer, keys, req).Ok? {
      FinishedGet(r, FullTexts(r).value, keys, req, InferredFor(r, FullTexts(r).value, infer).value, k);
    }
  }

  /** The loop body of this revision either raises TypeError, when a text is not a
      string or the inference raises, or yields a record whose every key holds what
      `Expected` says; its keys are the input's, the required ones and `program`. */
  lemma CleanFullReads(r: Record, infer: Inference, k: string)
    ensures CleanFullRecordWith(r, infer).TypeError? <==>
      FullTexts(r).TypeError? || InferredFor(r, FullTexts(r).value, infer).TypeError?
    ensures CleanFullRecordWith(r, infer).Ok? ==>
      var out := CleanFullRecordWith(r, infer).value;
      && (k in out <==> k in r || k in FullRequiredKeys || k == "program")
      && Get(out, k) == Expected(r, FullTexts(r).value, InferredFor(r, FullTexts(r).value, infer).value, k)
  {
    NormalizeKeysLayout();
    FullRequiredLayout();
    CleanReads(r, infer, NormalizeKeys, FullRequiredKeys, k);
  }

  // ----- properties of the loop body -----

  /** The combined program of two tidy texts: both joined by ", ", or the one that is
      present, or None. */
  lemma CombinedTexts(p: Json, u: Json)
    requires TidyText(p) && TidyText(u)
    ensures Combined(p, u) ==
      if p.Str? && u.Str? then Str(p.s + ", " + u.s)
      else if p.Str? then p
      else u
  {
  }

  /** The clean-full loop body raises TypeError exactly when one of the three texts is a
      boolean or an integer, or when the term or year is missing and the status is a
      truthy boolean or integer, which the inference's `" ".join` refuses. */
  lemma CleanFullFails(r: Record)
    ensures CleanFullRecord(r).TypeError? <==>
      || Get(r, "program_name_raw").Bool? || Get(r, "program_name_raw").Int?
      || Get(r, "university_raw").Bool? || Get(r, "university_raw").Int?
      || Get(r, "comments").Bool? || Get(r, "comments").Int?
      || (&& NeedsInference(TermOf(r), YearOf(r))
          && Truthy(Get(r, "applicant_status")) && !Get(r, "applicant_status").Str?)
  {
    CleanFullReads(r, InferFull, "comments");
    FullTextsFail(r);
    if FullTexts(r).Ok? {
      InferFullFails(r, FullTexts(r).value);
    }
  }

  /** `_clean_text` refuses a boolean or an integer; otherwise the texts come out tidy. */
  lemma FullTextsFail(r: Record)
    ensures FullTexts(r).TypeError? <==>
      || Get(r, "program_name_raw").Bool? || Get(r, "program_name_raw").Int?
      || Get(r, "university_raw").Bool? || Get(r, "university_raw").Int?
      || Get(r, "comments").Bool? || Get(r, "comments").Int?
    ensures FullTexts(r).Ok? ==> TidyTexts(FullTexts(r).value)
  {
    if FullTexts(r).Ok? {
      CleanTextTidy(Get(r, "program_name_raw"));
      CleanTextTidy(Get(r, "university_raw"));
      CleanTextTidy(Get(r, "comments"));
    }
  }

  /** The clean-full inference fails on tidy texts exactly when it runs and the status
      is a truthy value that is not a string. */
  lemma InferFullFails(r: Record, tx: Texts)
    requires TidyTexts(tx)
    ensures InferredFor(r, tx, InferFull).TypeError? <==>
      NeedsInference(TermOf(r), YearOf(r)) && Truthy(Get(r, "applicant_status")) && !Get(r, "applicant_status").Str?
  {
    HaystackFails(tx, StatusOf(r));
  }

  /** The inference a record of this revision sees yields only sound results. */
  lemma InferredSound(r: Record, tx: Texts, infer: Inference)
    requires SoundInference(infer) && InferredFor(r, tx, infer).Ok?
    ensures SoundInferred(InferredFor(r, tx, infer).value)
  {
  }

  /** A present normalised term or year is kept; a missing one becomes None or what the
      inference found: one of the four seasons and a "20dd" year. */
  lemma CleanTermYear(r: Record, infer: Inference, keys: seq<string>, req: seq<string>)
    requires KeysLayout(keys) && RequiredLayout(keys, req)
    requires SoundInference(infer) && CleanRecordOver(r, infer, keys, req).Ok?
    ensures var out := CleanRecordOver(r, infer, keys, req).value;
      && "start_term" in out && "start_year" in out
      && (TermOf(r) != Null ==> out["start_term"] == TermOf(r))
      && (TermOf(r) == Null ==> out["start_term"] == Null || (out["start_term"].Str? && IsTerm(out["start_term"].s)))
      && (YearOf(r) != Null ==> out["start_year"] == YearOf(r))
      && (YearOf(r) == Null ==> out["start_year"] == Null || (out["start_year"].Str? && IsYear(out["start_year"].s)))
  {
    CleanReads(r, infer, keys, req, "start_term");
    CleanReads(r, infer, keys, req, "start_year");
    InferredSound(r, FullTexts(r).value, infer);
  }

  lemma CleanFullTermYear(r: Record, infer: Inference)
    requires SoundInference(infer) && CleanFullRecordWith(r, infer).Ok?
    ensures var out := CleanFullRecordWith(r, infer).value;
      && "start_term" in out && "start_year" in out
      && (TermOf(r) != Null ==> out["start_term"] == TermOf(r))
      && (TermOf(r) == Null ==> out["start_term"] == Null || (out["start_term"].Str? && IsTerm(out["start_term"].s)))
      && (YearOf(r) != Null ==> out["start_year"] == YearOf(r))
      && (YearOf(r) == Null ==> out["start_year"] == Null || (out["start_year"].Str? && IsYear(out["start_year"].s)))
  {
    NormalizeKeysLayout();
    FullRequiredLayout();
    CleanTermYear(r, infer, NormalizeKeys, FullRequiredKeys);
  }

  // ----- cleaning a cleaned record -----

  /** A cleaned record's texts clean to themselves. */
  lemma CleanedTexts(r: Record, infer: Inference, keys: seq<string>, req: seq<string>)
    requires KeysLayout(keys) && RequiredLayout(keys, req) && CleanRecordOver(r, infer, keys, req).Ok?
    ensures FullTexts(CleanRecordOver(r, infer, keys, req).value) == FullTexts(r)
  {
    CleanReads(r, infer, keys, req, "program_name_raw");
    CleanReads(r, infer, keys, req, "university_raw");
    CleanReads(r, infer, keys, req, "comments");
    CleanTextIdempotent(Get(r, "program_name_raw"));
    CleanTextIdempotent(Get(r, "university_raw"));
    CleanTextIdempotent(Get(r, "comments"));
  }

  /** A cleaned record's status normalises to itself, and so do its filled term and year. */
  lemma CleanedTermYear(r: Record, infer: Inference, keys: seq<string>, req: seq<string>)
    requires KeysLayout(keys) && RequiredLayout(keys, req)
    requires SoundInference(infer) && CleanRecordOver(r, infer, keys, req).Ok?
    ensures FullTexts(r).Ok? && InferredFor(r, FullTexts(r).value, infer).Ok?
    ensures var out := CleanRecordOver(r, infer, keys, req).value;
      var inf := InferredFor(r, FullTexts(r).value, infer).value;
      && StatusOf(out) == StatusOf(r)
      && TermOf(out) == Fill(TermOf(r), inf.term) && YearOf(out) == Fill(YearOf(r), inf.year)
  {
    CleanReads(r, infer, keys, req, "applicant_status");
    CleanReads(r, infer, keys, req, "start_term");
    CleanReads(r, infer, keys, req, "start_year");
    var inf := InferredFor(r, FullTexts(r).value, infer).value;
    NormalizeValueIdempotent(Get(r, "applicant_status"));
    NormalizeValueIdempotent(Get(r, "start_term"));
    NormalizeValueIdempotent(Get(r, "start_year"));
    InferredSound(r, FullTexts(r).value, infer);
    NormalizeFilled(TermOf(r), inf.term);
    NormalizeFilled(YearOf(r), inf.year);
  }

  /** Re-cleaning runs the inference, if at all, on the same texts, so it fills nothing. */
  lemma InferredAgain(r: Record, out: Record, tx: Texts, infer: Inference)
    requires InferredFor(r, tx, infer).Ok? && StatusOf(out) == StatusOf(r)
    requires TermOf(out) == Fill(TermOf(r), InferredFor(r, tx, infer).value.term)
    requires YearOf(out) == Fill(YearOf(r), InferredFor(r, tx, infer).value.year)
    ensures InferredFor(out, tx, infer).Ok?
    ensures Fill(TermOf(out), InferredFor(out, tx, infer).value.term) == TermOf(out)
    ensures Fill(YearOf(out), InferredFor(out, tx, infer).value.year) == YearOf(out)
  {
    var inf := InferredFor(r, tx, infer).value;
    FillTwice(TermOf(r), inf.term);
    FillTwice(YearOf(r), inf.year);
  }

  /** What a cleaned record's key is stated to hold after a second cleaning is what it
      holds already. */
  lemma ExpectedAgain(r: Record, out: Record, tx: Texts, inf: Inferred, inf2: Inferred, keys: seq<string>, k: string)
    requires Get(out, k) == ExpectedOver(r, tx, inf, keys, k)
    requires TermOf(out) == Fill(TermOf(r), inf.term) && Fill(TermOf(out), inf2.term) == TermOf(out)
    requires YearOf(out) == Fill(YearOf(r), inf.year) && Fill(YearOf(out), inf2.year) == YearOf(out)
    ensures ExpectedOver(out, tx, inf2, keys, k) == Get(out, k)
  {
    if k == "is_international" {
      assert Get(out, k) == NationalityLabel(Get(r, k));
      NationalityLabelIdempotent(Get(r, k));
    } else if k == "program_name_raw" || k == "university_raw" || k == "comments" || k == "program" {
    } else if k == "start_term" || k == "start_year" {
    } else if k in keys {
      assert Get(out, k) == NormalizeValue(Get(r, k));
      NormalizeValueIdempotent(Get(r, k));
    } else {
      assert Get(out, k) == Get(r, k);
    }
  }

  /** Cleaning a cleaned record succeeds and gives back every key with the same value,
      and no key more. */
  lemma CleanIdempotent(r: Record, infer: Inference, keys: seq<string>, req: seq<string>, k: string)
    requires KeysLayout(keys) && RequiredLayout(keys, req)
    requires SoundInference(infer) && CleanRecordOver(r, infer, keys, req).Ok?
    ensures var out := CleanRecordOver(r, infer, keys, req).value;
      && CleanRecordOver(out, infer, keys, req).Ok?
      && (k in CleanRecordOver(out, infer, keys, req).value <==> k in out)
      && Get(CleanRecordOver(out, infer, keys, req).value, k) == Get(out, k)
  {
    var out := CleanRecordOver(r, infer, keys, req).value;
    CleanedTexts(r, infer, keys, req);
    CleanedTermYear(r, infer, keys, req);
    var tx := FullTexts(r).value;
    var inf := InferredFor(r, tx, infer).value;
    InferredAgain(r, out, tx, infer);
    var inf2 := InferredFor(out, tx, infer).value;
    CleanReads(r, infer, keys, req, k);
    CleanReads(out, infer, keys, req, k);
    ExpectedAgain(r, out, tx, inf, inf2, keys, k);
  }

  /** `clean_data` of this revision is idempotent. */
  lemma CleanFullIdempotent(r: Record, infer: Inference, k: string)
    requires SoundInference(infer) && CleanFullRecordWith(r, infer).Ok?
    ensures var out := CleanFullRecordWith(r, infer).value;
      && CleanFullRecordWith(out, infer).Ok?
      && (k in CleanFullRecordWith(out, infer).value <==> k in out)
      && Get(CleanFullRecordWith(out, infer).value, k) == Get(out, k)
  {
    NormalizeKeysLayout();
    FullRequiredLayout();
    CleanIdempotent(r, infer, NormalizeKeys, FullRequiredKeys, k);
  }

  /** The same for the clean-full inference. */
  lemma CleanFullRecordIdempotent(r: Record, k: string)
    requires CleanFullRecord(r).Ok?
    ensures var out := CleanFullRecord(r).value;
      && CleanFullRecord(out).Ok?
      && (k in CleanFullRecord(out).value <==> k in out)
      && Get(CleanFullRecord(out).value, k) == Get(out, k)
  {
    InferFullIsSound();
    CleanFullIdempotent(r, InferFull, k);
  }
}
