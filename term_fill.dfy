/** How both cleaning revisions hand the cleaned texts to `_extract_start_term_year`
    and fill a missing start term or year from what it returns. */
module TermFill {
  import opened Util
  import opened PyJson
  import opened CleanText
  import opened TermInfer

  /** The three texts passed through `_clean_text`: program, university, comments. */
  datatype Texts = Texts(program: Json, university: Json, comments: Json)

  /** A text the cleaner keeps: absent, or non-empty, tag-free and single-spaced. */
  predicate TidyText(v: Json) {
    v == Null || (v.Str? && v.s != "" && TagFree(v.s) && SingleSpaced(v.s))
  }

  predicate TidyTexts(tx: Texts) {
    TidyText(tx.program) && TidyText(tx.university) && TidyText(tx.comments)
  }

  /** What `_clean_text` yields is a tidy text. */
  lemma CleanTextTidy(v: Json)
    requires CleanTextValue(v).Ok?
    ensures TidyText(CleanTextValue(v).value)
  {
  }

  /** The texts the inference reads, in the order of the call: comments, status,
      program, university. */
  function InferenceTexts(tx: Texts, status: Json): seq<Json> {
    [tx.comments, status, tx.program, tx.university]
  }

  /** Inference runs only when the term or the year is missing. */
  predicate NeedsInference(term: Json, year: Json) { term == Null || year == Null }

  /** `_extract_start_term_year` of a revision, passed in so that the record-level
      reasoning does not depend on how the inference reads its texts. */
  type Inference = seq<Json> -> Result<Inferred>

  /** A missing value takes the inferred one; a present one is kept. */
  function Fill(v: Json, inferred: Option<string>): Json {
    if v == Null then OfOption(inferred) else v
  }

  /** Filling with the same inference twice is filling once. */
  lemma FillTwice(v: Json, x: Option<string>)
    ensures Fill(Fill(v, x), x) == Fill(v, x)
  {
  }

  /** An inference result the tables can produce: a term among the four seasons and a
      year of the form "20dd". */
  predicate SoundInferred(inf: Inferred) {
    (inf.term.Some? ==> IsTerm(inf.term.value)) && (inf.year.Some? ==> IsYear(inf.year.value))
  }

  ghost predicate SoundInference(infer: Inference) {
    forall texts :: infer(texts).Ok? ==> SoundInferred(infer(texts).value)
  }

  /** The clean-update inference only ever yields a season and a "20dd" year. */
  lemma InferUpdateIsSound()
    ensures SoundInference(InferUpdate)
  {
    forall texts | InferUpdate(texts).Ok?
      ensures SoundInferred(InferUpdate(texts).value)
    {
      match Haystack(texts)
      case Ok(Some(hay)) => InferUpdateSound(hay);
      case _ =>
    }
  }

  /** So does the clean-full inference. */
  lemma InferFullIsSound()
    ensures SoundInference(InferFull)
  {
    forall texts | InferFull(texts).Ok?
      ensures SoundInferred(InferFull(texts).value)
    {
      match Haystack(texts)
      case Ok(Some(hay)) => InferFullSound(hay);
      case _ =>
    }
  }

  /** With tidy texts, the haystack fails exactly when the status is a truthy value
      that is not a string, which `" ".join` refuses. */
  lemma HaystackFails(tx: Texts, status: Json)
    requires TidyTexts(tx)
    ensures Haystack(InferenceTexts(tx, status)).TypeError? <==> Truthy(status) && !status.Str?
  {
    var texts := InferenceTexts(tx, status);
    assert texts[0] == tx.comments && texts[1] == status && texts[2] == tx.program && texts[3] == tx.university;
  }

  /** The terms and years the inference produces are left alone by `_normalize_none`. */
  lemma NormalizeInferred(v: Json)
    requires v.Str? ==> IsTerm(v.s) || IsYear(v.s)
    ensures NormalizeValue(v) == v
  {
    if v.Str? {
      assert forall k :: 0 <= k < |v.s| ==> !IsSpace(v.s[k]) && v.s[k] != '<';
      TidyOfPlain(v.s);
    }
  }

  /** A filled value is kept by `_normalize_none` when the value before filling was. */
  lemma NormalizeFilled(v: Json, x: Option<string>)
    requires NormalizeValue(v) == v && (x.Some? ==> IsTerm(x.value) || IsYear(x.value))
    ensures NormalizeValue(Fill(v, x)) == Fill(v, x)
  {
    if v == Null {
      NormalizeInferred(OfOption(x));
    }
  }
}
