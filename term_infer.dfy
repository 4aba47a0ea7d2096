/** `_extract_start_term_year` of the two normaliser revisions: a start term and year
    read off free text ("Fall 2026", "begins September 2026"). The regular expressions
    are written out as matchers that follow Python's leftmost search and the
    alternation order of each pattern; case is folded and `\b`, `\W` and `\d` are read
    over ASCII. */
module TermInfer {
  import opened Util
  import opened PyJson
  import opened CleanText
  import opened ScrapeHelpers

  /** The alternatives of `(spring|summer|fall|autumn|winter)`. */
  const SeasonWords: seq<string> := ["spring", "summer", "fall", "autumn", "winter"]

  /** The alternatives of the month pattern, in the order the regex engine tries them
      (an optional suffix is tried present first). `sep(?:t)?(?:ember)?` also spells
      "sepember". */
  const MonthWords: seq<string> := [
    "january", "jan", "february", "feb", "march", "mar", "april", "apr", "may",
    "june", "jun", "july", "jul", "august", "aug",
    "september", "sept", "sepember", "sep", "october", "oct", "november", "nov",
    "december", "dec"]

  /** The alternatives of the context pattern; `begins?` tries "begins" before "begin". */
  const ContextWords: seq<string> := [
    "start", "starting", "begins", "begin", "beginning", "program begins", "term",
    "semester", "matriculat", "enroll", "enrollment", "cohort"]

  /** `_TERM_ALIASES.get(w)`. */
  function SeasonTerm(w: string): (r: Option<string>)
    ensures r.Some? <==> w in SeasonWords
    ensures w == "autumn" ==> r == Some("Fall")
  {
    if w == "spring" then Some("Spring")
    else if w == "summer" then Some("Summer")
    else if w == "fall" || w == "autumn" then Some("Fall")
    else if w == "winter" then Some("Winter")
    else None
  }

  /** `_MONTH_TO_TERM.get(w)`: January to April start in Spring, May to July in Summer,
      August to November in Fall, December in Winter. */
  function MonthTerm(w: string): Option<string> {
    if w in ["jan", "january", "feb", "february", "mar", "march", "apr", "april"] then Some("Spring")
    else if w in ["may", "jun", "june", "jul", "july"] then Some("Summer")
    else if w in ["aug", "august", "sep", "sept", "september", "oct", "october", "nov", "november"] then Some("Fall")
    else if w in ["dec", "december"] then Some("Winter")
    else None
  }

  /** The table covers every month the pattern spells except "sepember": a text that
      says "Sepember 2026" yields a year and no term. */
  lemma MonthTermCovers(w: string)
    requires w in MonthWords
    ensures MonthTerm(w).None? <==> w == "sepember"
  {
  }

  /** Every term either table yields is one of the four seasons. */
  predicate IsTerm(t: string) { t in ["Spring", "Summer", "Fall", "Winter"] }

  lemma TermsAreSeasons(w: string)
    ensures SeasonTerm(w).Some? ==> IsTerm(SeasonTerm(w).value)
    ensures MonthTerm(w).Some? ==> IsTerm(MonthTerm(w).value)
  {
  }

  // ----- `\b(<words>)\b\W*(20\d{2})\b` -----

  /** `\W*` from `k`, greedy: the first word character at or after `k`. */
  function SkipNonWord(t: string, k: nat): (m: nat)
    requires k <= |t|
    ensures k <= m <= |t| && (m == |t| || IsWordChar(t[m]))
    ensures forall j :: k <= j < m ==> !IsWordChar(t[j])
    decreases |t| - k
  {
    if k == |t| || IsWordChar(t[k]) then k else SkipNonWord(t, k + 1)
  }

  /** `(20\d{2})\b` matches at `m`. Since `\W*` stops only before a word character,
      backing it off cannot place a "2" elsewhere, so the greedy skip is the only try. */
  predicate YearAt(t: string, m: nat) {
    && m + 4 <= |t| && t[m] == '2' && t[m + 1] == '0' && IsDigit(t[m + 2]) && IsDigit(t[m + 3])
    && (m + 4 == |t| || !IsWordChar(t[m + 4]))
  }

  /** A year text the pattern accepts: "20" and two digits. */
  predicate IsYear(y: string) {
    |y| == 4 && y[0] == '2' && y[1] == '0' && IsDigit(y[2]) && IsDigit(y[3])
  }

  /** A match: the alternative taken (lower-cased, as the source lower-cases the group),
      the year group and the index just past the year. */
  datatype Hit = Hit(word: string, year: string, end: nat)

  /** `word` fits at `i`: the whole word there, then a year after the non-word gap. */
  predicate FitsAt(t: string, word: string, i: nat) {
    PhraseAt(t, word, i) && YearAt(t, SkipNonWord(t, i + |word|))
  }

  function HitFor(t: string, word: string, i: nat): (h: Hit)
    requires FitsAt(t, word, i)
    ensures IsYear(h.year) && h.end <= |t|
  {
    var m := SkipNonWord(t, i + |word|);
    Hit(word, t[m..m + 4], m + 4)
  }

  /** The pattern matched at `i`: the first alternative, in order, that fits. */
  function WordYearAt(t: string, words: seq<string>, i: nat): Option<Hit>
    decreases |words|
  {
    if words == [] then None
    else if FitsAt(t, words[0], i) then Some(HitFor(t, words[0], i))
    else WordYearAt(t, words[1..], i)
  }

  /** There is no match at `i` exactly when no alternative fits there. */
  lemma {:induction false} WordYearAtNone(t: string, words: seq<string>, i: nat)
    ensures WordYearAt(t, words, i).None? <==> forall k :: 0 <= k < |words| ==> !FitsAt(t, words[k], i)
    decreases |words|
  {
    if words != [] {
      WordYearAtNone(t, words[1..], i);
      assert forall k :: 1 <= k < |words| ==> words[k] == words[1..][k - 1];
    }
  }

  /** A match at `i` comes from the earliest alternative that fits there. */
  lemma {:induction false} WordYearAtFirst(t: string, words: seq<string>, i: nat) returns (k: nat)
    requires WordYearAt(t, words, i).Some?
    ensures k < |words| && FitsAt(t, words[k], i) && WordYearAt(t, words, i) == Some(HitFor(t, words[k], i))
    ensures forall j :: 0 <= j < k ==> !FitsAt(t, words[j], i)
    decreases |words|
  {
    if FitsAt(t, words[0], i) {
      k := 0;
    } else {
      var k' := WordYearAtFirst(t, words[1..], i);
      k := k' + 1;
      assert forall j :: 1 <= j < |words| ==> words[j] == words[1..][j - 1];
    }
  }

  /** `re.search` of the pattern in `t[i..]`: the match at the leftmost index. */
  function SearchFrom(t: string, words: seq<string>, i: nat): Option<Hit>
    requires i <= |t|
    decreases |t| - i
  {
    if i == |t| then None
    else if WordYearAt(t, words, i).Some? then WordYearAt(t, words, i)
    else SearchFrom(t, words, i + 1)
  }

  /** A search result is the match at the leftmost index where one starts. */
  lemma {:induction false} SearchFromLeftmost(t: string, words: seq<string>, i: nat) returns (k: nat)
    requires i <= |t| && SearchFrom(t, words, i).Some?
    ensures i <= k < |t| && SearchFrom(t, words, i) == WordYearAt(t, words, k)
    ensures forall j :: i <= j < k ==> WordYearAt(t, words, j).None?
    decreases |t| - i
  {
    if WordYearAt(t, words, i).Some? {
      k := i;
    } else {
      k := SearchFromLeftmost(t, words, i + 1);
    }
  }

  lemma {:induction false} SearchFromMissing(t: string, words: seq<string>, i: nat)
    requires i <= |t| && SearchFrom(t, words, i).None?
    ensures forall k :: i <= k < |t| ==> WordYearAt(t, words, k).None?
    decreases |t| - i
  {
    if i < |t| {
      SearchFromMissing(t, words, i + 1);
    }
  }

  /** The search finds nothing exactly when no match starts anywhere. */
  lemma SearchFromNone(t: string, words: seq<string>, i: nat)
    requires i <= |t|
    ensures SearchFrom(t, words, i).None? <==> forall k :: i <= k < |t| ==> WordYearAt(t, words, k).None?
  {
    if SearchFrom(t, words, i).Some? {
      var k := SearchFromLeftmost(t, words, i);
    } else {
      SearchFromMissing(t, words, i);
    }
  }

  // ----- the text the inference reads -----

  /** The strings `t for t in texts if t` keeps; a kept value that is not a string makes
      `" ".join` raise TypeError. */
  function TruthyTexts(texts: seq<Json>): (r: Result<seq<string>>)
    ensures r.TypeError? <==> exists k :: 0 <= k < |texts| && Truthy(texts[k]) && !texts[k].Str?
    decreases |texts|
  {
    if texts == [] then Ok([])
    else
      var rest := TruthyTexts(texts[1..]);
      assert forall k :: 1 <= k < |texts| ==> texts[k] == texts[1..][k - 1];
      if !Truthy(texts[0]) then rest
      else if !texts[0].Str? then TypeError
      else if rest.TypeError? then TypeError
      else Ok([texts[0].s] + rest.value)
  }

  /** `" ".join(ss)`. */
  function JoinSpace(ss: seq<string>): string
    decreases |ss|
  {
    if ss == [] then ""
    else if |ss| == 1 then ss[0]
    else ss[0] + " " + JoinSpace(ss[1..])
  }

  /** The haystack: the truthy texts joined by spaces and passed through `_clean_text`;
      an empty haystack is None. */
  function Haystack(texts: seq<Json>): Result<Option<string>> {
    match TruthyTexts(texts)
    case TypeError => TypeError
    case Ok(ss) =>
      var hay := Tidy(JoinSpace(ss));
      Ok(if hay == "" then None else Some(hay))
  }

  /** A haystack holds no tag and no doubled whitespace, so no newline either. */
  lemma HaystackTidy(texts: seq<Json>)
    requires Haystack(texts).Ok? && Haystack(texts).value.Some?
    ensures var hay := Haystack(texts).value.value;
      hay != "" && TagFree(hay) && SingleSpaced(hay) && forall k :: 0 <= k < |hay| ==> hay[k] != '\n'
  {
    TidyShape(JoinSpace(TruthyTexts(texts).value));
  }

  /** What the inference returns: a term and a year, each possibly None. */
  datatype Inferred = Inferred(term: Option<string>, year: Option<string>)

  const NoneInferred := Inferred(None, None)

  function FromSeason(h: Hit): Inferred { Inferred(SeasonTerm(h.word), Some(h.year)) }

  function FromMonth(h: Hit): Inferred { Inferred(MonthTerm(h.word), Some(h.year)) }

  // ----- the clean-update revision -----

  /** `re.search(ctx_pat, hay, re.I)`: a context word anywhere, even inside a longer word. */
  predicate HasContext(hay: string) {
    AnyContained(LowerStr(hay), ContextWords)
  }

  /** The clean-update inference on a haystack: nothing without a context word; then the
      leftmost season and year; then the leftmost month and year. */
  function InferUpdateIn(hay: string): Inferred {
    if !HasContext(hay) then NoneInferred
    else match SearchFrom(hay, SeasonWords, 0)
      case Some(h) => FromSeason(h)
      case None =>
        match SearchFrom(hay, MonthWords, 0)
        case Some(h) => FromMonth(h)
        case None => NoneInferred
  }

  /** `_extract_start_term_year` of the clean-update revision. */
  function InferUpdate(texts: seq<Json>): Result<Inferred> {
    match Haystack(texts)
    case TypeError => TypeError
    case Ok(None) => Ok(NoneInferred)
    case Ok(Some(hay)) => Ok(InferUpdateIn(hay))
  }

  /** What the clean-update inference promises: nothing without a context word; a year
      only as "20" and two digits; a term only with a year, and then one of the four
      seasons; a season mentioned with a year outranks any month. */
  lemma InferUpdateSound(hay: string)
    ensures !HasContext(hay) ==> InferUpdateIn(hay) == NoneInferred
    ensures var r := InferUpdateIn(hay);
      && (r.year.Some? ==> HasContext(hay) && IsYear(r.year.value))
      && (r.term.Some? ==> r.year.Some? && IsTerm(r.term.value))
    ensures HasContext(hay) && SearchFrom(hay, SeasonWords, 0).Some? ==>
      InferUpdateIn(hay) == FromSeason(SearchFrom(hay, SeasonWords, 0).value)
  {
    var r := InferUpdateIn(hay);
    if HasContext(hay) {
      match SearchFrom(hay, SeasonWords, 0)
      case Some(h) =>
        SearchHitSound(hay, SeasonWords, 0);
        TermsAreSeasons(h.word);
      case None =>
        match SearchFrom(hay, MonthWords, 0)
        case Some(h) =>
          SearchHitSound(hay, MonthWords, 0);
          TermsAreSeasons(h.word);
        case None =>
    }
  }

  /** A search result is a match of one of the words, with a year. */
  lemma {:induction false} SearchHitSound(t: string, words: seq<string>, i: nat)
    requires i <= |t| && SearchFrom(t, words, i).Some?
    ensures var h := SearchFrom(t, words, i).value; h.word in words && IsYear(h.year) && h.end <= |t|
    decreases |t| - i
  {
    if WordYearAt(t, words, i).Some? {
      WordYearAtSound(t, words, i);
    } else {
      SearchHitSound(t, words, i + 1);
    }
  }

  lemma {:induction false} WordYearAtSound(t: string, words: seq<string>, i: nat)
    requires WordYearAt(t, words, i).Some?
    ensures var h := WordYearAt(t, words, i).value;
      h.word in words && IsYear(h.year) && h.end <= |t| && FitsAt(t, h.word, i) && h == HitFor(t, h.word, i)
    decreases |words|
  {
    if !FitsAt(t, words[0], i) {
      WordYearAtSound(t, words[1..], i);
    }
  }

  // ----- the clean-full revision -----

  /** `.{0,50}` from `e`: the longest run the dot covers, at most 50 characters and
      stopping before a newline. */
  function DotRun(t: string, e: nat, n: nat): (g: nat)
    requires e + n <= |t| && n <= 50
    ensures n <= g <= 50 && e + g <= |t|
    ensures forall j :: e + n <= j < e + g ==> t[j] != '\n'
    ensures g < 50 && e + g < |t| ==> t[e + g] == '\n'
    decreases 50 - n
  {
    if n == 50 || e + n == |t| || t[e + n] == '\n' then n else DotRun(t, e, n + 1)
  }

  function GapLimit(t: string, e: nat): nat
    requires e <= |t|
  {
    DotRun(t, e, 0)
  }

  /** `.{0,g}` then the month-and-year pattern, from `e`: the greedy gap is tried longest
      first. */
  function MonthAfterGap(t: string, months: seq<string>, e: nat, g: nat): Option<Hit>
    decreases g
  {
    if WordYearAt(t, months, e + g).Some? then WordYearAt(t, months, e + g)
    else if g == 0 then None
    else MonthAfterGap(t, months, e, g - 1)
  }

  /** Some context word stands as a whole word at `p`. */
  predicate ContextAt(t: string, ctxs: seq<string>, p: nat)
    decreases |ctxs|
  {
    ctxs != [] && (PhraseAt(t, ctxs[0], p) || ContextAt(t, ctxs[1..], p))
  }

  /** `.{0,g}\b(<context>)\b` from `e`. */
  predicate ContextAfterGap(t: string, ctxs: seq<string>, e: nat, g: nat)
    decreases g
  {
    ContextAt(t, ctxs, e + g) || (g > 0 && ContextAfterGap(t, ctxs, e, g - 1))
  }

  /** The first alternative at `i`: a context word, a gap of at most 50, a month and a
      year. The context alternatives are tried in order. */
  function ContextThenMonth(t: string, ctxs: seq<string>, months: seq<string>, i: nat): Option<Hit>
    decreases |ctxs|
  {
    if ctxs == [] then None
    else
      var e := i + |ctxs[0]|;
      if PhraseAt(t, ctxs[0], i) && MonthAfterGap(t, months, e, GapLimit(t, e)).Some? then
        MonthAfterGap(t, months, e, GapLimit(t, e))
      else ContextThenMonth(t, ctxs[1..], months, i)
  }

  /** The second alternative at `i`: a month and a year, a gap of at most 50, then a
      context word. The month alternatives are tried in order. */
  function MonthThenContext(t: string, months: seq<string>, ctxs: seq<string>, i: nat): Option<Hit>
    decreases |months|
  {
    if months == [] then None
    else if FitsAt(t, months[0], i) && ContextAfterGap(t, ctxs, HitFor(t, months[0], i).end, GapLimit(t, HitFor(t, months[0], i).end)) then
      Some(HitFor(t, months[0], i))
    else MonthThenContext(t, months[1..], ctxs, i)
  }

  /** The combined pattern searched from `i`: at each index the first alternative is
      tried before the second. */
  function NearSearchFrom(t: string, months: seq<string>, ctxs: seq<string>, i: nat): Option<Hit>
    requires i <= |t|
    decreases |t| - i
  {
    if i == |t| then None
    else if ContextThenMonth(t, ctxs, months, i).Some? then ContextThenMonth(t, ctxs, months, i)
    else if MonthThenContext(t, months, ctxs, i).Some? then MonthThenContext(t, months, ctxs, i)
    else NearSearchFrom(t, months, ctxs, i + 1)
  }

  /** The clean-full inference on a haystack: the leftmost season and year, whatever the
      context; then a month and year with a context word at most 50 characters before
      or after. */
  function InferFullIn(hay: string): Inferred {
    match SearchFrom(hay, SeasonWords, 0)
    case Some(h) => FromSeason(h)
    case None =>
      match NearSearchFrom(hay, MonthWords, ContextWords, 0)
      case Some(h) => FromMonth(h)
      case None => NoneInferred
  }

  /** `_extract_start_term_year` of the clean-full revision. */
  function InferFull(texts: seq<Json>): Result<Inferred> {
    match Haystack(texts)
    case TypeError => TypeError
    case Ok(None) => Ok(NoneInferred)
    case Ok(Some(hay)) => Ok(InferFullIn(hay))
  }

  /** A month the near-search reports sits at `k`, and a context word `c` sits at `p`,
      either ending at most 50 characters before the month or starting at most 50
      characters after the year. */
  lemma {:induction false} NearSearchWitness(t: string, months: seq<string>, ctxs: seq<string>, i: nat)
    returns (k: nat, c: string, p: nat)
    requires i <= |t| && NearSearchFrom(t, months, ctxs, i).Some?
    ensures var h := NearSearchFrom(t, months, ctxs, i).value;
      && i <= k && h.word in months && FitsAt(t, h.word, k) && h == HitFor(t, h.word, k)
      && c in ctxs && PhraseAt(t, c, p)
      && ((p + |c| <= k <= p + |c| + 50) || (h.end <= p <= h.end + 50))
    decreases |t| - i
  {
    if ContextThenMonth(t, ctxs, months, i).Some? {
      k, c, p := ContextThenMonthWitness(t, ctxs, months, i);
    } else if MonthThenContext(t, months, ctxs, i).Some? {
      k, c, p := MonthThenContextWitness(t, months, ctxs, i);
    } else {
      k, c, p := NearSearchWitness(t, months, ctxs, i + 1);
    }
  }

  lemma {:induction false} MonthAfterGapWitness(t: string, months: seq<string>, e: nat, g: nat) returns (k: nat)
    requires MonthAfterGap(t, months, e, g).Some?
    ensures var h := MonthAfterGap(t, months, e, g).value;
      e <= k <= e + g && h.word in months && FitsAt(t, h.word, k) && h == HitFor(t, h.word, k)
    decreases g
  {
    if WordYearAt(t, months, e + g).Some? {
      WordYearAtSound(t, months, e + g);
      k := e + g;
    } else {
      assert MonthAfterGap(t, months, e, g) == MonthAfterGap(t, months, e, g - 1);
      k := MonthAfterGapWitness(t, months, e, g - 1);
    }
  }

  lemma {:induction false} ContextThenMonthWitness(t: string, ctxs: seq<string>, months: seq<string>, i: nat)
    returns (k: nat, c: string, p: nat)
    requires ContextThenMonth(t, ctxs, months, i).Some?
    ensures var h := ContextThenMonth(t, ctxs, months, i).value;
      && i <= k && h.word in months && FitsAt(t, h.word, k) && h == HitFor(t, h.word, k)
      && c in ctxs && PhraseAt(t, c, p) && p + |c| <= k <= p + |c| + 50
    decreases |ctxs|
  {
    var e := i + |ctxs[0]|;
    if PhraseAt(t, ctxs[0], i) && MonthAfterGap(t, months, e, GapLimit(t, e)).Some? {
      assert ContextThenMonth(t, ctxs, months, i) == MonthAfterGap(t, months, e, GapLimit(t, e));
      k := MonthAfterGapWitness(t, months, e, GapLimit(t, e));
      c, p := ctxs[0], i;
    } else {
      assert ContextThenMonth(t, ctxs, months, i) == ContextThenMonth(t, ctxs[1..], months, i);
      k, c, p := ContextThenMonthWitness(t, ctxs[1..], months, i);
    }
  }

  lemma {:induction false} ContextAtWitness(t: string, ctxs: seq<string>, q: nat) returns (c: string)
    requires ContextAt(t, ctxs, q)
    ensures c in ctxs && PhraseAt(t, c, q)
    decreases |ctxs|
  {
    if PhraseAt(t, ctxs[0], q) {
      c := ctxs[0];
    } else {
      c := ContextAtWitness(t, ctxs[1..], q);
    }
  }

  lemma {:induction false} ContextAfterGapWitness(t: string, ctxs: seq<string>, e: nat, g: nat) returns (c: string, p: nat)
    requires ContextAfterGap(t, ctxs, e, g)
    ensures c in ctxs && PhraseAt(t, c, p) && e <= p <= e + g
    decreases g
  {
    if ContextAt(t, ctxs, e + g) {
      c := ContextAtWitness(t, ctxs, e + g);
      p := e + g;
    } else {
      c, p := ContextAfterGapWitness(t, ctxs, e, g - 1);
    }
  }

  lemma {:induction false} MonthThenContextWitness(t: string, months: seq<string>, ctxs: seq<string>, i: nat)
    returns (k: nat, c: string, p: nat)
    requires MonthThenContext(t, months, ctxs, i).Some?
    ensures var h := MonthThenContext(t, months, ctxs, i).value;
      && i <= k && h.word in months && FitsAt(t, h.word, k) && h == HitFor(t, h.word, k)
      && c in ctxs && PhraseAt(t, c, p) && h.end <= p <= h.end + 50
    decreases |months|
  {
    if FitsAt(t, months[0], i) && ContextAfterGap(t, ctxs, HitFor(t, months[0], i).end, GapLimit(t, HitFor(t, months[0], i).end)) {
      var h := HitFor(t, months[0], i);
      k := i;
      c, p := ContextAfterGapWitness(t, ctxs, h.end, GapLimit(t, h.end));
    } else {
      k, c, p := MonthThenContextWitness(t, months[1..], ctxs, i);
    }
  }

  /** What the clean-full inference promises: a year only as "20" and two digits; a
      term only with a year, and then one of the four seasons; the leftmost season and
      year wins whatever the context. */
  lemma InferFullSound(hay: string)
    ensures var r := InferFullIn(hay);
      && (r.year.Some? ==> IsYear(r.year.value))
      && (r.term.Some? ==> r.year.Some? && IsTerm(r.term.value))
    ensures SearchFrom(hay, SeasonWords, 0).Some? ==>
      InferFullIn(hay) == FromSeason(SearchFrom(hay, SeasonWords, 0).value)
  {
    match SearchFrom(hay, SeasonWords, 0)
    case Some(h) =>
      SearchHitSound(hay, SeasonWords, 0);
      TermsAreSeasons(h.word);
    case None =>
      match NearSearchFrom(hay, MonthWords, ContextWords, 0)
      case Some(h) =>
        var k, c, p := NearSearchWitness(hay, MonthWords, ContextWords, 0);
        TermsAreSeasons(h.word);
      case None =>
  }

  /** The two revisions part ways on a season and year mentioned without any context
      word: the clean-update revision infers nothing, the clean-full one takes it. */
  lemma SeasonWithoutContext(hay: string)
    requires !HasContext(hay) && SearchFrom(hay, SeasonWords, 0).Some?
    ensures InferUpdateIn(hay) == NoneInferred
    ensures InferFullIn(hay) == FromSeason(SearchFrom(hay, SeasonWords, 0).value)
    ensures InferFullIn(hay).year.Some? && InferFullIn(hay).term.Some?
  {
    SearchHitSound(hay, SeasonWords, 0);
  }
}
