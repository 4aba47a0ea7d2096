/** The loaders: `load_update.py` and `load_data.py` of modules 3 to 5. Each reads a JSON
    list of records, builds one `applicants` row per record and runs
    `INSERT ... ON CONFLICT (url) DO NOTHING` for it, counting the inserts whose rowcount
    is 1, inside one transaction that is committed at the end. The revisions differ in
    how they build `term` and in whether they fill the two LLM columns. */
module Loader {
  import opened Util
  import opened PyJson
  import opened Dates

  /** A row of `applicants`. The float columns hold what `float()` gave, as an abstract
      number. */
  datatype Row = Row(
    program: Json, university: Json, comments: Json, dateAdded: Option<Date>, url: Json,
    status: Json, term: Json, usOrInternational: Json,
    gpa: Option<real>, gre: Option<real>, greV: Option<real>, greAw: Option<real>,
    degree: Json, llmProgram: Json, llmUniversity: Json)

  /** The loader scripts, by the way they build a row. */
  datatype Loader =
    | UpdateStripped  // module_3/load_update.py
    | UpdateTruthy    // module_4/src/load_update.py and module_5/src/load_update.py
    | FullLoad        // load_data.py of modules 3, 4 and 5

  // ----- building a row -----

  /** `float(x)` of a JSON value, None where it raises an error that `safe_float` catches;
      supplied by the caller, since floating point is not part of this model. */
  type FloatOf = Json -> Option<real>

  /** `safe_float(x)`: None and "" give None without calling `float`; every other value is
      converted, a conversion error that the except clause catches giving None. */
  function SafeFloat(x: Json, float: FloatOf): (r: Option<real>)
    ensures x == Null || x == Str("") ==> r == None
    ensures r.Some? ==> r == float(x)
  {
    if x == Null || x == Str("") then None else float(x)
  }

  /** `entry.get(k, d)`. */
  function GetOr(e: Record, k: string, d: Json): Json {
    if k in e then e[k] else d
  }

  /** A text with no surrounding whitespace, which `strip()` leaves as it is. */
  predicate Trimmed(s: string) {
    s == [] || (!IsSpace(s[0]) && !IsSpace(s[|s| - 1]))
  }

  /** module_3's `f"{start_term} {start_year}".strip()`, where a missing key contributes
      "" and a None value renders as "None". */
  function TermStripped(e: Record): (r: Json)
    ensures r.Str? && Trimmed(r.s)
  {
    Str(Strip(Render(GetOr(e, "start_term", Str(""))) + " " + Render(GetOr(e, "start_year", Str("")))))
  }

  /** The update loaders of modules 4 and 5: "T Y" when both parts are truthy, the one
      truthy part alone, and None when neither is. */
  function TermTruthy(e: Record): (r: Json)
    ensures var t := Get(e, "start_term"); var y := Get(e, "start_year");
      && (r == Null <==> !Truthy(t) && !Truthy(y))
      && (Truthy(t) && Truthy(y) ==> r == Str(Render(t) + " " + Render(y)))
      && (Truthy(t) && !Truthy(y) ==> r == t)
      && (!Truthy(t) && Truthy(y) ==> r == y)
  {
    var t := Get(e, "start_term");
    var y := Get(e, "start_year");
    if Truthy(t) && Truthy(y) then Str(Render(t) + " " + Render(y))
    else if Truthy(t) then t
    else if Truthy(y) then y
    else Null
  }

  /** `load_data.py`: None when both parts are None or missing, and otherwise the stripped
      f-string with "" for a missing key. */
  function TermNoneRule(e: Record): (r: Json)
    ensures r == Null <==> Get(e, "start_term") == Null && Get(e, "start_year") == Null
    ensures r != Null ==> r == TermStripped(e)
  {
    if Get(e, "start_term") == Null && Get(e, "start_year") == Null then Null
    else TermStripped(e)
  }

  function TermFor(loader: Loader, e: Record): Json {
    match loader
    case UpdateStripped => TermStripped(e)
    case UpdateTruthy => TermTruthy(e)
    case FullLoad => TermNoneRule(e)
  }

  /** The row built from record `e`, or the TypeError `parse_date` lets through for a
      truthy `date_posted` that is not a string. */
  function RowOf(loader: Loader, e: Record, float: FloatOf): (r: Result<Row>)
    ensures r.TypeError? <==> DateRaises(Get(e, "date_posted"))
    ensures r.Ok? ==> r.value.url == Get(e, "entry_url")
  {
    match ParseDate(Get(e, "date_posted"))
    case TypeError => TypeError
    case Ok(date) =>
      Ok(Row(
        program := Get(e, "program"), university := Get(e, "university"),
        comments := Get(e, "comments"), dateAdded := date, url := Get(e, "entry_url"),
        status := Get(e, "applicant_status"), term := TermFor(loader, e),
        usOrInternational := Get(e, "US/International"),
        gpa := SafeFloat(Get(e, "GPA"), float), gre := SafeFloat(Get(e, "gre_total"), float),
        greV := SafeFloat(Get(e, "gre_v"), float), greAw := SafeFloat(Get(e, "gre_aw"), float),
        degree := Or(Get(e, "degree_level"), Get(e, "degree")),
        llmProgram := if loader == FullLoad then Get(e, "llm-generated-program") else Null,
        llmUniversity := if loader == FullLoad then Get(e, "llm-generated-university") else Null))
  }

  /** The columns of a row and where they come from: the url as given, a date only from a
      valid "YYYY-MM-DD" string, the degree falling back from `degree_level` to `degree`,
      the LLM columns copied by `load_data.py` and left None by the update loaders, and
      None and "" numbers stored as None. */
  lemma RowColumns(loader: Loader, e: Record, float: FloatOf)
    requires RowOf(loader, e, float).Ok?
    ensures var row := RowOf(loader, e, float).value;
      && row.url == Get(e, "entry_url")
      && (row.dateAdded.Some? ==> Get(e, "date_posted").Str? && ValidDate(row.dateAdded.value))
      && (!Truthy(Get(e, "date_posted")) ==> row.dateAdded == None)
      && row.degree == (if Truthy(Get(e, "degree_level")) then Get(e, "degree_level") else Get(e, "degree"))
      && (loader != FullLoad ==> row.llmProgram == Null && row.llmUniversity == Null)
      && (loader == FullLoad ==>
            row.llmProgram == Get(e, "llm-generated-program") && row.llmUniversity == Get(e, "llm-generated-university"))
      && (Get(e, "GPA") == Str("") ==> row.gpa == None)
      && (Get(e, "gre_total") == Str("") ==> row.gre == None)
      && (Get(e, "gre_v") == Str("") ==> row.greV == None)
      && (Get(e, "gre_aw") == Str("") ==> row.greAw == None)
      && (loader == UpdateStripped ==> row.term.Str?)
  {
  }

  // ----- the term rules compared -----

  /** `strip()` of two trimmed texts joined by a space keeps the non-empty ones. */
  lemma StripJoined(a: string, b: string)
    requires Trimmed(a) && Trimmed(b)
    ensures Strip(a + " " + b) == if a == "" then b else if b == "" then a else a + " " + b
  {
    var s := a + " " + b;
    if a == "" {
      assert s[1..] == b;
      assert StripStart(s) == 1 + StripStart(b);
    } else if b == "" {
      assert s[..|s| - 1] == a;
      assert StripEnd(s, 0) == StripEnd(a, 0);
    } else {
      StripOfStripped(s);
    }
  }

  /** A `start_term`/`start_year` that is missing or a non-blank trimmed string. */
  predicate PartGiven(e: Record, k: string) {
    k !in e || (e[k].Str? && e[k].s != "" && Trimmed(e[k].s))
  }

  /** On records whose parts are missing or non-blank trimmed strings the revisions agree:
      "T Y", the one part present, or nothing; module_3 stores "" where the others store
      None. */
  lemma TermRulesAgree(e: Record)
    requires PartGiven(e, "start_term") && PartGiven(e, "start_year")
    ensures var t := Get(e, "start_term"); var y := Get(e, "start_year");
      && TermNoneRule(e) == (if t.Str? && y.Str? then Str(t.s + " " + y.s) else if t.Str? then t else y)
      && TermTruthy(e) == TermNoneRule(e)
      && TermStripped(e) == (if t == Null && y == Null then Str("") else TermNoneRule(e))
  {
    var t := GetOr(e, "start_term", Str(""));
    var y := GetOr(e, "start_year", Str(""));
    StripJoined(Render(t), Render(y));
  }

  /** Where the revisions part ways: a year present as None next to a term is dropped by the
      truthiness rule but rendered as "None" by the other two. */
  lemma TermRulesNoneYear(t: string)
    requires t != "" && Trimmed(t)
    ensures var e := map["start_term" := Str(t), "start_year" := Null];
      && TermTruthy(e) == Str(t)
      && TermNoneRule(e) == Str(t + " None")
      && TermStripped(e) == Str(t + " None")
  {
    StripJoined(t, "None");
  }

  /** Blank parts: the truthiness rule stores None, the other two store "". */
  lemma TermRulesBlankParts()
    ensures var e := map["start_term" := Str(""), "start_year" := Str("")];
      && TermTruthy(e) == Null
      && TermNoneRule(e) == Str("")
      && TermStripped(e) == Str("")
  {
    StripJoined("", "");
  }

  // ----- the table -----

  /** The rows of `applicants`: those with a url, by url (the UNIQUE column), and those whose
      url is NULL, which a UNIQUE constraint never compares. */
  datatype Rows = Rows(byUrl: map<Json, Row>, unkeyed: seq<Row>)

  /** Every keyed row is filed under its own url, and the unkeyed rows are those with none. */
  predicate WellKeyed(t: Rows) {
    && (forall u :: u in t.byUrl ==> u != Null && t.byUrl[u].url == u)
    && (forall i :: 0 <= i < |t.unkeyed| ==> t.unkeyed[i].url == Null)
  }

  function RowCount(t: Rows): nat {
    |t.byUrl| + |t.unkeyed|
  }

  /** `t2` holds every row of `t` unchanged. */
  predicate Extends(t: Rows, t2: Rows) {
    && (forall u :: u in t.byUrl ==> u in t2.byUrl && t2.byUrl[u] == t.byUrl[u])
    && t.unkeyed <= t2.unkeyed
  }

  /** The table after an INSERT and the rowcount the cursor reports. */
  datatype Insertion = Insertion(rows: Rows, rowcount: nat)

  /** `INSERT ... ON CONFLICT (url) DO NOTHING`: a row whose url is NULL or not yet in the
      table is added and reported as 1 row; a conflicting one changes nothing. */
  function Insert(t: Rows, row: Row): (r: Insertion)
    ensures r.rowcount <= 1
    ensures r.rowcount == 1 <==> row.url == Null || row.url !in t.byUrl
  {
    if row.url == Null then Insertion(Rows(t.byUrl, t.unkeyed + [row]), 1)
    else if row.url in t.byUrl then Insertion(t, 0)
    else Insertion(Rows(t.byUrl[row.url := row], t.unkeyed), 1)
  }

  /** An insert keeps every row there was, adds as many rows as it reports, files the new
      row under its url and keeps the table well keyed. */
  lemma InsertKeeps(t: Rows, row: Row)
    ensures var r := Insert(t, row);
      && RowCount(r.rows) == RowCount(t) + r.rowcount
      && Extends(t, r.rows)
      && (WellKeyed(t) ==> WellKeyed(r.rows))
      && (row.url != Null ==> row.url in r.rows.byUrl)
  {
  }

  /** The rows inserted one after the other, and the number of inserts that added a row. */
  function InsertAll(t: Rows, rows: seq<Row>): (r: Insertion)
    ensures r.rowcount <= |rows|
  {
    if rows == [] then Insertion(t, 0)
    else
      var p := InsertAll(t, rows[..|rows| - 1]);
      var q := Insert(p.rows, rows[|rows| - 1]);
      Insertion(q.rows, p.rowcount + q.rowcount)
  }

  /** A run of inserts keeps every row there was, adds as many rows as it counts, keeps the
      table well keyed and leaves every url it was given in the table. */
  lemma {:induction false} InsertAllKeeps(t: Rows, rows: seq<Row>)
    ensures var r := InsertAll(t, rows);
      && RowCount(r.rows) == RowCount(t) + r.rowcount
      && Extends(t, r.rows)
      && (WellKeyed(t) ==> WellKeyed(r.rows))
      && forall i :: 0 <= i < |rows| && rows[i].url != Null ==> rows[i].url in r.rows.byUrl
  {
    if rows != [] {
      var init := rows[..|rows| - 1];
      InsertAllKeeps(t, init);
      var p := InsertAll(t, init);
      InsertKeeps(p.rows, rows[|rows| - 1]);
      forall i | 0 <= i < |rows| - 1 && rows[i].url != Null
        ensures rows[i].url in InsertAll(t, rows).rows.byUrl
      {
        assert init[i] == rows[i];
      }
    }
  }

  // ----- a run of main -----

  /** No record's `date_posted` makes `parse_date` raise. */
  predicate DatesParse(es: seq<Record>) {
    forall i :: 0 <= i < |es| ==> !DateRaises(Get(es[i], "date_posted"))
  }

  /** How a run turns a record into a row, or into the TypeError that stops it. */
  type Build = Record -> Result<Row>

  /** The row building of `loader`. */
  function Builder(loader: Loader, float: FloatOf): Build {
    e => RowOf(loader, e, float)
  }

  /** Every record builds a row. */
  predicate AllBuild(build: Build, es: seq<Record>) {
    forall i :: 0 <= i < |es| ==> build(es[i]).Ok?
  }

  /** A row building that files each record under its `entry_url`. */
  ghost predicate KeepsUrl(build: Build) {
    forall e :: build(e).Ok? ==> build(e).value.url == Get(e, "entry_url")
  }

  /** Every loader files a record under its `entry_url`, and builds rows for all records
      exactly when no `date_posted` makes `parse_date` raise. */
  lemma BuilderFacts(loader: Loader, float: FloatOf, es: seq<Record>)
    ensures KeepsUrl(Builder(loader, float))
    ensures AllBuild(Builder(loader, float), es) <==> DatesParse(es)
  {
    var build := Builder(loader, float);
    forall e | build(e).Ok?
      ensures build(e).value.url == Get(e, "entry_url")
    {
      assert build(e) == RowOf(loader, e, float);
    }
    forall i | 0 <= i < |es|
      ensures build(es[i]).Ok? <==> !DateRaises(Get(es[i], "date_posted"))
    {
      assert build(es[i]) == RowOf(loader, es[i], float);
    }
  }

  /** The rows built from the records, in order. */
  function RowsOf(build: Build, es: seq<Record>): (rows: seq<Row>)
    requires AllBuild(build, es)
    ensures |rows| == |es|
    ensures forall i :: 0 <= i < |es| ==> rows[i] == build(es[i]).value
  {
    if es == [] then []
    else
      var init := es[..|es| - 1];
      assert forall i :: 0 <= i < |init| ==> init[i] == es[i];
      RowsOf(build, init) + [build(es[|es| - 1]).value]
  }

  /** One more record: its row is inserted after those of the records before it. */
  lemma LoadStep(build: Build, t: Rows, es: seq<Record>, i: nat)
    requires i < |es| && AllBuild(build, es[..i + 1])
    ensures AllBuild(build, es[..i])
    ensures var p := InsertAll(t, RowsOf(build, es[..i]));
      var q := Insert(p.rows, build(es[i]).value);
      InsertAll(t, RowsOf(build, es[..i + 1])) == Insertion(q.rows, p.rowcount + q.rowcount)
  {
    var pre := es[..i + 1];
    assert pre[..i] == es[..i] && pre[i] == es[i];
    assert AllBuild(build, es[..i]) by {
      assert forall j :: 0 <= j < i ==> es[..i][j] == pre[j];
    }
    var rows := RowsOf(build, pre);
    assert rows[..i] == RowsOf(build, es[..i]);
  }

  /** How a run of `main` ends. */
  datatype Outcome =
    | Inserted(count: nat)  // committed, "Inserted <count> new rows"
    | FileNotFound          // the input file is missing
    | TypeErrorRaised         // `parse_date` raised TypeError

  datatype Effect = Effect(rows: Rows, outcome: Outcome)

  /** A run on table `t` with the records of the input file (None when it does not exist):
      FileNotFoundError before any database work; a TypeError, after which leaving the
      connection block rolls every insert back; otherwise every record inserted in order
      and the inserts that added a row counted. */
  function RunWith(t: Rows, data: Option<seq<Record>>, build: Build): (r: Effect)
    ensures !r.outcome.Inserted? ==> r.rows == t
    ensures r.outcome == FileNotFound <==> data.None?
  {
    if data.None? then Effect(t, FileNotFound)
    else if !AllBuild(build, data.value) then Effect(t, TypeErrorRaised)
    else
      var ins := InsertAll(t, RowsOf(build, data.value));
      Effect(ins.rows, Inserted(ins.rowcount))
  }

  /** `main` of the loader `loader`. */
  function Main(loader: Loader, t: Rows, data: Option<seq<Record>>, float: FloatOf): Effect {
    RunWith(t, data, Builder(loader, float))
  }

  /** What a committed run leaves: the old rows untouched, exactly `count` rows added, at
      most one per record, every record with a url present under it. */
  lemma RunCommits(t: Rows, data: Option<seq<Record>>, build: Build)
    requires KeepsUrl(build)
    ensures var r := RunWith(t, data, build);
      && (WellKeyed(t) ==> WellKeyed(r.rows))
      && Extends(t, r.rows)
      && (r.outcome.Inserted? ==>
           && data.Some? && AllBuild(build, data.value)
           && RowCount(r.rows) == RowCount(t) + r.outcome.count
           && r.outcome.count <= |data.value|
           && forall i :: 0 <= i < |data.value| && Get(data.value[i], "entry_url") != Null ==>
                Get(data.value[i], "entry_url") in r.rows.byUrl)
  {
    if data.Some? && AllBuild(build, data.value) {
      var rows := RowsOf(build, data.value);
      InsertAllKeeps(t, rows);
      assert forall i :: 0 <= i < |data.value| ==> rows[i].url == Get(data.value[i], "entry_url");
    }
  }

  /** `main` of every loader: FileNotFoundError exactly when the file is missing, TypeError
      exactly when some `date_posted` is truthy and not a string, both leaving the table as
      it was; a committed run keeps the old rows, adds exactly `count` rows, at most one per
      record, keeps one row per url and leaves every record's url in the table. */
  lemma MainCommits(loader: Loader, t: Rows, data: Option<seq<Record>>, float: FloatOf)
    requires WellKeyed(t)
    ensures var r := Main(loader, t, data, float);
      && (r.outcome == TypeErrorRaised <==> data.Some? && !DatesParse(data.value))
      && (!r.outcome.Inserted? ==> r.rows == t)
      && WellKeyed(r.rows)
      && Extends(t, r.rows)
      && (r.outcome.Inserted? ==>
           && RowCount(r.rows) == RowCount(t) + r.outcome.count
           && r.outcome.count <= |data.value|
           && forall i :: 0 <= i < |data.value| && Get(data.value[i], "entry_url") != Null ==>
                Get(data.value[i], "entry_url") in r.rows.byUrl)
  {
    BuilderFacts(loader, float, if data.Some? then data.value else []);
    RunCommits(t, data, Builder(loader, float));
  }

  /** The url-less rows among `rows`. */
  function Unkeyed(rows: seq<Row>): (r: seq<Row>)
    ensures |r| <= |rows|
  {
    if rows == [] then []
    else Unkeyed(rows[..|rows| - 1]) + (if rows[|rows| - 1].url == Null then [rows[|rows| - 1]] else [])
  }

  /** Inserting rows whose urls are all in the table adds only the url-less ones. */
  lemma {:induction false} InsertAllSeen(t: Rows, rows: seq<Row>)
    requires forall i :: 0 <= i < |rows| && rows[i].url != Null ==> rows[i].url in t.byUrl
    ensures InsertAll(t, rows) == Insertion(Rows(t.byUrl, t.unkeyed + Unkeyed(rows)), |Unkeyed(rows)|)
  {
    if rows != [] {
      var init := rows[..|rows| - 1];
      assert forall i :: 0 <= i < |init| ==> init[i] == rows[i];
      InsertAllSeen(t, init);
    }
  }

  /** Records that all have a url build no url-less row. */
  lemma {:induction false} NoUnkeyed(build: Build, es: seq<Record>)
    requires KeepsUrl(build) && AllBuild(build, es)
    requires forall i :: 0 <= i < |es| ==> Get(es[i], "entry_url") != Null
    ensures Unkeyed(RowsOf(build, es)) == []
  {
    if es != [] {
      var init := es[..|es| - 1];
      assert forall i :: 0 <= i < |init| ==> init[i] == es[i];
      NoUnkeyed(build, init);
      assert RowsOf(build, es)[..|es| - 1] == RowsOf(build, init);
    }
  }

  /** A second run on the same records adds only the url-less ones. */
  lemma RunTwice(t: Rows, es: seq<Record>, build: Build)
    requires KeepsUrl(build) && AllBuild(build, es)
    ensures var once := RunWith(t, Some(es), build).rows;
      var twice := RunWith(once, Some(es), build);
      && twice.rows.byUrl == once.byUrl
      && twice.outcome == Inserted(|Unkeyed(RowsOf(build, es))|)
      && ((forall i :: 0 <= i < |es| ==> Get(es[i], "entry_url") != Null) ==> twice == Effect(once, Inserted(0)))
  {
    var rows := RowsOf(build, es);
    InsertAllKeeps(t, rows);
    InsertAllSeen(InsertAll(t, rows).rows, rows);
    if forall i :: 0 <= i < |es| ==> Get(es[i], "entry_url") != Null {
      NoUnkeyed(build, es);
    }
  }

  /** Loading the same file again adds only the records without a url (a NULL never
      conflicts) and leaves the keyed rows as they are; a file whose records all have a url
      inserts nothing the second time and leaves the table unchanged. */
  lemma LoadTwice(loader: Loader, t: Rows, es: seq<Record>, float: FloatOf)
    requires DatesParse(es)
    ensures var once := Main(loader, t, Some(es), float).rows;
      var twice := Main(loader, once, Some(es), float);
      && twice.rows.byUrl == once.byUrl
      && twice.outcome.Inserted?
      && twice.outcome.count <= |es|
      && ((forall i :: 0 <= i < |es| ==> Get(es[i], "entry_url") != Null) ==> twice == Effect(once, Inserted(0)))
  {
    BuilderFacts(loader, float, es);
    RunTwice(t, es, Builder(loader, float));
  }

  /** Three inserts into an empty table where the third repeats the first url: two rows are
      added. */
  lemma ThreeAttemptsOneConflict(a: Row, b: Row, c: Row)
    requires a.url != Null && b.url != Null && b.url != a.url && c.url == a.url
    ensures InsertAll(Rows(map[], []), [a, b, c]).rowcount == 2
  {
    var empty := Rows(map[], []);
    assert [a, b, c][..2] == [a, b] && [a, b][..1] == [a] && [a][..0] == [];
    assert InsertAll(empty, []) == Insertion(empty, 0);
    var one := InsertAll(empty, [a]);
    assert one == Insertion(Rows(map[a.url := a], []), 1);
    var two := InsertAll(empty, [a, b]);
    assert two == Insertion(Rows(map[a.url := a][b.url := b], []), 2);
  }

  /** Two pulls of two records each that share one url leave three rows. */
  lemma OverlappingPulls(a: Row, b: Row, c: Row, d: Row)
    requires a.url != Null && b.url != Null && d.url != Null
    requires a.url != b.url && c.url == b.url && d.url != a.url && d.url != b.url
    ensures var first := InsertAll(Rows(map[], []), [a, b]);
      var second := InsertAll(first.rows, [c, d]);
      first.rowcount == 2 && second.rowcount == 1 && RowCount(second.rows) == 3
  {
    var empty := Rows(map[], []);
    assert [a, b][..1] == [a] && [c, d][..1] == [c] && [a][..0] == [] && [c][..0] == [];
    assert InsertAll(empty, []) == Insertion(empty, 0);
    var one := InsertAll(empty, [a]);
    assert one == Insertion(Rows(map[a.url := a], []), 1);
    var first := InsertAll(empty, [a, b]);
    assert first == Insertion(Rows(map[a.url := a][b.url := b], []), 2);
    assert InsertAll(first.rows, []) == Insertion(first.rows, 0);
    var third := InsertAll(first.rows, [c]);
    assert third == Insertion(first.rows, 0);
  }

  /** The `applicants` table, which the loaders change one INSERT at a time. */
  class Table {
    var byUrl: map<Json, Row>
    var unkeyed: seq<Row>

    function State(): Rows
      reads this
    {
      Rows(byUrl, unkeyed)
    }

    constructor ()
      ensures State() == Rows(map[], [])
    {
      byUrl := map[];
      unkeyed := [];
    }

    /** One `INSERT ... ON CONFLICT (url) DO NOTHING` and the rowcount it reports. */
    method InsertOrIgnore(row: Row) returns (rowcount: nat)
      modifies this
      ensures Insertion(State(), rowcount) == Insert(old(State()), row)
    {
      if row.url == Null {
        unkeyed := unkeyed + [row];
        rowcount := 1;
      } else if row.url in byUrl {
        rowcount := 0;
      } else {
        byUrl := byUrl[row.url := row];
        rowcount := 1;
      }
    }

    /** `main` of the loader `loader`. */
    method Load(loader: Loader, data: Option<seq<Record>>, float: FloatOf) returns (outcome: Outcome)
      modifies this
      ensures Effect(State(), outcome) == Main(loader, old(State()), data, float)
    {
      outcome := Run(data, Builder(loader, float));
    }

    /** The body of `main`: the records of the input file inserted one by one, counting the
        inserts whose rowcount is 1; a TypeError while building a row rolls the table back to
        where the transaction began. */
    method Run(data: Option<seq<Record>>, build: Build) returns (outcome: Outcome)
      modifies this
      ensures Effect(State(), outcome) == RunWith(old(State()), data, build)
    {
      if data.None? {
        return FileNotFound;
      }
      var es := data.value;
      var start := State();
      var inserted := 0;
      var i := 0;
      while i < |es|
        invariant 0 <= i <= |es|
        invariant AllBuild(build, es[..i])
        invariant InsertAll(start, RowsOf(build, es[..i])) == Insertion(State(), inserted)
      {
        var row := build(es[i]);
        if row.TypeError? {
          byUrl, unkeyed := start.byUrl, start.unkeyed;
          assert !AllBuild(build, es);
          return TypeErrorRaised;
        }
        assert AllBuild(build, es[..i + 1]) by {
          assert forall j :: 0 <= j < i ==> es[..i + 1][j] == es[..i][j];
        }
        LoadStep(build, start, es, i);
        var rowcount := InsertOrIgnore(row.value);
        if rowcount == 1 {
          inserted := inserted + 1;
        }
        i := i + 1;
      }
      assert es[..i] == es;
      return Inserted(inserted);
    }
  }

  // ----- the input file of load_data.py -----

  /** Where `load_data.py` looks for its input, relative to the module directory. */
  const Candidates: seq<string> := ["llm_extend_applicant_data.json", "src/llm_extend_applicant_data.json"]

  /** `next((p for p in candidates if p.exists()), None)`. */
  function FirstExisting(candidates: seq<string>, isFile: string -> bool): (r: Option<string>)
    ensures r.None? <==> forall i :: 0 <= i < |candidates| ==> !isFile(candidates[i])
    ensures r.Some? ==> exists i :: 0 <= i < |candidates| && candidates[i] == r.value && isFile(candidates[i]) &&
                                    forall j :: 0 <= j < i ==> !isFile(candidates[j])
  {
    if candidates == [] then None
    else if isFile(candidates[0]) then Some(candidates[0])
    else
      var r := FirstExisting(candidates[1..], isFile);
      assert r.Some? ==> exists i :: 1 <= i < |candidates| && candidates[i] == r.value && isFile(candidates[i]) &&
                                     forall j :: 1 <= j < i ==> !isFile(candidates[j]);
      r
  }

  /** The input path `load_data.py` settles on when imported; None means the import raises
      FileNotFoundError. The top-level file is preferred over the one under `src/`. */
  lemma InputPath(isFile: string -> bool)
    ensures isFile(Candidates[0]) ==> FirstExisting(Candidates, isFile) == Some(Candidates[0])
    ensures !isFile(Candidates[0]) && isFile(Candidates[1]) ==> FirstExisting(Candidates, isFile) == Some(Candidates[1])
    ensures !isFile(Candidates[0]) && !isFile(Candidates[1]) ==> FirstExisting(Candidates, isFile) == None
  {
  }
}
