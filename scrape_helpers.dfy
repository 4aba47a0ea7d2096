/** The text helpers the harvester applies to listing rows and detail pages: the label
    filter, number extraction, the zero filter, the degree tier, the comment-cell
    cleanup and the decision-column parser. The revisions share these word for word. */
module ScrapeHelpers {
  import opened Util

  // ----- label-as-value filter -----

  /** Labels of the detail page that are sometimes scraped as if they were values. */
  const LabelGarbage: set<string> := {
    "GRE General:", "GRE Verbal:", "Analytical Writing:", "Notes",
    "Undergrad GPA", "Degree Type", "Degree's Country of Origin",
    "Timeline", "Admissions", "Results", "Logo"
  }

  /** A stripped text that is really a label: a member of `LabelGarbage`, or a short text
      ending in ':'. */
  predicate LooksLikeLabel(t: string) {
    t in LabelGarbage || (EndsWith(t, ":") && |t| <= 25)
  }

  /** `_clean_bad_label_values`: strip, and drop blank text and label-like text. */
  function CleanBadLabelValues(v: Option<string>): (r: Option<string>)
    ensures r == None <==> v == None || Strip(v.value) == "" || LooksLikeLabel(Strip(v.value))
    ensures r.Some? ==> r.value == Strip(v.value)
  {
    match v
    case None => None
    case Some(x) =>
      var t := Strip(x);
      if t == "" || LooksLikeLabel(t) then None else Some(t)
  }

  /** Filtering twice is filtering once. */
  lemma CleanBadLabelValuesIdempotent(v: Option<string>)
    ensures CleanBadLabelValues(CleanBadLabelValues(v)) == CleanBadLabelValues(v)
  {
    if CleanBadLabelValues(v).Some? {
      StripOfStripped(CleanBadLabelValues(v).value);
    }
  }

  // ----- numbers -----

  /** The first index at or after `i` holding an ASCII digit (`|s|` if there is none). */
  function FirstDigitFrom(s: string, i: nat): (k: nat)
    requires i <= |s|
    ensures i <= k <= |s| && (k < |s| ==> IsDigit(s[k]))
    ensures forall j :: i <= j < k ==> !IsDigit(s[j])
    decreases |s| - i
  {
    if i == |s| || IsDigit(s[i]) then i else FirstDigitFrom(s, i + 1)
  }

  /** The end of the run of digits that starts at `i`. */
  function DigitsEnd(s: string, i: nat): (k: nat)
    requires i <= |s|
    ensures i <= k <= |s| && AllDigits(s[i..k]) && (k < |s| ==> !IsDigit(s[k]))
    decreases |s| - i
  {
    if i < |s| && IsDigit(s[i]) then
      var k := DigitsEnd(s, i + 1);
      assert s[i..k] == [s[i]] + s[i + 1..k];
      k
    else i
  }

  /** Where the match of `\d+(?:\.\d+)?` that starts at digit `i` ends: the digit run,
      extended by '.' and a second digit run when one follows. */
  function NumberEnd(s: string, i: nat): (k: nat)
    requires i <= |s|
    ensures DigitsEnd(s, i) <= k <= |s| && (k < |s| ==> !IsDigit(s[k]))
    ensures var j := DigitsEnd(s, i); k > j <==> j + 1 < |s| && s[j] == '.' && IsDigit(s[j + 1])
  {
    var j := DigitsEnd(s, i);
    if j + 1 < |s| && s[j] == '.' && IsDigit(s[j + 1]) then DigitsEnd(s, j + 1) else j
  }

  /** The text `\d+(?:\.\d+)?` accepts as a whole. */
  predicate IsDecimalText(t: string) {
    && t != "" && IsDigit(t[0])
    && forall k :: 0 <= k < |t| ==> IsDigit(t[k]) || (t[k] == '.' && 0 < k < |t| - 1 && forall m :: 0 <= m < |t| && m != k ==> IsDigit(t[m]))
  }

  /** `_extract_int`: the first maximal run of digits, as text. */
  function ExtractInt(s: Option<string>): (r: Option<string>)
    ensures r == None <==> s == None || FirstDigitFrom(s.value, 0) == |s.value|
    ensures r.Some? ==> r.value != "" && AllDigits(r.value) && OccursAt(s.value, r.value, FirstDigitFrom(s.value, 0))
    ensures r.Some? ==> var e := FirstDigitFrom(s.value, 0) + |r.value|; e == |s.value| || !IsDigit(s.value[e])
  {
    if s == None || s.value == "" then None
    else
      var i := FirstDigitFrom(s.value, 0);
      if i == |s.value| then None else Some(s.value[i..DigitsEnd(s.value, i)])
  }

  /** `_extract_float`: the first `digits[.digits]`, as text. It starts with the integer
      `_extract_int` finds, goes on past it exactly when a '.' and a digit follow, and
      ends where the digits after the '.' end. */
  function ExtractFloat(s: Option<string>): (r: Option<string>)
    ensures r == None <==> s == None || FirstDigitFrom(s.value, 0) == |s.value|
    ensures r.Some? ==> OccursAt(s.value, r.value, FirstDigitFrom(s.value, 0))
    ensures r.Some? ==> var x, n := s.value, ExtractInt(s).value; var e := FirstDigitFrom(x, 0) + |n|;
      && StartsWith(r.value, n)
      && (|r.value| > |n| <==> e + 1 < |x| && x[e] == '.' && IsDigit(x[e + 1]))
      && (var f := FirstDigitFrom(x, 0) + |r.value|; f == |x| || !IsDigit(x[f]))
  {
    if s == None || s.value == "" then None
    else
      var i := FirstDigitFrom(s.value, 0);
      if i == |s.value| then None else Some(s.value[i..NumberEnd(s.value, i)])
  }

  /** What `_extract_float` returns is a decimal number: digits, then optionally a '.'
      and more digits. */
  lemma ExtractFloatDecimal(s: Option<string>)
    requires ExtractFloat(s).Some?
    ensures IsDecimalText(ExtractFloat(s).value)
  {
    var x := s.value;
    var i := FirstDigitFrom(x, 0);
    var j := DigitsEnd(x, i);
    var k := NumberEnd(x, i);
    var t := x[i..k];
    assert t[..j - i] == x[i..j];
    if k != j {
      assert x[j] == '.';
      assert x[j + 1..k] == t[j - i + 1..];
      forall m | 0 <= m < |t| && m != j - i ensures IsDigit(t[m]) {
        if m < j - i { assert t[m] == x[i..j][m]; } else { assert t[m] == x[j + 1..k][m - (j - i) - 1]; }
      }
    } else {
      assert t == x[i..j];
    }
  }

  /** `_extract_float` finds a number exactly when `_extract_int` does, and its text
      starts with the integer's. */
  lemma ExtractFloatExtendsInt(s: Option<string>)
    ensures ExtractFloat(s).Some? <==> ExtractInt(s).Some?
    ensures ExtractFloat(s).Some? ==> StartsWith(ExtractFloat(s).value, ExtractInt(s).value)
  {
    if ExtractInt(s).Some? {
      var x := s.value;
      var i := FirstDigitFrom(x, 0);
      assert x[i..NumberEnd(x, i)][..DigitsEnd(x, i) - i] == x[i..DigitsEnd(x, i)];
    }
  }

  /** Extracting from an extracted integer gives it back. */
  lemma ExtractIntIdempotent(s: Option<string>)
    ensures ExtractInt(ExtractInt(s)) == ExtractInt(s)
  {
    if ExtractInt(s).Some? {
      var t := ExtractInt(s).value;
      assert FirstDigitFrom(t, 0) == 0;
      assert DigitsEnd(t, 0) == |t| by { DigitsToEnd(t, 0); }
      assert t[0..|t|] == t;
    }
  }

  lemma {:induction false} DigitsToEnd(t: string, i: nat)
    requires i <= |t| && AllDigits(t[i..])
    ensures DigitsEnd(t, i) == |t|
    decreases |t| - i
  {
    if i < |t| {
      assert t[i] == t[i..][0];
      assert t[i + 1..] == t[i..][1..];
      DigitsToEnd(t, i + 1);
    }
  }

  /** The examples of the harvester's tests, for any digits: "GPA <d>.<e>" gives
      "<d>.<e>" and "GRE <d>" gives "<d>". */
  lemma ExtractExamples(d: string, e: string)
    requires d != "" && e != "" && AllDigits(d) && AllDigits(e)
    ensures ExtractFloat(Some("GPA " + d + "." + e)) == Some(d + "." + e)
    ensures ExtractInt(Some("GRE " + d)) == Some(d)
    ensures ExtractFloat(None) == None
  {
    var x := "GPA " + d + "." + e;
    assert FirstDigitFrom(x, 0) == 4 by {
      assert !IsDigit(x[0]) && !IsDigit(x[1]) && !IsDigit(x[2]) && !IsDigit(x[3]) && x[4] == d[0];
    }
    assert x[4..4 + |d|] == d;
    assert DigitsEnd(x, 4) == 4 + |d| by {
      assert AllDigits(x[4..4 + |d|]);
      assert x[4 + |d|] == '.';
      DigitsEndIs(x, 4, 4 + |d|);
    }
    assert x[5 + |d|] == e[0];
    assert DigitsEnd(x, 5 + |d|) == |x| by {
      assert x[5 + |d|..] == e;
      DigitsToEnd(x, 5 + |d|);
    }
    assert NumberEnd(x, 4) == |x|;
    assert x[4..|x|] == d + "." + e;
    assert ExtractFloat(Some(x)) == Some(x[4..NumberEnd(x, 4)]);
    var y := "GRE " + d;
    assert FirstDigitFrom(y, 0) == 4 by {
      assert !IsDigit(y[0]) && !IsDigit(y[1]) && !IsDigit(y[2]) && !IsDigit(y[3]) && y[4] == d[0];
    }
    assert y[4..] == d;
    DigitsToEnd(y, 4);
    assert y[4..|y|] == d;
    assert ExtractInt(Some(y)) == Some(y[4..DigitsEnd(y, 4)]);
  }

  lemma {:induction false} DigitsEndIs(s: string, i: nat, k: nat)
    requires i <= k <= |s| && AllDigits(s[i..k]) && (k < |s| ==> !IsDigit(s[k]))
    ensures DigitsEnd(s, i) == k
    decreases k - i
  {
    if i < k {
      assert s[i] == s[i..k][0];
      assert s[i + 1..k] == s[i..k][1..];
      DigitsEndIs(s, i + 1, k);
    }
  }

  // ----- zeros -----

  /** The placeholders the site shows for a missing score. */
  predicate IsZeroText(t: string) { t == "0" || t == "0.0" || t == "0.00" }

  /** `_zero_to_none`: strip, and drop the zero placeholders. */
  function ZeroToNone(s: Option<string>): (r: Option<string>)
    ensures r == None <==> s == None || IsZeroText(Strip(s.value))
    ensures r.Some? ==> r.value == Strip(s.value)
  {
    match s
    case None => None
    case Some(x) => var t := Strip(x); if IsZeroText(t) then None else Some(t)
  }

  lemma ZeroToNoneIdempotent(s: Option<string>)
    ensures ZeroToNone(ZeroToNone(s)) == ZeroToNone(s)
  {
    if ZeroToNone(s).Some? {
      StripOfStripped(ZeroToNone(s).value);
    }
  }

  // ----- degree tier -----

  /** The substrings that make a degree doctoral, tested before any master pattern. */
  const DoctoralMarks: seq<string> := ["phd", "dphil", "doctor", "psyd", "edd", "drph", "dpt", "md", "jd", "dds", "dmd"]

  /** The abbreviations that make a degree a master's when they stand as a whole word. */
  const MasterWords: seq<string> := ["ma", "ms", "mfa", "meng", "mpa", "mpp", "mph", "msc", "mme", "msw", "mha"]

  /** Some name of `names` occurs in `t` as a substring. */
  predicate AnyContained(t: string, names: seq<string>)
    decreases |names|
  {
    names != [] && (Contains(t, names[0]) || AnyContained(t, names[1..]))
  }

  /** Some name of `names` occurs in `t` as a whole word. */
  predicate AnyWord(t: string, names: seq<string>)
    decreases |names|
  {
    names != [] && ((names[0] != [] && PhraseFrom(t, names[0], 0)) || AnyWord(t, names[1..]))
  }

  lemma {:induction false} AnyWordAt(t: string, names: seq<string>, k: nat)
    requires k < |names| && names[k] != [] && PhraseAt(t, names[k], 0)
    ensures AnyWord(t, names)
    decreases k
  {
    if k > 0 {
      assert names[1..][k - 1] == names[k];
      AnyWordAt(t, names[1..], k - 1);
    }
  }

  lemma {:induction false} AnyContainedIff(t: string, names: seq<string>)
    ensures AnyContained(t, names) <==> exists k :: 0 <= k < |names| && Contains(t, names[k])
    decreases |names|
  {
    if names != [] {
      AnyContainedIff(t, names[1..]);
      if exists k :: 0 <= k < |names| && Contains(t, names[k]) {
        var k :| 0 <= k < |names| && Contains(t, names[k]);
        if k > 0 { assert names[1..][k - 1] == names[k]; }
      }
    }
  }

  /** The text `_degree_level` inspects: stripped and lower-cased. */
  function DegreeKey(s: string): string { LowerStr(Strip(s)) }

  /** `_degree_level`: "PhD" for a doctoral mark anywhere, else "Masters" for "master" or
      a whole-word abbreviation, else None. */
  function DegreeLevel(s: Option<string>): (r: Option<string>)
    ensures r == None || r == Some("PhD") || r == Some("Masters")
    ensures r == Some("PhD") <==> s.Some? && s.value != "" && AnyContained(DegreeKey(s.value), DoctoralMarks)
    ensures r == Some("Masters") <==>
      && s.Some? && s.value != "" && !AnyContained(DegreeKey(s.value), DoctoralMarks)
      && (Contains(DegreeKey(s.value), "master") || AnyWord(DegreeKey(s.value), MasterWords))
  {
    if s == None || s.value == "" then None
    else
      var t := DegreeKey(s.value);
      if AnyContained(t, DoctoralMarks) then Some("PhD")
      else if Contains(t, "master") || AnyWord(t, MasterWords) then Some("Masters")
      else None
  }

  /** Doctoral marks are tested first: any degree mentioning "phd" is a PhD, whatever else
      it says. */
  lemma PhdWins(s: string)
    requires Contains(DegreeKey(s), "phd")
    ensures DegreeLevel(Some(s)) == Some("PhD")
  {
    AnyContainedIff(DegreeKey(s), DoctoralMarks);
    assert DoctoralMarks[0] == "phd";
  }

  /** A degree that opens with "PhD", in any case, is a PhD. */
  lemma PhdDegree(s: string)
    requires |s| >= 3 && !IsSpace(s[|s| - 1]) && LowerStr(s[..3]) == "phd"
    ensures DegreeLevel(Some(s)) == Some("PhD")
  {
    assert !IsSpace(s[0]) by {
      assert LowerStr(s[..3])[0] == Lower(s[0]);
    }
    StripOfStripped(s);
    var t := DegreeKey(s);
    assert t[..3] == LowerStr(s[..3]);
    assert StartsWith(t, "phd");
    PhdWins(s);
  }

  /** A doctoral example: "PhD Physics" is a PhD. */
  lemma DegreePhdExample()
    ensures DegreeLevel(Some("PhD Physics")) == Some("PhD")
  {
    assert LowerStr("PhD Physics"[..3]) == "phd";
    PhdDegree("PhD Physics");
  }

  /** `w` cannot occur in `t`: its first or its last character is missing from `t`. */
  predicate Excluded(t: string, w: string) { w != [] && (w[0] !in t || w[|w| - 1] !in t) }

  lemma {:induction false} ContainsEnds(t: string, w: string)
    requires w != [] && Contains(t, w)
    ensures w[0] in t && w[|w| - 1] in t
  {
    ContainsIff(t, w);
    var i: nat :| i <= |t| && OccursAt(t, w, i);
    assert t[i] == t[i..i + |w|][0];
    assert t[i + |w| - 1] == t[i..i + |w|][|w| - 1];
  }

  /** No excluded name occurs in the text. */
  lemma {:induction false} NoneContained(t: string, names: seq<string>)
    requires forall k :: 0 <= k < |names| ==> Excluded(t, names[k])
    ensures !AnyContained(t, names)
  {
    AnyContainedIff(t, names);
    if k :| 0 <= k < |names| && Contains(t, names[k]) {
      ContainsEnds(t, names[k]);
    }
  }

  /** No letter of `t` lower-cases to `c`. */
  predicate LowerAvoids(t: string, c: char) { forall j :: 0 <= j < |t| ==> Lower(t[j]) != c }

  lemma LowerAvoidsMissing(t: string, c: char)
    ensures LowerAvoids(t, c) && Lower(c) == c ==> c !in t
  {
  }

  /** A phrase match begins with the phrase's first letter, up to case. */
  lemma PhraseHead(t: string, w: string, k: nat)
    ensures PhraseAt(t, w, k) && w != [] ==> Lower(t[k]) == w[0]
  {
    if PhraseAt(t, w, k) && w != [] {
      assert LowerStr(t[k..k + |w|])[0] == Lower(t[k]);
    }
  }

  /** A name whose first letter, up to case, is missing from the text is no word of it. */
  lemma {:induction false} NoWord(t: string, names: seq<string>)
    requires forall k :: 0 <= k < |names| ==> names[k] != [] && LowerAvoids(t, names[k][0])
    ensures !AnyWord(t, names)
    decreases |names|
  {
    if names != [] {
      var w := names[0];
      PhraseFromIff(t, w, 0);
      if k: nat :| k <= |t| && PhraseAt(t, w, k) {
        PhraseHead(t, w, k);
        assert false;
      }
      assert forall k :: 0 <= k < |names[1..]| ==> names[1..][k] == names[k + 1];
      NoWord(t, names[1..]);
    }
  }

  /** Every doctoral mark begins or ends with 'd': a text without a 'd' has none of them. */
  lemma NoDoctoralWithoutD(t: string)
    requires 'd' !in t
    ensures !AnyContained(t, DoctoralMarks)
  {
    assert forall k :: 0 <= k < |DoctoralMarks| ==> Excluded(t, DoctoralMarks[k]);
    NoneContained(t, DoctoralMarks);
  }

  /** Every master's pattern begins with 'm': a text without an 'm' matches none of them. */
  lemma NoMasterWithoutM(t: string)
    requires LowerAvoids(t, 'm')
    ensures !Contains(t, "master") && !AnyWord(t, MasterWords)
  {
    LowerAvoidsMissing(t, 'm');
    if Contains(t, "master") {
      ContainsEnds(t, "master");
      assert false;
    }
    NoWord(t, MasterWords);
  }

  /** The key of a degree keeps only characters of the degree, lower-cased. */
  lemma KeyAvoids(s: string, c: char)
    requires forall j :: 0 <= j < |s| ==> Lower(s[j]) != c
    ensures c !in DegreeKey(s) && LowerAvoids(DegreeKey(s), c)
  {
    var a, b := StripSplits(s);
    var t := DegreeKey(s);
    forall i | 0 <= i < |t|
      ensures t[i] != c && Lower(t[i]) != c
    {
      assert t[i] == Lower(s[a..b][i]) == Lower(s[a + i]);
    }
  }

  /** The key of a degree opening with the word "MS" has the phrase "ms" at its start. */
  lemma MsKey(s: string)
    requires |s| > 3 && !IsSpace(s[|s| - 1])
    requires Lower(s[0]) == 'm' && Lower(s[1]) == 's' && s[2] == ' '
    ensures PhraseAt(DegreeKey(s), "ms", 0)
  {
    StripOfStripped(s);
    var t := DegreeKey(s);
    assert t[0] == 'm' && t[1] == 's' && t[2] == ' ';
    assert LowerStr(t[0..2]) == "ms";
  }

  lemma MasterWordMs()
    ensures MasterWords[1] == "ms"
  {
  }

  /** A degree that opens with the word "MS" and has no 'd' in it is a master's. */
  lemma MsDegree(s: string)
    requires |s| > 3 && !IsSpace(s[|s| - 1])
    requires Lower(s[0]) == 'm' && Lower(s[1]) == 's' && s[2] == ' '
    requires forall j :: 0 <= j < |s| ==> Lower(s[j]) != 'd'
    ensures DegreeLevel(Some(s)) == Some("Masters")
  {
    var t := DegreeKey(s);
    KeyAvoids(s, 'd');
    NoDoctoralWithoutD(t);
    MsKey(s);
    MasterWordMs();
    AnyWordAt(t, MasterWords, 1);
  }

  /** A degree with neither a 'd' nor an 'm' (in either case) has no level. */
  lemma UnmarkedDegree(s: string)
    requires forall j :: 0 <= j < |s| ==> Lower(s[j]) != 'd' && Lower(s[j]) != 'm'
    ensures DegreeLevel(Some(s)) == None
  {
    var t := DegreeKey(s);
    KeyAvoids(s, 'd');
    KeyAvoids(s, 'm');
    NoDoctoralWithoutD(t);
    NoMasterWithoutM(t);
  }

  /** The tests' master's example. */
  lemma DegreeMsExample()
    ensures DegreeLevel(Some("MS Computer Science")) == Some("Masters")
  {
    MsDegree("MS Computer Science");
  }

  /** The tests' example of a degree with no level. */
  lemma DegreeNoneExample()
    ensures DegreeLevel(Some("Certificate")) == None
  {
    UnmarkedDegree("Certificate");
  }

  // ----- comment cell -----

  /** The interface text the listing page puts into the comment cell, lower-cased. */
  const Filler: seq<string> := ["total comments", "open options", "see more", "report"]

  /** The four `re.sub(r"\b…\b", "", t, flags=re.I)` of `_clean_listpage_comments`, in order. */
  function RemoveFiller(t: string): string {
    RemovePhrase(RemovePhrase(RemovePhrase(RemovePhrase(t, "total comments"), "open options"), "see more"), "report")
  }

  /** `_clean_listpage_comments`: remove the interface text, squeeze the whitespace, and
      map an empty result to None. */
  function CleanListpageComments(txt: Option<string>): (r: Option<string>)
    ensures txt == None || txt.value == "" ==> r == None
    ensures txt.Some? && txt.value != "" ==> (r == None <==> Squeeze(RemoveFiller(txt.value)) == "")
    ensures r.Some? ==> SingleSpaced(r.value) && Strip(r.value) == r.value && r.value != ""
  {
    if txt == None || txt.value == "" then None
    else
      var t := Squeeze(RemoveFiller(txt.value));
      SqueezeTidy(RemoveFiller(txt.value));
      StripOfStripped(t);
      if t == "" then None else Some(t)
  }

  /** A comment without any interface text is only squeezed. */
  lemma CommentsWithoutFiller(t: string)
    requires t != ""
    requires !PhraseFrom(t, "total comments", 0) && !PhraseFrom(t, "open options", 0)
    requires !PhraseFrom(t, "see more", 0) && !PhraseFrom(t, "report", 0)
    ensures CleanListpageComments(Some(t)) == (if Squeeze(t) == "" then None else Some(Squeeze(t)))
  {
    RemoveAbsentPhrase(t, "total comments", 0);
    RemoveAbsentPhrase(t, "open options", 0);
    RemoveAbsentPhrase(t, "see more", 0);
    RemoveAbsentPhrase(t, "report", 0);
  }

  lemma ReportRemoved()
    ensures RemovePhrase("see report more", "report") == "see  more"
  {
    var t := "see report more";
    ReportOnlyAtFour();
    NoPhraseFrom(t, "report", 10);
    RemoveAbsentPhrase(t, "report", 10);
    assert t[10..] == " more";
  }

  /** In "see report more", "report" matches as a word at index 4 and at no earlier index. */
  lemma ReportOnlyAtFour()
    ensures !PhraseAt("see report more", "report", 0) && !PhraseAt("see report more", "report", 1)
    ensures !PhraseAt("see report more", "report", 2) && !PhraseAt("see report more", "report", 3)
    ensures PhraseAt("see report more", "report", 4)
  {
    var t := "see report more";
    var r := t[4..10];
    assert r == "report";
    forall j | 0 <= j < |r| ensures Lower(r[j]) == r[j] { }
    assert LowerStr(r) == r;
    assert !IsWordChar(t[3]) && !IsWordChar(t[10]);
    assert Lower(t[0]) != 'r' && Lower(t[1]) != 'r' && Lower(t[2]) != 'r' && Lower(t[3]) != 'r';
    assert LowerStr(t[0..6])[0] == Lower(t[0]) && LowerStr(t[1..7])[0] == Lower(t[1]);
    assert LowerStr(t[2..8])[0] == Lower(t[2]) && LowerStr(t[3..9])[0] == Lower(t[3]);
  }

  lemma FillerOfSeeReportMore()
    ensures RemoveFiller("see report more") == "see  more"
  {
    OptionsNotInSeeReportMore();
    SeeMoreNotInSeeReportMore();
    ReportRemoved();
  }

  lemma OptionsNotInSeeReportMore()
    ensures RemovePhrase(RemovePhrase("see report more", "total comments"), "open options") == "see report more"
  {
    LongPhraseNotInSeeReportMore("total comments");
    LongPhraseNotInSeeReportMore("open options");
  }

  /** A phrase of twelve letters or more could only start among the first four characters. */
  lemma LongPhraseNotInSeeReportMore(w: string)
    requires |w| >= 12 && w[0] != 's' && w[0] != 'e' && w[0] != ' '
    ensures RemovePhrase("see report more", w) == "see report more"
  {
    var t := "see report more";
    assert t[0] == 's' && t[1] == 'e' && t[2] == 'e' && t[3] == ' ';
    RemoveAbsent(t, w);
  }

  lemma SeeMoreNotInSeeReportMore()
    ensures RemovePhrase("see report more", "see more") == "see report more"
  {
    var t := "see report more";
    assert !PhraseAt(t, "see more", 0) by { assert LowerStr(t[0..8])[4] == 'r'; }
    NoPhraseFrom(t, "see more", 1);
    RemoveAbsentPhrase(t, "see more", 0);
    assert t[0..] == t;
  }

  lemma FillerOfSeeMore()
    ensures RemoveFiller("see more") == ""
  {
    var u := "see more";
    RemoveAbsent(u, "total comments");
    RemoveAbsent(u, "open options");
    assert PhraseAt(u, "see more", 0) by { assert u[0..8] == u; }
    assert RemovePhrase(u, "see more") == "";
  }

  /** Cleaning is not idempotent in general: removing "report" from "see report more"
      leaves "see  more", whose doubled space hides "see more" from its pattern; the squeeze
      then closes the gap, and a second cleaning removes the phrase and gives None. */
  lemma CleanListpageCommentsTwice()
    ensures CleanListpageComments(Some("see report more")) == Some("see more")
    ensures CleanListpageComments(Some("see more")) == None
  {
    FillerOfSeeReportMore();
    FillerOfSeeMore();
    SqueezeSeeMore();
  }

  lemma SqueezeSeeMore()
    ensures Squeeze("see  more") == "see more" && Squeeze("") == ""
  {
    CollapseSeeMore();
    StripOfStripped("see more");
    StripOfStripped("");
  }

  lemma CollapseSeeMore()
    ensures CollapseSpaces("see  more") == "see more"
  {
    var m := "more";
    assert SpacesSingle(m);
    CollapseGap3('s', 'e', 'e', m);
    assert ['s', 'e', 'e'] + ("  " + m) == "see  more";
    assert ['s', 'e', 'e'] + (" " + m) == "see more";
  }

  /** Cleaning a cleaned comment changes nothing when the cleaned text holds no phrase. */
  lemma CleanListpageCommentsIdempotent(txt: Option<string>)
    requires CleanListpageComments(txt).Some?
    requires var t := CleanListpageComments(txt).value;
      !PhraseFrom(t, "total comments", 0) && !PhraseFrom(t, "open options", 0)
      && !PhraseFrom(t, "see more", 0) && !PhraseFrom(t, "report", 0)
    ensures CleanListpageComments(CleanListpageComments(txt)) == CleanListpageComments(txt)
  {
    var t := CleanListpageComments(txt).value;
    CommentsWithoutFiller(t);
    SqueezeIdempotent(RemoveFiller(txt.value));
  }

  // ----- decision column -----

  /** What `_parse_decision` returns: the status and at most one of the two dates. */
  datatype Decision = Decision(status: Option<string>, acceptedDate: Option<string>, rejectedDate: Option<string>)

  /** `t` begins with the lower-case word `w`, up to ASCII case. */
  predicate StartsWithCI(t: string, w: string) { |w| <= |t| && LowerStr(t[..|w|]) == w }

  /** The alternative of `(Accepted|Rejected|Wait listed|Waitlisted)` that matches at the
      start, as its length and the status `.title().replace("Wait Listed", "Waitlisted")`
      makes of it. */
  function DecisionKeyword(t: string): (r: Option<(nat, string)>)
    ensures r.Some? ==> r.value.1 in {"Accepted", "Rejected", "Waitlisted"} && t != [] && IsAsciiLetter(t[0])
  {
    if StartsWithCI(t, "accepted") then Some((8, "Accepted"))
    else if StartsWithCI(t, "rejected") then Some((8, "Rejected"))
    else if StartsWithCI(t, "wait listed") then Some((11, "Waitlisted"))
    else if StartsWithCI(t, "waitlisted") then Some((10, "Waitlisted"))
    else None
  }

  /** The index just after the last '\n' of `s` (0 if there is none). */
  function AfterLastNewline(s: string): (m: nat)
    ensures m <= |s| && forall k :: m <= k < |s| ==> s[k] != '\n'
  {
    if s == [] then 0 else if s[|s| - 1] == '\n' then |s| else AfterLastNewline(s[..|s| - 1])
  }

  /** Group 2 of `\s+(.+)$` matched against `r`, the text after "on": `$` may stand
      before one final '\n'; the whitespace run is as long as it can be while `.+` keeps
      at least one character and no '\n'. */
  function DateGroup(r: string): Option<string> {
    var r0 := if r != [] && r[|r| - 1] == '\n' then r[..|r| - 1] else r;
    if r0 == [] then None
    else
      var w := if StripStart(r0) < |r0| then StripStart(r0) else |r0| - 1;
      if 1 <= w && AfterLastNewline(r0) <= w then Some(r0[w..]) else None
  }

  /** `re.search(r"^(Accepted|Rejected|Wait listed|Waitlisted)\s+on\s+(.+)$", t, re.I)`:
      the status the keyword stands for and group 2. */
  function DecisionMatch(t: string): (r: Option<(string, string)>)
    ensures r.Some? ==> r.value.0 in {"Accepted", "Rejected", "Waitlisted"} && t != [] && IsAsciiLetter(t[0])
  {
    match DecisionKeyword(t)
    case None => None
    case Some((n, status)) =>
      if n > |t| then None
      else
        var a := n + StripStart(t[n..]);
        if a == n || !StartsWithCI(t[a..], "on") then None
        else
          match DateGroup(t[a + 2..])
          case None => None
          case Some(d) => Some((status, d))
  }

  /** `_parse_decision`. */
  function ParseDecision(text: Option<string>): (r: Decision)
    ensures text == None || text.value == "" ==> r == Decision(None, None, None)
    ensures r.acceptedDate.Some? ==> r.status == Some("Accepted")
    ensures r.rejectedDate.Some? ==> r.status == Some("Rejected")
  {
    if text == None || text.value == "" then Decision(None, None, None)
    else
      match DecisionMatch(text.value)
      case None => Decision(NormalizeNone(text), None, None)
      case Some((status, group)) =>
        var d := NormalizeNone(Some(group));
        Decision(Some(status), if status == "Accepted" then d else None, if status == "Rejected" then d else None)
  }

  /** The status is either one of the keywords or the whole text trimmed, so it is never
      blank and carries no whitespace at its ends; it is missing exactly for a blank text. */
  lemma ParseDecisionStatus(text: Option<string>)
    ensures var r := ParseDecision(text);
      && (r.status.Some? ==> var v := r.status.value; v != "" && !IsSpace(v[0]) && !IsSpace(v[|v| - 1]))
      && (text.Some? ==> (r.status == None <==> AllSpace(text.value)))
  {
    if text.Some? && text.value != "" {
      match DecisionMatch(text.value)
      case None =>
      case Some((status, group)) =>
    }
  }

  lemma {:induction false} NoNewlineAfter(s: string)
    requires '\n' !in s
    ensures AfterLastNewline(s) == 0
    decreases |s|
  {
    if s != [] {
      assert '\n' !in s[..|s| - 1];
      NoNewlineAfter(s[..|s| - 1]);
    }
  }

  /** A date written after one space has no whitespace at its ends and no line break,
      so `(.+)$` captures it whole. */
  lemma DateGroupOfSpaced(d: string)
    requires d != [] && !IsSpace(d[0]) && !IsSpace(d[|d| - 1]) && '\n' !in d
    ensures DateGroup(" " + d) == Some(d)
  {
    var r := " " + d;
    assert r[|r| - 1] == d[|d| - 1];
    assert r[1..] == d;
    NoNewlineAfter(r);
  }

  /** After the keyword, " on " is one run of whitespace, the word "on" and the space
      before the date. */
  lemma OnAfter(t: string, n: nat, d: string)
    requires n <= |t| && t[n..] == " on " + d
    ensures StripStart(t[n..]) == 1 && StartsWithCI(t[n + 1..], "on") && t[n + 3..] == " " + d
  {
    var u := t[n..];
    assert u[0] == ' ' && u[1] == 'o';
    var a := n + 1;
    assert t[a..] == "on " + d;
    assert t[a..][..2] == "on";
    assert LowerStr("on") == "on";
    assert t[a + 2..] == " " + d;
  }

  /** After the keyword, " on <d>" leaves `d` as the date group. */
  lemma MatchOn(t: string, n: nat, status: string, d: string)
    requires DecisionKeyword(t) == Some((n, status))
    requires n <= |t| && t[n..] == " on " + d
    requires d != [] && !IsSpace(d[0]) && !IsSpace(d[|d| - 1]) && '\n' !in d
    ensures DecisionMatch(t) == Some((status, d))
  {
    OnAfter(t, n, d);
    DateGroupOfSpaced(d);
  }

  /** Any spelling of "accepted" followed by " on <d>" is an acceptance dated `d`. */
  lemma AcceptedOn(k: string, d: string)
    requires LowerStr(k) == "accepted"
    requires d != [] && !IsSpace(d[0]) && !IsSpace(d[|d| - 1]) && '\n' !in d
    ensures ParseDecision(Some(k + " on " + d)) == Decision(Some("Accepted"), Some(d), None)
  {
    var t := k + " on " + d;
    assert |k| == 8 && t[..8] == k && t[8..] == " on " + d;
    assert StartsWithCI(t, "accepted");
    MatchOn(t, 8, "Accepted", d);
    StripOfStripped(d);
  }

  /** Any spelling of "rejected" followed by " on <d>" is a rejection dated `d`. */
  lemma RejectedOn(k: string, d: string)
    requires LowerStr(k) == "rejected"
    requires d != [] && !IsSpace(d[0]) && !IsSpace(d[|d| - 1]) && '\n' !in d
    ensures ParseDecision(Some(k + " on " + d)) == Decision(Some("Rejected"), None, Some(d))
  {
    var t := k + " on " + d;
    assert |k| == 8 && t[..8] == k && t[8..] == " on " + d;
    assert !StartsWithCI(t, "accepted") by {
      assert LowerStr(k)[0] == 'r';
    }
    assert StartsWithCI(t, "rejected");
    assert DecisionKeyword(t) == Some((8, "Rejected"));
    MatchOn(t, 8, "Rejected", d);
    StripOfStripped(d);
  }

  /** "Wait listed" and "Waitlisted", in any case, followed by " on <d>", give the status
      "Waitlisted" and no date. */
  lemma WaitlistedOn(k: string, d: string)
    requires LowerStr(k) == "wait listed" || LowerStr(k) == "waitlisted"
    requires d != [] && !IsSpace(d[0]) && !IsSpace(d[|d| - 1]) && '\n' !in d
    ensures ParseDecision(Some(k + " on " + d)) == Decision(Some("Waitlisted"), None, None)
  {
    var t := k + " on " + d;
    assert t[..|k|] == k && t[|k|..] == " on " + d;
    assert LowerStr(t[..8])[0] == 'w';
    if LowerStr(k) == "wait listed" {
      assert DecisionKeyword(t) == Some((11, "Waitlisted"));
      MatchOn(t, 11, "Waitlisted", d);
    } else {
      assert LowerStr(t[..11])[4] == ' ' || |t[..|k|]| < 11;
      assert DecisionKeyword(t) == Some((10, "Waitlisted"));
      MatchOn(t, 10, "Waitlisted", d);
    }
  }

  /** Text that does not open with a letter is no keyword: it becomes the stripped status. */
  lemma OtherDecision(t: string)
    requires t != [] && !IsAsciiLetter(t[0])
    ensures ParseDecision(Some(t)) == Decision(NormalizeNone(Some(t)), None, None)
  {
  }

  /** A date of the tests' examples: two digits, a space and a month. */
  predicate PlainDate(d: string) {
    |d| == 6 && IsDigit(d[0]) && IsDigit(d[1]) && d[2] == ' ' && IsAsciiLetter(d[3]) && IsAsciiLetter(d[4]) && IsAsciiLetter(d[5])
  }

  lemma PlainDateClean(d: string)
    requires PlainDate(d)
    ensures d != [] && !IsSpace(d[0]) && !IsSpace(d[|d| - 1]) && '\n' !in d
  {
  }

  lemma AcceptedSpelling()
    ensures LowerStr("Accepted") == "accepted"
  {
  }

  /** The tests' acceptance example. */
  lemma AcceptedExample()
    ensures ParseDecision(Some("Accepted on 29 Jan")) == Decision(Some("Accepted"), Some("29 Jan"), None)
  {
    var k, d := "Accepted", "29 Jan";
    assert k + " on " + d == "Accepted on 29 Jan";
    assert PlainDate(d);
    PlainDateClean(d);
    AcceptedSpelling();
    AcceptedOn(k, d);
  }

  lemma RejectedSpelling()
    ensures LowerStr("Rejected") == "rejected"
  {
  }

  /** The tests' rejection example. */
  lemma RejectedExample()
    ensures ParseDecision(Some("Rejected on 02 Feb")) == Decision(Some("Rejected"), None, Some("02 Feb"))
  {
    var k, d := "Rejected", "02 Feb";
    assert k + " on " + d == "Rejected on 02 Feb";
    assert PlainDate(d);
    PlainDateClean(d);
    RejectedSpelling();
    RejectedOn(k, d);
  }

  lemma WaitListedSpelling()
    ensures LowerStr("Wait listed") == "wait listed"
  {
  }

  /** The tests' wait-list example: two words in the text, one in the status. */
  lemma WaitlistedExample()
    ensures ParseDecision(Some("Wait listed on 03 Feb")).status == Some("Waitlisted")
  {
    var k, d := "Wait listed", "03 Feb";
    assert k + " on " + d == "Wait listed on 03 Feb";
    assert PlainDate(d);
    PlainDateClean(d);
    WaitListedSpelling();
    WaitlistedOn(k, d);
  }
}
