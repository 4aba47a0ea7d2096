/** Text primitives shared by every stage of the pipeline: Python's `str.strip()`,
    the ASCII part of `str.lower()`, the regex classes `\s`, `\d` and `\w`, and the
    substitution `re.sub(r"\s+", " ", s)` that every stage uses to tidy text. */
module Util {

  datatype Option<+T> = None | Some(value: T)

  /** Python's `str.isspace()`: the characters `str.strip()` removes and `\s` matches. */
  predicate IsSpace(c: char) {
    ('\t' <= c <= '\r') || ('\U{1c}' <= c <= ' ') || c == '\U{85}' || c == '\U{a0}'
    || c == '\U{1680}' || ('\U{2000}' <= c <= '\U{200a}') || c == '\U{2028}'
    || c == '\U{2029}' || c == '\U{202f}' || c == '\U{205f}' || c == '\U{3000}'
  }

  predicate IsDigit(c: char) { '0' <= c <= '9' }

  predicate IsAsciiLetter(c: char) { 'a' <= c <= 'z' || 'A' <= c <= 'Z' }

  /** The regex class `\w`, restricted to ASCII. */
  predicate IsWordChar(c: char) { IsAsciiLetter(c) || IsDigit(c) || c == '_' }

  predicate AllDigits(s: string) { forall i :: 0 <= i < |s| ==> IsDigit(s[i]) }

  predicate AllSpace(s: string) { forall i :: 0 <= i < |s| ==> IsSpace(s[i]) }

  function Lower(c: char): (d: char)
    ensures IsAsciiLetter(c) <==> IsAsciiLetter(d)
    ensures !('A' <= d <= 'Z')
  {
    if 'A' <= c <= 'Z' then (c as int + 32) as char else c
  }

  function Upper(c: char): (d: char)
    ensures IsAsciiLetter(c) <==> IsAsciiLetter(d)
    ensures !('a' <= d <= 'z')
  {
    if 'a' <= c <= 'z' then (c as int - 32) as char else c
  }

  function LowerStr(s: string): (r: string)
    ensures |r| == |s|
    ensures forall i :: 0 <= i < |s| ==> r[i] == Lower(s[i])
  {
    seq(|s|, i requires 0 <= i < |s| => Lower(s[i]))
  }

  /** Case-insensitive equality, as `re.IGNORECASE` compares letters. */
  predicate EqualsIgnoreCase(a: string, b: string) { LowerStr(a) == LowerStr(b) }

  predicate StartsWith(s: string, p: string) { |p| <= |s| && s[..|p|] == p }

  predicate EndsWith(s: string, p: string) { |p| <= |s| && s[|s| - |p|..] == p }

  predicate OccursAt(s: string, p: string, i: nat) { i + |p| <= |s| && s[i..i + |p|] == p }

  /** Python's `p in s` for two strings, tried one start position at a time. */
  predicate Contains(s: string, p: string)
    decreases |s|
  {
    StartsWith(s, p) || (s != [] && Contains(s[1..], p))
  }

  lemma {:induction false} ContainsIff(s: string, p: string)
    ensures Contains(s, p) <==> exists i: nat | i <= |s| :: OccursAt(s, p, i)
    decreases |s|
  {
    if StartsWith(s, p) {
      assert OccursAt(s, p, 0);
    }
    if OccursAt(s, p, 0) {
      assert StartsWith(s, p);
    }
    if s != [] {
      ContainsIff(s[1..], p);
      if Contains(s[1..], p) {
        var i: nat :| i <= |s[1..]| && OccursAt(s[1..], p, i);
        assert s[i + 1..i + 1 + |p|] == s[1..][i..i + |p|];
        assert OccursAt(s, p, i + 1);
      }
      if exists i: nat | i <= |s| :: OccursAt(s, p, i) {
        var i: nat :| i <= |s| && OccursAt(s, p, i);
        if i > 0 {
          assert s[1..][i - 1..i - 1 + |p|] == s[i..i + |p|];
          assert OccursAt(s[1..], p, i - 1);
        }
      }
    }
  }

  /** `re.search(r"\b<w>\b", t, re.I)` finds `w` at `i`: the letters agree up to ASCII case
      and neither neighbour is a word character (`w` begins and ends with one). */
  predicate PhraseAt(t: string, w: string, i: nat) {
    && i + |w| <= |t| && LowerStr(t[i..i + |w|]) == w
    && (i == 0 || !IsWordChar(t[i - 1]))
    && (i + |w| == |t| || !IsWordChar(t[i + |w|]))
  }

  /** Some match of `\b<w>\b` starts at or after `i`. */
  predicate PhraseFrom(t: string, w: string, i: nat)
    requires i <= |t|
    decreases |t| - i
  {
    PhraseAt(t, w, i) || (i < |t| && PhraseFrom(t, w, i + 1))
  }

  lemma {:induction false} PhraseFromIff(t: string, w: string, i: nat)
    requires i <= |t|
    ensures PhraseFrom(t, w, i) <==> exists k: nat | i <= k <= |t| :: PhraseAt(t, w, k)
    decreases |t| - i
  {
    if i < |t| {
      PhraseFromIff(t, w, i + 1);
    }
  }

  /** No match of `w` starts at or after `i` when no letter there that leaves room for
      `w` agrees with its first letter. */
  lemma NoPhraseFrom(t: string, w: string, i: nat)
    requires i <= |t| && w != []
    requires forall k :: i <= k < |t| && k + |w| <= |t| ==> Lower(t[k]) != w[0]
    ensures !PhraseFrom(t, w, i)
  {
    PhraseFromIff(t, w, i);
    forall k: nat | i <= k <= |t| ensures !PhraseAt(t, w, k) {
      if k + |w| <= |t| {
        assert LowerStr(t[k..k + |w|])[0] == Lower(t[k]);
      }
    }
  }

  /** A text in which the phrase's first letter never starts a long enough window loses nothing. */
  lemma RemoveAbsent(t: string, w: string)
    requires w != []
    requires forall k :: 0 <= k < |t| && k + |w| <= |t| ==> Lower(t[k]) != w[0]
    ensures RemovePhrase(t, w) == t
  {
    NoPhraseFrom(t, w, 0);
    RemoveAbsentPhrase(t, w, 0);
    assert t[0..] == t;
  }

  /** `re.sub(r"\b<w>\b", "", t[i..], flags=re.I)`: matches are removed left to right,
      and the scan resumes after each removed match. */
  function RemovePhraseFrom(t: string, w: string, i: nat): (r: string)
    requires i <= |t| && w != []
    ensures |r| <= |t| - i
    decreases |t| - i
  {
    if i == |t| then []
    else if PhraseAt(t, w, i) then RemovePhraseFrom(t, w, i + |w|)
    else [t[i]] + RemovePhraseFrom(t, w, i + 1)
  }

  function RemovePhrase(t: string, w: string): string
    requires w != []
  {
    RemovePhraseFrom(t, w, 0)
  }

  /** Where `w` does not occur, removing it changes nothing. */
  lemma {:induction false} RemoveAbsentPhrase(t: string, w: string, i: nat)
    requires i <= |t| && w != [] && !PhraseFrom(t, w, i)
    ensures RemovePhraseFrom(t, w, i) == t[i..]
    decreases |t| - i
  {
    if i < |t| {
      RemoveAbsentPhrase(t, w, i + 1);
      assert t[i..] == [t[i]] + t[i + 1..];
    }
  }

  /** The number of leading whitespace characters, the index where `s.lstrip()` begins. */
  function StripStart(s: string): (a: nat)
    ensures a <= |s| && AllSpace(s[..a]) && (a == |s| || !IsSpace(s[a]))
  {
    if s == [] || !IsSpace(s[0]) then 0
    else
      var a := 1 + StripStart(s[1..]);
      assert s[..a] == [s[0]] + s[1..][..a - 1];
      a
  }

  /** The index where `s.rstrip()` ends, searching no further left than `lo`. */
  function StripEnd(s: string, lo: nat): (b: nat)
    requires lo <= |s|
    ensures lo <= b <= |s| && AllSpace(s[b..]) && (b == lo || !IsSpace(s[b - 1]))
    decreases |s| - lo
  {
    if |s| == lo || !IsSpace(s[|s| - 1]) then |s|
    else
      var b := StripEnd(s[..|s| - 1], lo);
      assert s[b..] == s[..|s| - 1][b..] + [s[|s| - 1]];
      b
  }

  /** Python's `s.lstrip()`. */
  function TrimStart(s: string): (r: string)
    ensures r == [] || !IsSpace(r[0])
    ensures |r| <= |s| && r == s[|s| - |r|..] && AllSpace(s[..|s| - |r|])
  {
    s[StripStart(s)..]
  }

  /** Python's `s.strip()`. */
  function Strip(s: string): (r: string)
    ensures r == [] || (!IsSpace(r[0]) && !IsSpace(r[|r| - 1]))
  {
    var a := StripStart(s);
    s[a..StripEnd(s, a)]
  }

  lemma StripOfStripped(s: string)
    requires s == [] || (!IsSpace(s[0]) && !IsSpace(s[|s| - 1]))
    ensures Strip(s) == s
  {
  }

  /** `Strip` yields "" exactly when the text is all whitespace. */
  lemma StripEmptyIffAllSpace(s: string)
    ensures Strip(s) == [] <==> AllSpace(s)
  {
    var a := StripStart(s);
    var b := StripEnd(s, a);
    if a < |s| {
      assert s[b..] == [] || s[b..][0] == s[a] || a < b;
    } else {
      assert s[..a] == s;
    }
  }

  /** Stripping removes only whitespace: `s` is `Strip(s)` with whitespace on either side. */
  lemma StripSplits(s: string) returns (a: nat, b: nat)
    ensures a <= b <= |s| && Strip(s) == s[a..b] && AllSpace(s[..a]) && AllSpace(s[b..])
  {
    a := StripStart(s);
    b := StripEnd(s, a);
  }

  /** The `_normalize_none` helper of the scrape revisions: strip, and "" becomes None. */
  function NormalizeNone(s: Option<string>): (r: Option<string>)
    ensures s == None ==> r == None
    ensures r.Some? ==> r.value != [] && !IsSpace(r.value[0]) && !IsSpace(r.value[|r.value| - 1])
    ensures s.Some? ==> (r == None <==> AllSpace(s.value))
  {
    match s
    case None => None
    case Some(x) =>
      StripEmptyIffAllSpace(x);
      var t := Strip(x);
      if t == [] then None else Some(t)
  }

  lemma NormalizeNoneIdempotent(s: Option<string>)
    ensures NormalizeNone(NormalizeNone(s)) == NormalizeNone(s)
  {
    if NormalizeNone(s).Some? {
      StripOfStripped(NormalizeNone(s).value);
    }
  }

  /** The non-whitespace characters of a text, in order. */
  function Ink(s: string): string {
    if s == [] then [] else (if IsSpace(s[0]) then [] else [s[0]]) + Ink(s[1..])
  }

  lemma {:induction false} InkAppend(a: string, b: string)
    ensures Ink(a + b) == Ink(a) + Ink(b)
  {
    if a != [] {
      var head: string := if IsSpace(a[0]) then [] else [a[0]];
      assert (a + b)[0] == a[0];
      assert (a + b)[1..] == a[1..] + b;
      InkAppend(a[1..], b);
      calc {
        Ink(a + b);
        head + Ink(a[1..] + b);
        head + (Ink(a[1..]) + Ink(b));
        (head + Ink(a[1..])) + Ink(b);
        Ink(a) + Ink(b);
      }
    } else {
      assert a + b == b;
    }
  }

  lemma {:induction false} InkOfSpaces(s: string)
    requires AllSpace(s)
    ensures Ink(s) == []
  {
    if s != [] {
      InkOfSpaces(s[1..]);
    }
  }

  /** Every whitespace character is a ' ' followed by a non-whitespace character. */
  predicate SpacesSingle(t: string) {
    forall i :: 0 <= i < |t| && IsSpace(t[i]) ==> t[i] == ' ' && i + 1 < |t| && !IsSpace(t[i + 1])
  }

  /** What `re.sub(r"\s+", " ", t).strip()` produces: single ' ' between words, no
      whitespace at either end. */
  predicate SingleSpaced(t: string) {
    SpacesSingle(t) && (t == [] || !IsSpace(t[0]))
  }

  /** `re.sub(r"\s+", " ", s)`: every maximal run of whitespace becomes one ' '. */
  function CollapseSpaces(s: string): (r: string)
    ensures |r| <= |s|
    ensures s != [] ==> r != [] && (IsSpace(r[0]) <==> IsSpace(s[0]))
    decreases |s|
  {
    if s == [] then []
    else if IsSpace(s[0]) then " " + CollapseSpaces(TrimStart(s[1..]))
    else [s[0]] + CollapseSpaces(s[1..])
  }

  /** After collapsing, each whitespace character is a ' ' not followed by more whitespace. */
  lemma {:induction false} CollapseSpacesRuns(s: string)
    ensures var r := CollapseSpaces(s);
      forall i :: 0 <= i < |r| && IsSpace(r[i]) ==> r[i] == ' ' && (i + 1 == |r| || !IsSpace(r[i + 1]))
    decreases |s|
  {
    if s != [] {
      var r := CollapseSpaces(s);
      if IsSpace(s[0]) {
        var rest := TrimStart(s[1..]);
        CollapseSpacesRuns(rest);
        forall i | 0 <= i < |r| && IsSpace(r[i])
          ensures r[i] == ' ' && (i + 1 == |r| || !IsSpace(r[i + 1]))
        {
          if i > 0 { assert r[i] == CollapseSpaces(rest)[i - 1]; }
        }
      } else {
        CollapseSpacesRuns(s[1..]);
        forall i | 0 <= i < |r| && IsSpace(r[i])
          ensures r[i] == ' ' && (i + 1 == |r| || !IsSpace(r[i + 1]))
        {
          assert r[i] == CollapseSpaces(s[1..])[i - 1];
        }
      }
    }
  }

  /** Collapsing changes only whitespace: the other characters survive, in order. */
  lemma {:induction false} CollapseSpacesKeepsInk(s: string)
    ensures Ink(CollapseSpaces(s)) == Ink(s)
    decreases |s|
  {
    if s != [] {
      assert s == [s[0]] + s[1..];
      InkAppend([s[0]], s[1..]);
      if IsSpace(s[0]) {
        var t := s[1..];
        var rest := TrimStart(t);
        assert t == t[..|t| - |rest|] + rest;
        InkAppend(t[..|t| - |rest|], rest);
        InkOfSpaces(t[..|t| - |rest|]);
        CollapseSpacesKeepsInk(rest);
        InkAppend(" ", CollapseSpaces(rest));
      } else {
        CollapseSpacesKeepsInk(s[1..]);
        InkAppend([s[0]], CollapseSpaces(s[1..]));
      }
    }
  }

  /** `re.sub(r"\s+", " ", s).strip()`. */
  function Squeeze(s: string): (r: string)
    ensures |r| <= |s|
  {
    Strip(CollapseSpaces(s))
  }

  /** `re.sub(r"\s+", " ", _)` keeps a first character that is not whitespace. */
  lemma CollapseInkStep(c: char, r: string)
    requires !IsSpace(c)
    ensures CollapseSpaces([c] + r) == [c] + CollapseSpaces(r)
  {
    var s := [c] + r;
    assert s[0] == c && s[1..] == r;
  }

  /** A three-letter word keeps its letters through the collapse. */
  lemma CollapseWord3(c1: char, c2: char, c3: char, r: string)
    requires !IsSpace(c1) && !IsSpace(c2) && !IsSpace(c3)
    ensures CollapseSpaces([c1, c2, c3] + r) == [c1, c2, c3] + CollapseSpaces(r)
  {
    CollapseInkStep(c3, r);
    CollapseInkStep(c2, [c3] + r);
    CollapseInkStep(c1, [c2] + ([c3] + r));
    assert [c1, c2, c3] + r == [c1] + ([c2] + ([c3] + r));
    assert [c1] + ([c2] + ([c3] + CollapseSpaces(r))) == [c1, c2, c3] + CollapseSpaces(r);
  }

  /** A three-letter word, two spaces and a single-spaced word collapse to the words
      separated by one space. */
  lemma CollapseGap3(c1: char, c2: char, c3: char, m: string)
    requires !IsSpace(c1) && !IsSpace(c2) && !IsSpace(c3)
    requires m != [] && !IsSpace(m[0]) && SpacesSingle(m)
    ensures CollapseSpaces([c1, c2, c3] + ("  " + m)) == [c1, c2, c3] + (" " + m)
  {
    CollapseWord3(c1, c2, c3, "  " + m);
    CollapseSpacePair(m);
    CollapseSpacesSingle(m);
  }

  lemma TrimOneSpace(b: string)
    requires b != [] && !IsSpace(b[0])
    ensures TrimStart(" " + b) == b
  {
    var h := " " + b;
    assert h[1..] == b;
    assert StripStart(h) == 1;
  }

  lemma CollapseSpacePair(b: string)
    requires b != [] && !IsSpace(b[0])
    ensures CollapseSpaces("  " + b) == " " + CollapseSpaces(b)
  {
    var g := "  " + b;
    assert g[0] == ' ' && g[1..] == " " + b;
    TrimOneSpace(b);
  }

  /** Stripping a collapsed text leaves it single-spaced. */
  lemma StripCollapsed(c: string)
    requires forall i :: 0 <= i < |c| && IsSpace(c[i]) ==> c[i] == ' ' && (i + 1 == |c| || !IsSpace(c[i + 1]))
    ensures SingleSpaced(Strip(c))
  {
    var a, b := StripSplits(c);
    var r := c[a..b];
    forall i | 0 <= i < |r| && IsSpace(r[i])
      ensures r[i] == ' ' && i + 1 < |r| && !IsSpace(r[i + 1])
    {
      assert r[i] == c[a + i];
      if i + 1 < |r| {
        assert r[i + 1] == c[a + i + 1];
      }
    }
  }

  /** Stripping removes only whitespace. */
  lemma StripKeepsInk(c: string)
    ensures Ink(Strip(c)) == Ink(c)
  {
    var a, b := StripSplits(c);
    var r := c[a..b];
    assert c == c[..a] + (r + c[b..]);
    InkAppend(c[..a], r + c[b..]);
    InkAppend(r, c[b..]);
    InkOfSpaces(c[..a]);
    InkOfSpaces(c[b..]);
  }

  /** Tidied text is single-spaced and keeps every non-whitespace character in order. */
  lemma SqueezeTidy(s: string)
    ensures SingleSpaced(Squeeze(s))
    ensures Ink(Squeeze(s)) == Ink(s)
  {
    CollapseSpacesRuns(s);
    CollapseSpacesKeepsInk(s);
    StripCollapsed(CollapseSpaces(s));
    StripKeepsInk(CollapseSpaces(s));
  }

  /** Single spacing survives dropping the first character. */
  lemma SpacesSingleTail(t: string)
    requires t != [] && SpacesSingle(t)
    ensures SpacesSingle(t[1..])
    ensures IsSpace(t[0]) ==> t[0] == ' ' && StripStart(t[1..]) == 0
  {
    var rest := t[1..];
    forall i | 0 <= i < |rest| && IsSpace(rest[i])
      ensures rest[i] == ' ' && i + 1 < |rest| && !IsSpace(rest[i + 1])
    {
      assert rest[i] == t[i + 1];
    }
  }

  /** Collapsing a text whose whitespace is already single ' 's changes nothing. */
  lemma {:induction false} CollapseSpacesSingle(t: string)
    requires SpacesSingle(t)
    ensures CollapseSpaces(t) == t
    decreases |t|
  {
    if t != [] {
      var rest := t[1..];
      SpacesSingleTail(t);
      CollapseSpacesSingle(rest);
      if IsSpace(t[0]) {
        assert TrimStart(rest) == rest;
        assert t == " " + rest;
      } else {
        assert t == [t[0]] + rest;
      }
    }
  }

  /** Tidying an already tidy text changes nothing. */
  lemma SqueezeIdempotent(s: string)
    ensures Squeeze(Squeeze(s)) == Squeeze(s)
  {
    var t := Squeeze(s);
    SqueezeTidy(s);
    CollapseSpacesSingle(t);
    StripOfStripped(t);
  }

  // ----- decimal numerals -----

  /** The value of a run of decimal digits. */
  function DigitsValue(s: string): nat
    requires AllDigits(s)
  {
    if s == [] then 0 else 10 * DigitsValue(s[..|s| - 1]) + (s[|s| - 1] - '0') as nat
  }

  /** `str(n)` for a natural number: its decimal numeral, with no leading zero. */
  function Decimal(n: nat): (s: string)
    ensures s != "" && AllDigits(s)
    ensures |s| > 1 ==> s[0] != '0'
  {
    if n < 10 then ['0' + n as char] else Decimal(n / 10) + ['0' + (n % 10) as char]
  }

  /** Reading the numeral back gives the number. */
  lemma {:induction false} DecimalValue(n: nat)
    ensures DigitsValue(Decimal(n)) == n
  {
    if n >= 10 {
      var s := Decimal(n);
      assert s[..|s| - 1] == Decimal(n / 10);
      DecimalValue(n / 10);
    }
  }

  /** Distinct numbers have distinct numerals. */
  lemma DecimalInjective(m: nat, n: nat)
    requires Decimal(m) == Decimal(n)
    ensures m == n
  {
    DecimalValue(m);
    DecimalValue(n);
  }

  // ----- index lists -----

  /** The indices `a, a + 1, ..., b - 1`. */
  function Range(a: nat, b: nat): (r: seq<nat>)
    requires a <= b
    ensures |r| == b - a && forall k :: 0 <= k < |r| ==> r[k] == a + k
    decreases b - a
  {
    if a == b then [] else Range(a, b - 1) + [b - 1]
  }

  lemma {:induction false} RangeSplit(a: nat, b: nat, c: nat)
    requires a <= b <= c
    ensures Range(a, b) + Range(b, c) == Range(a, c)
    decreases c - b
  {
    if b < c {
      RangeSplit(a, b, c - 1);
    }
  }

  /** The lists of a list of lists, one after the other. */
  function Flatten(xs: seq<seq<nat>>): seq<nat> {
    if xs == [] then [] else Flatten(xs[..|xs| - 1]) + xs[|xs| - 1]
  }

  /** `s in names`, one name at a time. */
  predicate Listed(s: string, names: seq<string>)
    decreases |names|
  {
    names != [] && (names[0] == s || Listed(s, names[1..]))
  }

  lemma {:induction false} ListedIff(s: string, names: seq<string>)
    ensures Listed(s, names) <==> s in names
    decreases |names|
  {
    if names != [] {
      ListedIff(s, names[1..]);
      assert names == [names[0]] + names[1..];
    }
  }
}
