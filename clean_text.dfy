/** The text clean-up both revisions of the normaliser share (`_clean_text`,
    `_normalize_none` and the applicant-nationality label), stated once. */
module CleanText {
  import opened Util
  import opened PyJson

  // ----- the tag pattern `<[^>]+>` -----

  /** No character of `s[i..j]` is a '>'. */
  predicate NoClose(s: string, i: nat, j: nat)
    requires i <= j <= |s|
  {
    forall k :: i <= k < j ==> s[k] != '>'
  }

  /** The index of the first '>' at or after `i`, or `|s|` when there is none. */
  function FindClose(s: string, i: nat): (j: nat)
    requires i <= |s|
    ensures i <= j <= |s| && NoClose(s, i, j) && (j < |s| ==> s[j] == '>')
    decreases |s| - i
  {
    if i == |s| || s[i] == '>' then i else FindClose(s, i + 1)
  }

  /** `<[^>]+>` matches at `i`: a '<', at least one character that is not '>', then '>'. */
  predicate TagAt(s: string, i: nat) {
    i < |s| && s[i] == '<' && var j := FindClose(s, i + 1); j < |s| && j > i + 1
  }

  /** `re.sub(r"<[^>]+>", "", s[i..])`: the scan removes each match and resumes after it. */
  function StripTagsFrom(s: string, i: nat): (r: string)
    requires i <= |s|
    ensures |r| <= |s| - i
    decreases |s| - i
  {
    if i == |s| then []
    else if TagAt(s, i) then StripTagsFrom(s, FindClose(s, i + 1) + 1)
    else [s[i]] + StripTagsFrom(s, i + 1)
  }

  function StripTags(s: string): string {
    StripTagsFrom(s, 0)
  }

  /** No match of `<[^>]+>` anywhere: each '<' that has a '>' somewhere after it has one
      right after it. */
  predicate TagFree(t: string) {
    forall p, q :: 0 <= p < q < |t| && t[p] == '<' && t[q] == '>' ==> t[p + 1] == '>'
  }

  /** A tag-free text has no match of the pattern. */
  lemma TagFreeHasNoTag(t: string, i: nat)
    requires TagFree(t) && i <= |t|
    ensures !TagAt(t, i)
  {
  }

  /** Removing tags from a tag-free text changes nothing. */
  lemma {:induction false} StripTagsOfTagFree(t: string, i: nat)
    requires TagFree(t) && i <= |t|
    ensures StripTagsFrom(t, i) == t[i..]
    decreases |t| - i
  {
    if i < |t| {
      TagFreeHasNoTag(t, i);
      StripTagsOfTagFree(t, i + 1);
    }
  }

  lemma TagFreeSlice(t: string, a: nat, b: nat)
    requires TagFree(t) && a <= b <= |t|
    ensures TagFree(t[a..b])
  {
    var u := t[a..b];
    forall p, q | 0 <= p < q < |u| && u[p] == '<' && u[q] == '>'
      ensures u[p + 1] == '>'
    {
      assert t[a + p] == '<' && t[a + q] == '>';
    }
  }

  /** Putting a character in front of a tag-free text keeps it tag-free, provided a '<'
      is followed by '>' or by no '>' at all. */
  lemma TagFreeCons(c: char, u: string)
    requires TagFree(u)
    requires c == '<' ==> (u != [] && u[0] == '>') || NoClose(u, 0, |u|)
    ensures TagFree([c] + u)
  {
    var t := [c] + u;
    forall p, q | 0 <= p < q < |t| && t[p] == '<' && t[q] == '>'
      ensures t[p + 1] == '>'
    {
      if p > 0 {
        assert u[p - 1] == '<' && u[q - 1] == '>';
      } else {
        assert u[q - 1] == '>';
      }
    }
  }

  /** Where no '>' is left, no tag starts and the rest is kept as it is. */
  lemma {:induction false} StripTagsNoClose(s: string, i: nat)
    requires i <= |s| && NoClose(s, i, |s|)
    ensures StripTagsFrom(s, i) == s[i..]
    decreases |s| - i
  {
    if i < |s| {
      assert !TagAt(s, i) by {
        if s[i] == '<' {
          assert FindClose(s, i + 1) == |s| by { FindCloseNone(s, i + 1); }
        }
      }
      StripTagsNoClose(s, i + 1);
    }
  }

  lemma {:induction false} FindCloseNone(s: string, i: nat)
    requires i <= |s| && NoClose(s, i, |s|)
    ensures FindClose(s, i) == |s|
    decreases |s| - i
  {
    if i < |s| {
      FindCloseNone(s, i + 1);
    }
  }

  /** No match of `<[^>]+>` survives the substitution. */
  lemma {:induction false} StripTagsFree(s: string, i: nat)
    requires i <= |s|
    ensures TagFree(StripTagsFrom(s, i))
    decreases |s| - i
  {
    if i < |s| {
      if TagAt(s, i) {
        StripTagsFree(s, FindClose(s, i + 1) + 1);
      } else {
        var rest := StripTagsFrom(s, i + 1);
        StripTagsFree(s, i + 1);
        if s[i] == '<' {
          var j := FindClose(s, i + 1);
          if j == |s| {
            StripTagsNoClose(s, i + 1);
            assert NoClose(rest, 0, |rest|);
          } else {
            assert j == i + 1 && s[i + 1] == '>';
            assert !TagAt(s, i + 1);
            assert rest == [s[i + 1]] + StripTagsFrom(s, i + 2);
          }
        }
        TagFreeCons(s[i], rest);
      }
    }
  }

  /** Collapsing whitespace brings in no '>'. */
  lemma {:induction false} CollapseNoClose(s: string)
    requires NoClose(s, 0, |s|)
    ensures NoClose(CollapseSpaces(s), 0, |CollapseSpaces(s)|)
    decreases |s|
  {
    if s != [] {
      if IsSpace(s[0]) {
        var rest := TrimStart(s[1..]);
        assert rest == s[|s| - |rest|..];
        CollapseNoClose(rest);
      } else {
        CollapseNoClose(s[1..]);
      }
    }
  }

  /** After a '<' of a tag-free text, the collapsed rest starts with '>' or holds none. */
  lemma CollapseAfterOpen(s: string)
    requires TagFree(s) && s != [] && s[0] == '<'
    ensures var c := CollapseSpaces(s[1..]); (c != [] && c[0] == '>') || NoClose(c, 0, |c|)
  {
    var rest := s[1..];
    var c := CollapseSpaces(rest);
    if !NoClose(c, 0, |c|) {
      if NoClose(rest, 0, |rest|) {
        CollapseNoClose(rest);
      }
      var q :| 0 <= q < |rest| && rest[q] == '>';
      assert s[q + 1] == '>';
    }
  }

  /** One step of `CollapseSpaces` keeps tag-freeness, given that the rest it recurs on
      collapses to a tag-free text. */
  lemma CollapseStep(s: string)
    requires TagFree(s) && s != []
    requires IsSpace(s[0]) ==> TagFree(CollapseSpaces(TrimStart(s[1..])))
    requires !IsSpace(s[0]) ==> TagFree(CollapseSpaces(s[1..]))
    ensures TagFree(CollapseSpaces(s))
  {
    if IsSpace(s[0]) {
      TagFreeCons(' ', CollapseSpaces(TrimStart(s[1..])));
    } else {
      if s[0] == '<' {
        CollapseAfterOpen(s);
      }
      TagFreeCons(s[0], CollapseSpaces(s[1..]));
    }
  }

  lemma TagFreeTrimStart(u: string)
    requires TagFree(u)
    ensures TagFree(TrimStart(u))
  {
    TagFreeSlice(u, |u| - |TrimStart(u)|, |u|);
  }

  /** Collapsing whitespace keeps a text tag-free. */
  lemma {:induction false} CollapseTagFree(s: string)
    requires TagFree(s)
    ensures TagFree(CollapseSpaces(s))
    decreases |s|
  {
    if s != [] {
      TagFreeSlice(s, 1, |s|);
      if IsSpace(s[0]) {
        TagFreeTrimStart(s[1..]);
        CollapseTagFree(TrimStart(s[1..]));
      } else {
        CollapseTagFree(s[1..]);
      }
      CollapseStep(s);
    } else {
      assert CollapseSpaces(s) == [];
    }
  }

  // ----- `_clean_text` -----

  /** The text `_clean_text` makes of a string: tags removed, whitespace runs collapsed
      to one space, ends stripped. */
  function Tidy(s: string): string {
    Squeeze(StripTags(s))
  }

  /** The tidied text holds no tag, no doubled or outer whitespace, and every
      non-whitespace character outside the tags. */
  lemma TidyShape(s: string)
    ensures TagFree(Tidy(s)) && SingleSpaced(Tidy(s))
    ensures Ink(Tidy(s)) == Ink(StripTags(s))
  {
    var c := CollapseSpaces(StripTags(s));
    StripTagsFree(s, 0);
    CollapseTagFree(StripTags(s));
    var a, b := StripSplits(c);
    TagFreeSlice(c, a, b);
    SqueezeTidy(StripTags(s));
  }

  /** Tidying tidied text changes nothing. */
  lemma TidyIdempotent(s: string)
    ensures Tidy(Tidy(s)) == Tidy(s)
  {
    TidyShape(s);
    StripTagsOfTagFree(Tidy(s), 0);
    SqueezeIdempotent(StripTags(s));
  }

  /** A text without whitespace and without '<' is already tidy. */
  lemma TidyOfPlain(s: string)
    requires forall k :: 0 <= k < |s| ==> !IsSpace(s[k]) && s[k] != '<'
    ensures Tidy(s) == s
  {
    StripTagsOfTagFree(s, 0);
    CollapseSpacesSingle(s);
    StripOfStripped(s);
  }

  /** `_clean_text(s)` on a JSON value: None stays None, a string is tidied and an
      empty result becomes None; `re.sub` on any other value raises TypeError. */
  function CleanTextValue(v: Json): (r: Result<Json>)
    ensures v == Null ==> r == Ok(Null)
    ensures v.Bool? || v.Int? ==> r == TypeError
    ensures v.Str? ==> r.Ok? && (r.value == Null <==> Tidy(v.s) == "")
    ensures r.Ok? && r.value.Str? ==> r.value.s != "" && TagFree(r.value.s) && SingleSpaced(r.value.s)
  {
    match v
    case Null => Ok(Null)
    case Str(s) =>
      TidyShape(s);
      var t := Tidy(s);
      if t == "" then Ok(Null) else Ok(Str(t))
    case _ => TypeError
  }

  /** Cleaning a cleaned value changes nothing. */
  lemma CleanTextIdempotent(v: Json)
    requires CleanTextValue(v).Ok?
    ensures CleanTextValue(CleanTextValue(v).value) == CleanTextValue(v)
  {
    if v.Str? && Tidy(v.s) != "" {
      TidyIdempotent(v.s);
    }
  }

  /** `_normalize_none`: strings are cleaned, every other value passes through. */
  function NormalizeValue(v: Json): (r: Json)
    ensures !v.Str? ==> r == v
    ensures v.Str? ==> (r == Null <==> Tidy(v.s) == "")
    ensures r.Str? ==> r.s != "" && TagFree(r.s) && SingleSpaced(r.s)
  {
    if v.Str? then CleanTextValue(v).value else v
  }

  lemma NormalizeValueIdempotent(v: Json)
    ensures NormalizeValue(NormalizeValue(v)) == NormalizeValue(v)
  {
    if v.Str? {
      CleanTextIdempotent(v);
    }
  }

  // ----- nationality -----

  /** `_normalize_us_international` (clean update) and `_normalize_international` (clean
      full), which are the same: True and "true" mean International, False and "false"
      American, the two labels are kept up to case and outer whitespace, and anything
      else, an integer included, is None. */
  function NationalityLabel(v: Json): (r: Json)
    ensures r == Null || r == Str("International") || r == Str("American")
    ensures r == Str("International") <==>
      v == Bool(true) || (v.Str? && LowerStr(Strip(v.s)) in ["true", "international"])
    ensures r == Str("American") <==>
      v == Bool(false) || (v.Str? && LowerStr(Strip(v.s)) in ["false", "american"])
  {
    match v
    case Bool(b) => if b then Str("International") else Str("American")
    case Str(s) =>
      var t := LowerStr(Strip(s));
      if t == "true" || t == "international" then Str("International")
      else if t == "false" || t == "american" then Str("American")
      else Null
    case _ => Null
  }

  lemma InternationalLower()
    ensures LowerStr("International") == "international"
  {
  }

  lemma AmericanLower()
    ensures LowerStr("American") == "american"
  {
  }

  lemma LabelsStripped()
    ensures Strip("International") == "International" && Strip("American") == "American"
  {
    StripOfStripped("International");
    StripOfStripped("American");
  }

  /** A label is its own label. */
  lemma NationalityLabelIdempotent(v: Json)
    ensures NationalityLabel(NationalityLabel(v)) == NationalityLabel(v)
  {
    LabelsStripped();
    InternationalLower();
    AmericanLower();
  }
}
