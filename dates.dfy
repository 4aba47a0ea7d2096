/** `parse_date` of the loaders: `datetime.strptime(s, "%Y-%m-%d").date()` with ValueError
    caught. strptime compiles the format to the regex
    `(?P<Y>\d\d\d\d)-(?P<m>1[0-2]|0[1-9]|[1-9])-(?P<d>3[01]|[12]\d|0[1-9]|[1-9]| [1-9])`,
    takes the first match at the start of the text (alternatives tried left to right,
    backtracking into `%m` when what follows it fails), raises ValueError when no match
    exists or text is left over after it, and `date(y, m, d)` raises ValueError for an
    impossible date. */
module Dates {
  import opened Util
  import opened PyJson

  /** A `datetime.date`. */
  datatype Date = Date(year: int, month: int, day: int)

  predicate IsLeap(y: int) {
    y % 4 == 0 && (y % 100 != 0 || y % 400 == 0)
  }

  function DaysInMonth(y: int, m: int): int
    requires 1 <= m <= 12
  {
    if m == 2 then (if IsLeap(y) then 29 else 28)
    else if m == 4 || m == 6 || m == 9 || m == 11 then 30
    else 31
  }

  /** The dates `datetime.date` accepts (MINYEAR 1 to MAXYEAR 9999). */
  predicate ValidDate(d: Date) {
    1 <= d.year <= 9999 && 1 <= d.month <= 12 && 1 <= d.day <= DaysInMonth(d.year, d.month)
  }

  function Digit(c: char): int
    requires IsDigit(c)
  {
    (c - '0') as int
  }

  /** One alternative of a directive's group that matches at the head of the text: the
      number of characters it takes and the value it denotes. */
  datatype Field = Field(len: nat, value: int)

  /** The alternatives of `%m`, `1[0-2]|0[1-9]|[1-9]`, that match at the head of `s`,
      in the order the regex tries them. */
  function MonthFields(s: string): (r: seq<Field>)
    ensures forall i :: 0 <= i < |r| ==> 1 <= r[i].len <= 2 && r[i].len <= |s| && 1 <= r[i].value <= 12
  {
    (if |s| >= 2 && s[0] == '1' && '0' <= s[1] <= '2' then [Field(2, 10 + Digit(s[1]))] else [])
    + (if |s| >= 2 && s[0] == '0' && '1' <= s[1] <= '9' then [Field(2, Digit(s[1]))] else [])
    + (if |s| >= 1 && '1' <= s[0] <= '9' then [Field(1, Digit(s[0]))] else [])
  }

  /** The alternatives of `%d`, `3[01]|[12]\d|0[1-9]|[1-9]| [1-9]`, that match at the
      head of `s`, in the order the regex tries them. */
  function DayFields(s: string): (r: seq<Field>)
    ensures forall i :: 0 <= i < |r| ==> 1 <= r[i].len <= 2 && r[i].len <= |s| && 1 <= r[i].value <= 31
  {
    (if |s| >= 2 && s[0] == '3' && '0' <= s[1] <= '1' then [Field(2, 30 + Digit(s[1]))] else [])
    + (if |s| >= 2 && '1' <= s[0] <= '2' && IsDigit(s[1]) then [Field(2, 10 * Digit(s[0]) + Digit(s[1]))] else [])
    + (if |s| >= 2 && s[0] == '0' && '1' <= s[1] <= '9' then [Field(2, Digit(s[1]))] else [])
    + (if |s| >= 1 && '1' <= s[0] <= '9' then [Field(1, Digit(s[0]))] else [])
    + (if |s| >= 2 && s[0] == ' ' && '1' <= s[1] <= '9' then [Field(2, Digit(s[1]))] else [])
  }

  /** A regex match: the fields read and the index where the match ends. */
  datatype Match = Match(date: Date, end: nat)

  /** `re.match` of the `%Y-%m-%d` regex on `s`. */
  function MatchIso(s: string): (r: Option<Match>)
    ensures r.Some? ==> 8 <= r.value.end <= |s| && 1 <= r.value.date.month <= 12 && 1 <= r.value.date.day <= 31
    ensures r.Some? ==> r.value.end <= 10 && AllDigits(s[..4]) && r.value.date.year == DigitsValue(s[..4])
  {
    if |s| < 5 || !AllDigits(s[..4]) || s[4] != '-' then None
    else MatchMonth(s, DigitsValue(s[..4]), MonthFields(s[5..]))
  }

  /** The month alternatives `ms` tried in order, each followed by '-' and the first day
      alternative that matches after it. */
  function MatchMonth(s: string, y: int, ms: seq<Field>): (r: Option<Match>)
    requires |s| >= 5
    requires forall i :: 0 <= i < |ms| ==> 1 <= ms[i].len <= 2 && ms[i].len <= |s| - 5 && 1 <= ms[i].value <= 12
    ensures r.Some? ==> 8 <= r.value.end <= |s| && r.value.end <= 10 && r.value.date.year == y
    ensures r.Some? ==> 1 <= r.value.date.month <= 12 && 1 <= r.value.date.day <= 31
  {
    if ms == [] then None
    else
      var p := 5 + ms[0].len;
      var ds := if p < |s| && s[p] == '-' then DayFields(s[p + 1..]) else [];
      if ds != [] then Some(Match(Date(y, ms[0].value, ds[0].value), p + 1 + ds[0].len))
      else MatchMonth(s, y, ms[1..])
  }

  /** `datetime.strptime(s, "%Y-%m-%d").date()`, None where it raises ValueError: no
      match, unconverted data after the match, or an impossible date. */
  function Strptime(s: string): (r: Option<Date>)
    ensures r.Some? ==> ValidDate(r.value) && 8 <= |s| <= 10 && AllDigits(s[..4]) && r.value.year == DigitsValue(s[..4])
  {
    match MatchIso(s)
    case None => None
    case Some(m) =>
      if m.end != |s| || !ValidDate(m.date) then None else Some(m.date)
  }

  /** The values on which strptime raises TypeError: truthy values that are not strings. */
  predicate DateRaises(v: Json) {
    Truthy(v) && !v.Str?
  }

  /** `parse_date(v)`: None for a falsy value, the parsed date or None for a string; any
      other truthy value makes strptime raise TypeError, which `parse_date` does not
      catch. */
  function ParseDate(v: Json): (r: Result<Option<Date>>)
    ensures r.TypeError? <==> DateRaises(v)
    ensures r.Ok? && r.value.Some? ==> v.Str? && ValidDate(r.value.value)
    ensures !Truthy(v) ==> r == Ok(None)
  {
    if !Truthy(v) then Ok(None)
    else if v.Str? then Ok(Strptime(v.s))
    else TypeError
  }

  // ----- the ISO form, which strptime reads back -----

  function TwoDigits(n: nat): (s: string)
    requires n < 100
    ensures |s| == 2 && AllDigits(s)
  {
    ['0' + (n / 10) as char, '0' + (n % 10) as char]
  }

  function FourDigits(n: nat): (s: string)
    requires n < 10000
    ensures |s| == 4 && AllDigits(s)
  {
    TwoDigits(n / 100) + TwoDigits(n % 100)
  }

  /** `date.isoformat()`: "YYYY-MM-DD" with zero padding. */
  function Iso(d: Date): (s: string)
    requires ValidDate(d)
    ensures |s| == 10 && s[4] == '-' && s[7] == '-'
  {
    FourDigits(d.year) + "-" + TwoDigits(d.month) + "-" + TwoDigits(d.day)
  }

  lemma FourDigitsValue(n: nat)
    requires n < 10000
    ensures DigitsValue(FourDigits(n)) == n
  {
    var s := FourDigits(n);
    assert s[..3][..2] == s[..2] && s[..2][..1] == s[..1] && s[..1][..0] == [];
    assert DigitsValue(s[..1]) == n / 1000;
    assert DigitsValue(s[..2]) == n / 100;
    assert DigitsValue(s[..3]) == n / 10;
  }

  /** The month field of an ISO date: the first `%m` alternative takes both digits. */
  lemma MonthOfIso(m: int, rest: string)
    requires 1 <= m <= 12
    ensures var fs := MonthFields(TwoDigits(m) + rest); fs != [] && fs[0] == Field(2, m)
  {
  }

  /** The day field of an ISO date: the first `%d` alternative takes both digits. */
  lemma DayOfIso(d: int)
    requires 1 <= d <= 31
    ensures var fs := DayFields(TwoDigits(d)); fs != [] && fs[0] == Field(2, d)
  {
  }

  /** Every date `datetime.date` accepts with a four-digit year round-trips through its
      ISO form. */
  lemma {:induction false} IsoRoundTrip(d: Date)
    requires ValidDate(d)
    ensures Strptime(Iso(d)) == Some(d)
  {
    var s := Iso(d);
    assert s[..4] == FourDigits(d.year);
    FourDigitsValue(d.year);
    assert s[5..] == TwoDigits(d.month) + "-" + TwoDigits(d.day);
    MonthOfIso(d.month, "-" + TwoDigits(d.day));
    assert s[8..] == TwoDigits(d.day);
    DayOfIso(d.day);
    var ms := MonthFields(s[5..]);
    assert MatchMonth(s, d.year, ms) == Some(Match(d, 10));
  }

  /** "2026-02-10" parses to 10 February 2026. */
  lemma ParseDateExample()
    ensures ParseDate(Str("2026-02-10")) == Ok(Some(Date(2026, 2, 10)))
  {
    var d := Date(2026, 2, 10);
    assert Iso(d) == "2026-02-10";
    IsoRoundTrip(d);
  }

  /** "2026-13-40" is not a date: `%m` cannot take "13" and its one-digit alternative is
      not followed by '-'. */
  lemma ParseDateBadMonth()
    ensures ParseDate(Str("2026-13-40")) == Ok(None)
  {
    var s := "2026-13-40";
    assert MonthFields(s[5..]) == [Field(1, 1)];
    assert s[6] != '-';
    assert MatchMonth(s, DigitsValue(s[..4]), [Field(1, 1)]) == None;
    assert MatchIso(s) == None;
  }

  /** A text that does not start with four digits and '-' is not a date ("bad-date"). */
  lemma ParseDateNotDigits()
    ensures ParseDate(Str("bad-date")) == Ok(None)
  {
    assert !IsDigit("bad-date"[..4][0]);
  }

  /** The 30th of February matches the regex and is then rejected by `date`. */
  lemma ParseDateImpossibleDay()
    ensures ParseDate(Str("2026-02-30")) == Ok(None)
  {
    var s := "2026-02-30";
    assert s[..4] == FourDigits(2026);
    FourDigitsValue(2026);
    assert MonthFields(s[5..])[0] == Field(2, 2);
    assert DayFields(s[8..])[0] == Field(2, 30);
    assert MatchIso(s) == Some(Match(Date(2026, 2, 30), 10));
  }
}
