/** The date-cell parser `parse_date_str` (scripts/post_daily.py:73-93): a
    month/day pattern read in the reference year, with the free-text parser of
    the `dateutil` library as a fallback that the model takes as a parameter. */
module DateParser {
  import opened Wrappers
  import opened Dates
  import opened Text

  /** The value handed to the parser: a Python `str`, or any other object. */
  datatype Cell = Text(s: string) | NotText

  /** `dateutil.parser.parse(s, default=datetime(year, 1, 1)).date()`, with
      None for the ValueError or OverflowError it raises. The library is not
      part of this model: every such function is allowed. */
  type Fallback = (string, int) -> Option<Date>

  predicate IsSeparator(c: char) {
    c == '/' || c == '-'
  }

  /** `re.match(r'^\s*(\d{1,2})[/-](\d{1,2})(?:[/-]\d{2,4})?', s)`, giving
      `(int(group(1)), int(group(2)))`. Both digit groups are greedy and the
      pattern is anchored only at the start, so the optional year segment
      never changes the groups and whatever follows them is ignored. */
  function MatchMonthDay(s: string): (r: Option<(int, int)>)
    ensures r.Some? ==> LeadingSpaces(s) < |s| && IsDigit(s[LeadingSpaces(s)])
    ensures r.Some? ==> r.value.0 >= 0 && r.value.1 >= 0
  {
    MatchGroups(s[LeadingSpaces(s)..])
  }

  /** The pattern after `^\s*`, on text that does not start with whitespace. */
  function MatchGroups(t: string): Option<(int, int)> {
    if |t| >= 1 && IsDigit(t[0]) then
      var k := GroupLength(t, 0);
      if |t| >= k + 2 && IsSeparator(t[k]) && IsDigit(t[k + 1]) then
        var j := GroupLength(t, k + 1);
        Some((DigitsValue(t[..k]), DigitsValue(t[k + 1..k + 1 + j])))
      else None
    else None
  }

  /** The length `\d{1,2}` takes greedily at `i`, where `t[i]` is a digit. */
  function GroupLength(t: string, i: nat): nat {
    if |t| >= i + 2 && IsDigit(t[i + 1]) then 2 else 1
  }

  /** `s` is leading whitespace `w`, a month group `a` of one or two digits, a
      separator, a day group `b` of one or two digits and a `rest` that does
      not extend a one-digit day group: the strings the pattern matches, split
      the way the pattern splits them. */
  predicate MonthDayForm(s: string, w: string, a: string, sep: char, b: string, rest: string) {
    && s == w + a + [sep] + b + rest
    && AllSpaces(w)
    && 1 <= |a| <= 2 && AllDigits(a)
    && IsSeparator(sep)
    && 1 <= |b| <= 2 && AllDigits(b)
    && (|b| == 1 ==> rest == [] || !IsDigit(rest[0]))
  }

  /** The fallback, reached only when `datetime(reference_year, 1, 1)` exists. */
  function FallbackParse(s: string, referenceYear: int, fallback: Fallback): (r: Option<Date>)
    ensures !(MinYear <= referenceYear <= MaxYear) ==> r.None?
    ensures MinYear <= referenceYear <= MaxYear ==> r == fallback(s, referenceYear)
  {
    if MinYear <= referenceYear <= MaxYear then fallback(s, referenceYear) else None
  }

  /** `parse_date_str(date_str, reference_year)`. */
  function ParseDateStr(cell: Cell, referenceYear: int, fallback: Fallback): (r: Option<Date>)
    ensures cell.NotText? || cell.s == "" ==> r == None
  {
    if cell.NotText? || cell.s == "" then None
    else
      match MatchMonthDay(cell.s)
      case Some((month, day)) =>
        if IsValid(YMD(referenceYear, month, day)) then Some(YMD(referenceYear, month, day))
        else FallbackParse(cell.s, referenceYear, fallback)
      case None =>
        FallbackParse(cell.s, referenceYear, fallback)
  }

  // ---------------------------------------------------------------------------

  lemma SeparatorNotDigit(c: char)
    requires IsSeparator(c)
    ensures !IsDigit(c)
  {
  }

  /** Every string of the pattern's shape is matched, with the month and day
      groups read as numbers, whatever follows the day group. */
  lemma MatchesForm(s: string, w: string, a: string, sep: char, b: string, rest: string)
    requires MonthDayForm(s, w, a, sep, b, rest)
    ensures MatchMonthDay(s) == Some((DigitsValue(a), DigitsValue(b)))
  {
    var t := a + [sep] + b + rest;
    DigitIsNotSpace(a[0]);
    assert s == w + t;
    assert t[0] == a[0];
    LeadingSpacesOf(w, t);
    assert s[|w|..] == t;
    GroupsOfForm(t, a, sep, b, rest);
  }

  lemma GroupsOfForm(t: string, a: string, sep: char, b: string, rest: string)
    requires t == a + [sep] + b + rest
    requires 1 <= |a| <= 2 && AllDigits(a) && IsSeparator(sep) && 1 <= |b| <= 2 && AllDigits(b)
    requires |b| == 1 ==> rest == [] || !IsDigit(rest[0])
    ensures MatchGroups(t) == Some((DigitsValue(a), DigitsValue(b)))
  {
    var k := |a|;
    assert t[0] == a[0];
    assert t[k] == sep && t[k + 1] == b[0];
    SeparatorNotDigit(sep);
    assert GroupLength(t, 0) == k by {
      if k == 2 {
        assert t[1] == a[1];
      }
    }
    assert GroupLength(t, k + 1) == |b| by {
      if |b| == 2 {
        assert t[k + 2] == b[1];
      } else if |t| >= k + 3 {
        assert t[k + 2] == rest[0];
      }
    }
    assert t[..k] == a;
    assert t[k + 1..k + 1 + |b|] == b;
  }

  lemma LeadingSpacesOf(w: string, u: string)
    requires AllSpaces(w) && |u| > 0 && !IsSpace(u[0])
    ensures LeadingSpaces(w + u) == |w|
    decreases |w|
  {
    if |w| > 0 {
      assert (w + u)[1..] == w[1..] + u;
      LeadingSpacesOf(w[1..], u);
    }
  }

  /** Only strings of the pattern's shape are matched, and the result is read
      from their month and day groups. */
  lemma MatchOnlyForm(s: string)
    requires MatchMonthDay(s).Some?
    ensures exists w, a, sep, b, rest ::
      (MonthDayForm(s, w, a, sep, b, rest) && MatchMonthDay(s) == Some((DigitsValue(a), DigitsValue(b))))
  {
    var i := LeadingSpaces(s);
    var t := s[i..];
    MatchGroupsSome(t);
    var k := GroupLength(t, 0);
    var j := GroupLength(t, k + 1);
    var w, a, sep, b, rest := s[..i], t[..k], t[k], t[k + 1..k + 1 + j], t[k + 1 + j..];
    SplitGroups(t, k, j);
    assert s == w + t;
    PrefixSplit(w, t, a, sep, b, rest);
    MatchedDigits(t, k, j);
    assert MatchMonthDay(s) == Some((DigitsValue(a), DigitsValue(b)));
    assert MonthDayForm(s, w, a, sep, b, rest);
    FormWitness(s, w, a, sep, b, rest);
  }

  lemma FormWitness(s: string, w: string, a: string, sep: char, b: string, rest: string)
    requires MonthDayForm(s, w, a, sep, b, rest) && MatchMonthDay(s) == Some((DigitsValue(a), DigitsValue(b)))
    ensures exists w, a, sep, b, rest ::
      (MonthDayForm(s, w, a, sep, b, rest) && MatchMonthDay(s) == Some((DigitsValue(a), DigitsValue(b))))
  {
  }

  /** What a successful match says about the text after the leading whitespace. */
  lemma MatchGroupsSome(t: string)
    requires MatchGroups(t).Some?
    ensures |t| >= GroupLength(t, 0) + 1 + GroupLength(t, GroupLength(t, 0) + 1)
    ensures IsDigit(t[0]) && IsSeparator(t[GroupLength(t, 0)]) && IsDigit(t[GroupLength(t, 0) + 1])
  {
  }

  lemma PrefixSplit(w: string, t: string, a: string, sep: char, b: string, rest: string)
    requires t == a + [sep] + b + rest
    ensures w + t == w + a + [sep] + b + rest
  {
  }

  lemma SplitGroups(t: string, k: nat, j: nat)
    requires k + 1 + j <= |t|
    ensures t == t[..k] + [t[k]] + t[k + 1..k + 1 + j] + t[k + 1 + j..]
  {
  }

  lemma MatchedDigits(t: string, k: nat, j: nat)
    requires k == GroupLength(t, 0) && j == GroupLength(t, k + 1) && k + 1 + j <= |t|
    requires IsDigit(t[0]) && IsDigit(t[k + 1])
    ensures AllDigits(t[..k]) && 1 <= k <= 2
    ensures AllDigits(t[k + 1..k + 1 + j]) && 1 <= j <= 2
    ensures j == 1 ==> t[k + 1 + j..] == [] || !IsDigit(t[k + 1 + j..][0])
  {
    if k == 2 {
      assert t[..k][1] == t[1];
    }
    assert t[..k][0] == t[0];
    assert t[k + 1..k + 1 + j][0] == t[k + 1];
    if j == 2 {
      assert t[k + 1..k + 1 + j][1] == t[k + 2];
    } else if k + 1 + j < |t| {
      assert t[k + 1 + j..][0] == t[k + 2];
    }
  }

  /** Month and day values are those of one- or two-digit groups. */
  lemma MatchBounds(s: string)
    requires MatchMonthDay(s).Some?
    ensures 0 <= MatchMonthDay(s).value.0 <= 99 && 0 <= MatchMonthDay(s).value.1 <= 99
  {
    GroupsBound(s[LeadingSpaces(s)..]);
  }

  lemma GroupsBound(t: string)
    requires MatchGroups(t).Some?
    ensures 0 <= MatchGroups(t).value.0 <= 99 && 0 <= MatchGroups(t).value.1 <= 99
  {
    var k := GroupLength(t, 0);
    var j := GroupLength(t, k + 1);
    var a, b := t[..k], t[k + 1..k + 1 + j];
    assert AllDigits(a) && AllDigits(b);
    TwoDigitsBound(a);
    TwoDigitsBound(b);
  }

  lemma TwoDigitsBound(a: string)
    requires 1 <= |a| <= 2 && AllDigits(a)
    ensures DigitsValue(a) <= 99
  {
    if |a| == 2 {
      assert a[..1][..0] == [];
      assert DigitsValue(a[..1]) <= 9;
    }
  }

  /** A month/day cell that names a real day of the reference year gives that
      day; any trailing text, a year segment included, is ignored. */
  lemma ParseMonthDay(w: string, a: string, sep: char, b: string, rest: string, referenceYear: int, fallback: Fallback)
    requires MonthDayForm(w + a + [sep] + b + rest, w, a, sep, b, rest)
    requires IsValid(YMD(referenceYear, DigitsValue(a), DigitsValue(b)))
    ensures ParseDateStr(Text(w + a + [sep] + b + rest), referenceYear, fallback)
      == Some(YMD(referenceYear, DigitsValue(a), DigitsValue(b)))
  {
    MatchesForm(w + a + [sep] + b + rest, w, a, sep, b, rest);
  }

  /** A month/day cell that names no real day (month 13, 30 February, a year
      outside 1..9999) is handed on to the fallback instead of failing. */
  lemma ParseInvalidMonthDay(w: string, a: string, sep: char, b: string, rest: string, referenceYear: int, fallback: Fallback)
    requires MonthDayForm(w + a + [sep] + b + rest, w, a, sep, b, rest)
    requires !IsValid(YMD(referenceYear, DigitsValue(a), DigitsValue(b)))
    ensures ParseDateStr(Text(w + a + [sep] + b + rest), referenceYear, fallback)
      == FallbackParse(w + a + [sep] + b + rest, referenceYear, fallback)
  {
    MatchesForm(w + a + [sep] + b + rest, w, a, sep, b, rest);
  }

  /** A non-empty text cell the pattern does not match goes to the fallback. */
  lemma NoMatchFallback(cell: Cell, referenceYear: int, fallback: Fallback)
    requires cell.Text? && cell.s != "" && MatchMonthDay(cell.s).None?
    ensures ParseDateStr(cell, referenceYear, fallback) == FallbackParse(cell.s, referenceYear, fallback)
  {
  }

  /** The same, stated with the pattern's shape: a non-empty text that cannot
      be split as whitespace, month, separator, day and a rest goes to the
      fallback. */
  lemma NoFormFallback(s: string, referenceYear: int, fallback: Fallback)
    requires s != ""
    requires forall w, a, sep, b, rest :: !MonthDayForm(s, w, a, sep, b, rest)
    ensures ParseDateStr(Text(s), referenceYear, fallback) == FallbackParse(s, referenceYear, fallback)
  {
    if MatchMonthDay(s).Some? {
      MatchOnlyForm(s);
      assert false;
    }
  }

  /** Whatever the parser yields is a date of the reference year read from the
      month/day groups, or the fallback's answer. */
  lemma ParseOutcome(cell: Cell, referenceYear: int, fallback: Fallback)
    requires ParseDateStr(cell, referenceYear, fallback).Some?
    ensures cell.Text? && cell.s != ""
    ensures var d := ParseDateStr(cell, referenceYear, fallback).value;
      (MatchMonthDay(cell.s) == Some((d.month, d.day)) && d.year == referenceYear)
      || (MinYear <= referenceYear <= MaxYear && fallback(cell.s, referenceYear) == Some(d))
  {
  }

  /** `f"{d.month}/{d.day}"`: the month/day text of a date. */
  function DateLabel(d: Date): (r: string)
    ensures |r| >= 3
  {
    NatToString(d.month) + "/" + NatToString(d.day)
  }

  /** A date's month/day text, followed by anything that does not start with a
      digit, is read back as that month and day of the reference year. */
  lemma {:induction false} LabelParses(d: Date, rest: string, referenceYear: int, fallback: Fallback)
    requires IsValid(YMD(referenceYear, d.month, d.day))
    requires rest == [] || !IsDigit(rest[0])
    ensures ParseDateStr(Text(DateLabel(d) + rest), referenceYear, fallback) == Some(YMD(referenceYear, d.month, d.day))
  {
    var a, b := NatToString(d.month), NatToString(d.day);
    LabelShape(d, rest);
    ParseMonthDay("", a, '/', b, rest, referenceYear, fallback);
  }

  /** The month/day text followed by `rest` has the matched form, split into
      the month's digits, the slash, the day's digits and `rest`. */
  lemma LabelShape(d: Date, rest: string)
    requires rest == [] || !IsDigit(rest[0])
    ensures var a, b := NatToString(d.month), NatToString(d.day);
      && DateLabel(d) + rest == "" + a + ['/'] + b + rest
      && MonthDayForm("" + a + ['/'] + b + rest, "", a, '/', b, rest)
      && DigitsValue(a) == d.month && DigitsValue(b) == d.day
  {
    var a, b := NatToString(d.month), NatToString(d.day);
    ShortNumber(d.month);
    ShortNumber(d.day);
    assert DateLabel(d) + rest == "" + a + ['/'] + b + rest;
    SlashForm(a, b, rest);
  }

  lemma ShortNumber(n: nat)
    requires n < 100
    ensures 1 <= |NatToString(n)| <= 2 && AllDigits(NatToString(n)) && DigitsValue(NatToString(n)) == n
  {
    NatToStringValue(n);
    NatToStringLength(n);
  }

  lemma SlashForm(a: string, b: string, rest: string)
    requires 1 <= |a| <= 2 && AllDigits(a) && 1 <= |b| <= 2 && AllDigits(b)
    requires rest == [] || !IsDigit(rest[0])
    ensures MonthDayForm("" + a + ['/'] + b + rest, "", a, '/', b, rest)
  {
  }

  /** The cell "7/4" gives 4 July of the reference year. */
  lemma ParseExampleSlash(fallback: Fallback)
    ensures ParseDateStr(Text("7/4"), 2024, fallback) == Some(YMD(2024, 7, 4))
  {
    OneDigit("7", 7);
    OneDigit("4", 4);
    assert "7/4" == "" + "7" + ['/'] + "4" + "";
    ParseMonthDay("", "7", '/', "4", "", 2024, fallback);
  }

  /** The cell "07-04" gives 4 July of the reference year. */
  lemma ParseExampleDash(fallback: Fallback)
    ensures ParseDateStr(Text("07-04"), 2024, fallback) == Some(YMD(2024, 7, 4))
  {
    TwoDigits("07", 7);
    TwoDigits("04", 4);
    assert "07-04" == "" + "07" + ['-'] + "04" + "";
    ParseMonthDay("", "07", '-', "04", "", 2024, fallback);
  }

  /** The cell "7/4/23" gives 4 July of the reference year, not of 2023. */
  lemma ParseExampleYearIgnored(fallback: Fallback)
    ensures ParseDateStr(Text("7/4/23"), 2024, fallback) == Some(YMD(2024, 7, 4))
  {
    OneDigit("7", 7);
    OneDigit("4", 4);
    SeparatorNotDigit('/');
    assert "7/4/23" == "" + "7" + ['/'] + "4" + "/23";
    ParseMonthDay("", "7", '/', "4", "/23", 2024, fallback);
  }

  /** The cell "13/45" matches the pattern but names no day, so the fallback decides. */
  lemma ParseExampleFallThrough(fallback: Fallback)
    ensures ParseDateStr(Text("13/45"), 2024, fallback) == fallback("13/45", 2024)
  {
    TwoDigits("13", 13);
    TwoDigits("45", 45);
    assert "13/45" == "" + "13" + ['/'] + "45" + "";
    ParseInvalidMonthDay("", "13", '/', "45", "", 2024, fallback);
  }

  lemma OneDigit(a: string, v: int)
    requires |a| == 1 && 0 <= v <= 9 && a[0] as int == 0x30 + v
    ensures AllDigits(a) && DigitsValue(a) == v
  {
    assert InRun(a[0] as int, 0x30);
    assert a[..0] == [];
  }

  lemma TwoDigits(a: string, v: int)
    requires |a| == 2 && 0 <= v <= 99 && a[0] as int == 0x30 + v / 10 && a[1] as int == 0x30 + v % 10
    ensures AllDigits(a) && DigitsValue(a) == v
  {
    OneDigit(a[..1], v / 10);
    assert InRun(a[1] as int, 0x30);
  }
}
