/** The board scraper's `parse_date`: three accepted shapes of
    `upload_date`, read with Python's `datetime.strptime`, and
    `datetime.min` on every failure.

    `strptime` turns a format into a regular expression (each run of
    format whitespace matching `\s+`), takes the first match a backtracking
    engine finds at the start of the string, fails unless that match reaches
    the end, then lets `datetime` reject impossible dates.  The directives
    used here accept:
      %Y  exactly four digits (year 0 is then rejected by `datetime`);
      %m  `1[0-2]|0[1-9]|[1-9]`;
      %d  `3[01]|[12]\d|0[1-9]|[1-9]| [1-9]`;
      %b  a three-letter English month abbreviation, any letter case. */
module Dates {
  import opened Wrappers
  import opened Text
  import opened Ordering

  /** A calendar date; `datetime` values here always have time 00:00. */
  datatype Date = Date(year: int, month: int, day: int)

  /** `datetime.min`. */
  const MinDate := Date(1, 1, 1)

  const MonthAbbrevs: seq<string> :=
    ["jan", "feb", "mar", "apr", "may", "jun", "jul", "aug", "sep", "oct", "nov", "dec"]

  predicate IsLeap(y: int) {
    y % 4 == 0 && (y % 100 != 0 || y % 400 == 0)
  }

  function DaysInMonth(y: int, m: int): int
    requires 1 <= m <= 12
  {
    if m == 2 then (if IsLeap(y) then 29 else 28)
    else if m == 4 || m == 6 || m == 9 || m == 11 then 30
    else 31
  }

  /** The dates `datetime` can represent. */
  predicate Valid(d: Date) {
    1 <= d.year <= 9999 && 1 <= d.month <= 12 && 1 <= d.day <= DaysInMonth(d.year, d.month)
  }

  /** Dates compare by (year, month, day). */
  function Key(d: Date): seq<int> {
    [d.year, d.month, d.day]
  }

  /** `datetime(y, m, d)`: `None` where the constructor raises. */
  function MakeDate(y: int, m: int, d: int): (r: Option<Date>)
    ensures r.Some? ==> Valid(r.value) && r.value == Date(y, m, d)
    ensures Valid(Date(y, m, d)) ==> r == Some(Date(y, m, d))
  {
    if 1 <= y <= 9999 && 1 <= m <= 12 && 1 <= d <= DaysInMonth(y, m) then Some(Date(y, m, d)) else None
  }

  // ---------------------------------------------------------------------
  // strptime directives
  // ---------------------------------------------------------------------

  function Digit(c: char): int { c as int - '0' as int }

  /** `%Y`: exactly four digits. */
  function YearToken(s: string): Option<int> {
    if |s| == 4 && AllDigits(s) then Some(DigitsValue(s)) else None
  }

  /** `%m`: `1[0-2]|0[1-9]|[1-9]`. */
  function MonthNumberToken(s: string): (r: Option<int>)
    ensures r.Some? ==> 1 <= r.value <= 12
  {
    if |s| == 1 && '1' <= s[0] <= '9' then Some(Digit(s[0]))
    else if |s| == 2 && s[0] == '1' && '0' <= s[1] <= '2' then Some(10 + Digit(s[1]))
    else if |s| == 2 && s[0] == '0' && '1' <= s[1] <= '9' then Some(Digit(s[1]))
    else None
  }

  /** `%d`: `3[01]|[12]\d|0[1-9]|[1-9]| [1-9]`. */
  function DayToken(s: string): (r: Option<int>)
    ensures r.Some? ==> 1 <= r.value <= 31
  {
    if |s| == 1 && '1' <= s[0] <= '9' then Some(Digit(s[0]))
    else if |s| == 2 && s[0] == '3' && '0' <= s[1] <= '1' then Some(30 + Digit(s[1]))
    else if |s| == 2 && '1' <= s[0] <= '2' && IsDigit(s[1]) then Some(10 * Digit(s[0]) + Digit(s[1]))
    else if |s| == 2 && s[0] == '0' && '1' <= s[1] <= '9' then Some(Digit(s[1]))
    else if |s| == 2 && s[0] == ' ' && '1' <= s[1] <= '9' then Some(Digit(s[1]))
    else None
  }

  /** The month number of an abbreviation, `None` if it is not one. */
  function MonthIndex(abbr: string, i: nat): (r: Option<int>)
    requires i <= 12
    ensures r.Some? ==> 1 <= r.value <= 12 && MonthAbbrevs[r.value - 1] == abbr
    ensures r.None? ==> forall j :: i <= j < 12 ==> MonthAbbrevs[j] != abbr
    decreases 12 - i
  {
    if i == 12 then None
    else if MonthAbbrevs[i] == abbr then Some(i + 1)
    else MonthIndex(abbr, i + 1)
  }

  /** `%b`, for a token stripped of the whitespace around it. */
  function MonthAbbrevToken(s: string): Option<int> {
    MonthIndex(Lower(s), 0)
  }

  /** `datetime.strptime(s, "%Y-%m-%d")`.  Neither token after the year can
      hold a dash, so the string splits at its dashes into exactly three pieces. */
  function StrptimeIso(s: string): (r: Option<Date>)
    ensures r.Some? ==> Valid(r.value)
  {
    if |s| < 5 || s[4] != '-' then None
    else
      var rest := Split(s[5..], '-');
      if |rest| != 2 then None
      else
        match (YearToken(s[..4]), MonthNumberToken(rest[0]), DayToken(rest[1]))
        case (Some(y), Some(m), Some(d)) => MakeDate(y, m, d)
        case _ => None
  }

  /** The end of the run of `\s` characters that starts at `i`. */
  function WhitespaceEnd(s: string, i: nat): (e: nat)
    requires i <= |s|
    ensures i <= e <= |s|
    ensures e == |s| || !IsPySpace(s[e])
    decreases |s| - i
  {
    if i < |s| && IsPySpace(s[i]) then WhitespaceEnd(s, i + 1) else i
  }

  /** Alternative `a` of `%d`, in the order the pattern lists them
      (`3[01]`, `[12]\d`, `0[1-9]`, `[1-9]`, ` [1-9]`), tried at the start
      of `s`: the day it reads and the number of characters it takes. */
  function DayAlternative(s: string, a: nat): (r: Option<(int, nat)>)
    ensures r.Some? ==> 1 <= r.value.0 <= 31 && 1 <= r.value.1 <= 2 && r.value.1 <= |s|
  {
    if a == 0 && |s| >= 2 && s[0] == '3' && '0' <= s[1] <= '1' then Some((30 + Digit(s[1]), 2))
    else if a == 1 && |s| >= 2 && '1' <= s[0] <= '2' && IsDigit(s[1]) then Some((10 * Digit(s[0]) + Digit(s[1]), 2))
    else if a == 2 && |s| >= 2 && s[0] == '0' && '1' <= s[1] <= '9' then Some((Digit(s[1]), 2))
    else if a == 3 && |s| >= 1 && '1' <= s[0] <= '9' then Some((Digit(s[0]), 1))
    else if a == 4 && |s| >= 2 && s[0] == ' ' && '1' <= s[1] <= '9' then Some((Digit(s[1]), 2))
    else None
  }

  /** The part `\s+%b\s+%Y` of the pattern matched at `i`: month, year and
      the end of the match.  A shorter run of whitespace would leave a
      whitespace character where a letter or a digit must follow, so the
      whole run is the only one that can succeed. */
  function MonthYearAt(s: string, i: nat): (r: Option<(int, int, nat)>)
    requires i <= |s|
    ensures r.Some? ==> 1 <= r.value.0 <= 12 && i < r.value.2 <= |s|
  {
    var j := WhitespaceEnd(s, i);
    if j == i || j + 3 > |s| then None
    else
      match MonthAbbrevToken(s[j..j + 3])
      case None => None
      case Some(m) =>
        var k := WhitespaceEnd(s, j + 3);
        if k == j + 3 || k + 4 > |s| || !AllDigits(s[k..k + 4]) then None
        else Some((m, DigitsValue(s[k..k + 4]), k + 4))
  }

  /** A match of `"%d %b %Y"`: the three fields and where the match ends. */
  datatype DayMonYear = DayMonYear(day: int, month: int, year: int, end: nat)

  /** The pattern of `"%d %b %Y"` matched at the start of `s` as a
      backtracking engine does: the day alternatives are tried in order from
      `a`, and the first one the rest of the pattern accepts wins. */
  function MatchDayMonYear(s: string, a: nat): (r: Option<DayMonYear>)
    ensures r.Some? ==> r.value.end <= |s|
    decreases 5 - a
  {
    if a >= 5 then None
    else
      match DayAlternative(s, a)
      case None => MatchDayMonYear(s, a + 1)
      case Some((d, n)) =>
        match MonthYearAt(s, n)
        case None => MatchDayMonYear(s, a + 1)
        case Some((m, y, e)) => Some(DayMonYear(d, m, y, e))
  }

  /** `datetime.strptime(s, "%d %b %Y")`: the first match must reach the
      end of `s` ("unconverted data remains" otherwise), then the date must exist. */
  function StrptimeDayMonYear(s: string): (r: Option<Date>)
    ensures r.Some? ==> Valid(r.value)
  {
    match MatchDayMonYear(s, 0)
    case None => None
    case Some(x) => if x.end == |s| then MakeDate(x.year, x.month, x.day) else None
  }

  /** The comma shape ("3rd Nov, 2024"): year after the first comma, month
      the second space-separated word before it, day the digits of the first
      word; the three are joined with single spaces and matched as one string. */
  function ParseCommaDate(s: string): (r: Option<Date>)
    ensures r.Some? ==> Valid(r.value)
  {
    var parts := Split(s, ',');
    if |parts| < 2 then None
    else
      var year := PyStrip(parts[1]);
      var monthDay := Split(PyStrip(parts[0]), ' ');
      if |monthDay| < 2 then None
      else StrptimeDayMonYear(DigitsOnly(monthDay[0]) + " " + monthDay[1] + " " + year)
  }

  /** `parse_date`: the comma shape, else the date before the first 'T',
      else a plain ISO date; `datetime.min` when empty or on any error. */
  function ParseDate(s: string): (r: Date)
    ensures Valid(r)
  {
    var parsed :=
      if |s| == 0 then None
      else if ',' in s then ParseCommaDate(s)
      else if 'T' in s then StrptimeIso(Split(s, 'T')[0])
      else StrptimeIso(s);
    match parsed
    case Some(d) => d
    case None => MinDate
  }

  // ---------------------------------------------------------------------
  // Rendering, for the round trips
  // ---------------------------------------------------------------------

  function TwoDigits(n: int): string
    requires 0 <= n <= 99
  {
    [DigitChar(n / 10), DigitChar(n % 10)]
  }

  function FourDigits(n: int): string
    requires 0 <= n <= 9999
  {
    [DigitChar(n / 1000), DigitChar(n / 100 % 10), DigitChar(n / 10 % 10), DigitChar(n % 10)]
  }

  /** `d.strftime("%Y-%m-%d")`. */
  function FormatIso(d: Date): string
    requires Valid(d)
  {
    FourDigits(d.year) + "-" + TwoDigits(d.month) + "-" + TwoDigits(d.day)
  }

  // ---------------------------------------------------------------------
  // Properties
  // ---------------------------------------------------------------------

  /** An empty date string is read as `datetime.min`, the least date there is. */
  lemma EmptyDateIsMin(d: Date)
    requires Valid(d)
    ensures ParseDate("") == MinDate && LexLe(Key(ParseDate("")), Key(d))
  {
    MinDateIsLeast(d);
  }

  lemma MinDateIsLeast(d: Date)
    requires Valid(d)
    ensures LexLe(Key(MinDate), Key(d))
  {
    if d.year == 1 && d.month == 1 {
      assert Key(MinDate)[1..] == [1, 1] && Key(d)[1..] == [1, d.day];
      assert Key(MinDate)[2..] == [1] && Key(d)[2..] == [d.day];
    } else if d.year == 1 {
      assert Key(MinDate)[1..] == [1, 1] && Key(d)[1..] == [d.month, d.day];
    }
  }

  lemma DigitsValueOfFour(a: int, b: int, c: int, e: int)
    requires 0 <= a < 10 && 0 <= b < 10 && 0 <= c < 10 && 0 <= e < 10
    ensures DigitsValue([DigitChar(a), DigitChar(b), DigitChar(c), DigitChar(e)]) == 1000 * a + 100 * b + 10 * c + e
  {
    var s := [DigitChar(a), DigitChar(b), DigitChar(c), DigitChar(e)];
    assert DigitValue(DigitChar(a)) == a && DigitValue(DigitChar(b)) == b;
    assert DigitValue(DigitChar(c)) == c && DigitValue(DigitChar(e)) == e;
    var s1, s2, s3 := s[..1], s[..2], s[..3];
    assert s1[..0] == [] && s2[..1] == s1 && s3[..2] == s2 && s[..3] == s3;
    assert DigitsValue(s1) == a;
    assert DigitsValue(s2) == 10 * a + b;
    assert DigitsValue(s3) == 100 * a + 10 * b + c;
  }

  lemma FourDigitsValue(n: int)
    requires 0 <= n <= 9999
    ensures AllDigits(FourDigits(n)) && DigitsValue(FourDigits(n)) == n
  {
    var a, b, c, e := n / 1000, n / 100 % 10, n / 10 % 10, n % 10;
    DigitsValueOfFour(a, b, c, e);
    assert n / 100 == 10 * a + b;
    assert n / 10 == 10 * (n / 100) + c;
    assert n == 10 * (n / 10) + e;
  }

  lemma TwoDigitTokens(n: int)
    requires 1 <= n <= 31
    ensures DayToken(TwoDigits(n)) == Some(n)
    ensures n <= 12 ==> MonthNumberToken(TwoDigits(n)) == Some(n)
  {
  }

  lemma NoDashInDigits(s: string)
    requires AllDigits(s)
    ensures '-' !in s && ',' !in s && 'T' !in s && ' ' !in s
  {
  }

  /** Parsing an ISO rendering gives the date back. */
  lemma IsoRoundTrip(d: Date)
    requires Valid(d)
    ensures ParseDate(FormatIso(d)) == d
  {
    var y, m, dd := FourDigits(d.year), TwoDigits(d.month), TwoDigits(d.day);
    FourDigitsValue(d.year);
    TwoDigitTokens(d.month);
    TwoDigitTokens(d.day);
    IsoPieces(y, m, dd);
    assert FormatIso(d) == y + "-" + m + "-" + dd;
  }

  /** An ISO rendering splits back into its three digit tokens. */
  lemma IsoPieces(y: string, m: string, dd: string)
    requires |y| == 4 && AllDigits(y) && AllDigits(m) && AllDigits(dd)
    ensures var s := y + "-" + m + "-" + dd;
      && |s| >= 5 && s[..4] == y && s[4] == '-' && Split(s[5..], '-') == [m, dd]
      && ',' !in s && 'T' !in s
  {
    var s := y + "-" + m + "-" + dd;
    assert s[5..] == m + ['-'] + dd;
    NoDashInDigits(m);
    NoDashInDigits(dd);
    SplitPrefix(m, dd, '-');
    SplitWithoutSep(dd, '-');
    assert forall i :: 0 <= i < |s| ==> IsDigit(s[i]) || s[i] == '-';
  }

  /** Everything before the first 'T' is the date; the rest is ignored. */
  lemma TimeOfDayIgnored(a: string, b: string)
    requires 'T' !in a && ',' !in a && ',' !in b
    ensures ParseDate(a + "T" + b) == ParseDate(a)
  {
    var s := a + "T" + b;
    assert s == a + ['T'] + b;
    SplitPrefix(a, b, 'T');
    assert s[|a|] == 'T';
    assert ',' !in s by {
      assert forall i :: 0 <= i < |s| ==> (i < |a| && s[i] == a[i]) || i == |a| || s[i] == b[i - |a| - 1];
    }
    if |a| == 0 {
      assert StrptimeIso(a) == None;
    }
  }

  /** `str(day)` is a valid `%d` token for every day of a month. */
  lemma DayTokenOfNatToString(day: int)
    requires 1 <= day <= 31
    ensures DayToken(NatToString(day)) == Some(day)
  {
    if day >= 10 {
      assert NatToString(day) == [DigitChar(day / 10), DigitChar(day % 10)];
    }
  }

  /** Every month abbreviation is found, at its own position. */
  lemma {:induction false} MonthIndexOf(k: int, i: nat)
    requires i <= k < 12
    ensures MonthIndex(MonthAbbrevs[k], i) == Some(k + 1)
    decreases k - i
  {
    if i < k {
      assert MonthAbbrevs[i] != MonthAbbrevs[k];
      MonthIndexOf(k, i + 1);
    }
  }

  predicate Letters(s: string) {
    forall i :: 0 <= i < |s| ==> IsLetter(s[i])
  }

  /** Day and suffix hold neither a comma nor a space. */
  lemma DayWordClean(day: string, suffix: string)
    requires AllDigits(day) && Letters(suffix)
    ensures ',' !in day + suffix && ' ' !in day + suffix && DigitsOnly(day + suffix) == day
  {
    var x := day + suffix;
    assert forall i :: 0 <= i < |x| ==> (i < |day| && x[i] == day[i]) || x[i] == suffix[i - |day|];
    DigitsOnlyConcat(day, suffix);
    DigitsOnlyExtremes(day);
    DigitsOnlyExtremes(suffix);
  }

  /** Letters hold no comma, space or other whitespace. */
  lemma LettersClean(s: string)
    requires Letters(s)
    ensures ',' !in s && ' ' !in s && forall i :: 0 <= i < |s| ==> !IsPySpace(s[i])
  {
  }

  /** The comma splits "word mon, year" into the part before it and the year part. */
  lemma CommaSplit(x: string, mon: string, year: string)
    requires ',' !in x && ',' !in mon && AllDigits(year)
    ensures Split(x + " " + mon + ", " + year, ',') == [x + " " + mon, " " + year]
  {
    var a := x + " " + mon;
    var b := " " + year;
    assert x + " " + mon + ", " + year == a + [','] + b;
    assert ',' !in a by {
      assert forall i :: 0 <= i < |a| ==> (i < |x| && a[i] == x[i]) || i == |x| || a[i] == mon[i - |x| - 1];
    }
    assert ',' !in b by {
      assert forall i :: 0 <= i < |b| ==> i == 0 || b[i] == year[i - 1];
    }
    SplitPrefix(a, b, ',');
    SplitWithoutSep(b, ',');
  }

  /** The space splits the part before the comma into its first word and the rest. */
  lemma SpaceSplit(x: string, mon: string)
    requires ' ' !in x && ' ' !in mon && |mon| > 0 && |x| > 0
    requires !IsPySpace(x[0]) && !IsPySpace(mon[|mon| - 1])
    ensures PyStrip(x + " " + mon) == x + " " + mon
    ensures Split(x + " " + mon, ' ') == [x, mon]
  {
    var a := x + " " + mon;
    assert a[0] == x[0] && a[|a| - 1] == mon[|mon| - 1];
    StripUnchanged(a, IsPySpace);
    assert a == x + [' '] + mon;
    SplitPrefix(x, mon, ' ');
    SplitWithoutSep(mon, ' ');
  }

  lemma StripYear(year: string)
    requires |year| > 0 && AllDigits(year)
    ensures PyStrip(" " + year) == year
  {
    StripLeadingSpace(' ', year, IsPySpace);
    assert [' '] + year == " " + year;
    StripUnchanged(year, IsPySpace);
  }

  /** The comma branch reads the digits of the first word as the day, the
      second word as the month and the stripped text after the comma as the
      year, and matches the three joined with single spaces. */
  lemma CommaPieces(word: string, mon: string, year: string)
    requires |word| > 0 && ',' !in word && ' ' !in word && !IsPySpace(word[0])
    requires |mon| > 0 && ',' !in mon && ' ' !in mon && !IsPySpace(mon[|mon| - 1])
    requires |year| > 0 && AllDigits(year)
    ensures ParseCommaDate(word + " " + mon + ", " + year)
            == StrptimeDayMonYear(DigitsOnly(word) + " " + mon + " " + year)
  {
    CommaSplit(word, mon, year);
    StripYear(year);
    SpaceSplit(word, mon);
  }

  lemma DigitNotSpace(c: char)
    requires IsDigit(c) || IsLetter(c)
    ensures !IsPySpace(c)
  {
  }

  /** A single whitespace character followed by something else. */
  lemma WhitespaceEndOne(s: string, i: nat)
    requires i + 1 < |s| && IsPySpace(s[i]) && !IsPySpace(s[i + 1])
    ensures WhitespaceEnd(s, i) == i + 1
  {
    assert WhitespaceEnd(s, i + 1) == i + 1;
  }

  /** A digit where the whitespace before the month must be stops the match. */
  lemma DigitBlocksMonth(s: string, n: nat)
    requires n < |s| && IsDigit(s[n])
    ensures MonthYearAt(s, n).None?
  {
    DigitNotSpace(s[n]);
    assert WhitespaceEnd(s, n) == n;
  }

  /** `\s+%b\s+%Y` over one whitespace character, three letters, one
      whitespace character and four digits. */
  lemma MonthYearAtShape(s: string, i: nat)
    requires i + 9 <= |s| && IsPySpace(s[i]) && IsLetter(s[i + 1]) && IsPySpace(s[i + 4])
    requires AllDigits(s[i + 5..i + 9]) && MonthAbbrevToken(s[i + 1..i + 4]).Some?
    ensures MonthYearAt(s, i)
            == Some((MonthAbbrevToken(s[i + 1..i + 4]).value, DigitsValue(s[i + 5..i + 9]), i + 9))
  {
    DigitNotSpace(s[i + 1]);
    WhitespaceEndOne(s, i);
    assert s[i + 5] == s[i + 5..i + 9][0];
    DigitNotSpace(s[i + 5]);
    WhitespaceEndOne(s, i + 4);
  }

  /** A month abbreviation after one whitespace character and a year after
      one space. */
  lemma MonthYearOfWords(p: string, w: char, mon: string, year: string)
    requires IsPySpace(w) && |mon| == 3 && Letters(mon) && |year| == 4 && AllDigits(year)
    requires MonthAbbrevToken(mon).Some?
    ensures MonthYearAt(p + [w] + mon + " " + year, |p|)
            == Some((MonthAbbrevToken(mon).value, DigitsValue(year), |p| + 9))
  {
    var s := p + [w] + mon + " " + year;
    var i := |p|;
    assert s[i] == w && s[i + 1] == mon[0] && s[i + 4] == ' ';
    assert s[i + 1..i + 4] == mon;
    assert s[i + 5..i + 9] == year;
    MonthYearAtShape(s, i);
  }

  /** An alternative that fails, or that the rest of the pattern rejects,
      passes the match on to the next one. */
  lemma SkipAlternative(s: string, a: nat)
    requires a < 5
    requires DayAlternative(s, a).None? || MonthYearAt(s, DayAlternative(s, a).value.1).None?
    ensures MatchDayMonYear(s, a) == MatchDayMonYear(s, a + 1)
  {
  }

  /** The first alternative the rest of the pattern accepts gives the match. */
  lemma TakeAlternative(s: string, a: nat)
    requires a < 5 && DayAlternative(s, a).Some? && MonthYearAt(s, DayAlternative(s, a).value.1).Some?
    ensures var t := MonthYearAt(s, DayAlternative(s, a).value.1).value;
      MatchDayMonYear(s, a) == Some(DayMonYear(DayAlternative(s, a).value.0, t.0, t.1, t.2))
  {
  }

  /** What the pattern makes of a day word of digits followed by whitespace,
      stated through `DayToken` of the word. */
  function DigitDayResult(dd: string, s: string): Option<DayMonYear>
    requires |dd| <= |s|
  {
    if DayToken(dd).Some? && MonthYearAt(s, |dd|).Some? then
      var t := MonthYearAt(s, |dd|).value;
      Some(DayMonYear(DayToken(dd).value, t.0, t.1, t.2))
    else None
  }

  /** The three two-digit alternatives fail when the second character is no digit. */
  lemma OneDigitSkips(s: string)
    requires |s| >= 2 && IsDigit(s[0]) && !IsDigit(s[1])
    ensures MatchDayMonYear(s, 0) == MatchDayMonYear(s, 3)
  {
    SkipAlternative(s, 0);
    SkipAlternative(s, 1);
    SkipAlternative(s, 2);
  }

  /** The space-and-digit alternative fails on a string that starts with a digit. */
  lemma DigitFirstLastFails(s: string)
    requires |s| >= 1 && IsDigit(s[0])
    ensures MatchDayMonYear(s, 4).None?
  {
    SkipAlternative(s, 4);
  }

  lemma OneDigitDay(s: string)
    requires |s| >= 2 && IsDigit(s[0]) && IsPySpace(s[1])
    ensures MatchDayMonYear(s, 0) == DigitDayResult(s[..1], s)
  {
    assert !IsDigit(s[1]) by { if IsDigit(s[1]) { DigitNotSpace(s[1]); } }
    OneDigitSkips(s);
    DigitFirstLastFails(s);
    if DayAlternative(s, 3).None? || MonthYearAt(s, 1).None? {
      SkipAlternative(s, 3);
    } else {
      TakeAlternative(s, 3);
    }
  }

  /** After the two-digit alternatives, a second digit blocks the rest. */
  lemma TwoDigitTail(s: string)
    requires |s| >= 2 && IsDigit(s[0]) && IsDigit(s[1])
    ensures MatchDayMonYear(s, 3).None?
  {
    DigitBlocksMonth(s, 1);
    SkipAlternative(s, 3);
    DigitFirstLastFails(s);
  }

  /** With no month after the two digits nothing matches. */
  lemma TwoDigitNoMonth(s: string)
    requires |s| >= 2 && IsDigit(s[0]) && IsDigit(s[1]) && MonthYearAt(s, 2).None?
    ensures MatchDayMonYear(s, 0).None?
  {
    SkipAlternative(s, 0);
    SkipAlternative(s, 1);
    SkipAlternative(s, 2);
    TwoDigitTail(s);
  }

  /** `DayToken` of two digits is the first of the two-digit alternatives that applies. */
  lemma TwoDigitToken(s: string)
    requires |s| >= 2 && IsDigit(s[0]) && IsDigit(s[1])
    ensures DayToken(s[..2]) ==
      if DayAlternative(s, 0).Some? then Some(DayAlternative(s, 0).value.0)
      else if DayAlternative(s, 1).Some? then Some(DayAlternative(s, 1).value.0)
      else if DayAlternative(s, 2).Some? then Some(DayAlternative(s, 2).value.0)
      else None
  {
    var d := s[..2];
    assert |d| == 2 && d[0] == s[0] && d[1] == s[1];
  }

  /** The first two-digit alternative that applies gives the match; the
      alternatives before it are passed over. */
  lemma TwoDigitTaken(s: string, a: nat)
    requires a < 3 && |s| >= 3 && MonthYearAt(s, 2).Some?
    requires DayAlternative(s, a).Some? && forall b :: 0 <= b < a ==> DayAlternative(s, b).None?
    ensures var t := MonthYearAt(s, 2).value;
      MatchDayMonYear(s, 0) == Some(DayMonYear(DayAlternative(s, a).value.0, t.0, t.1, t.2))
  {
    if a > 0 {
      SkipAlternative(s, 0);
    }
    if a > 1 {
      SkipAlternative(s, 1);
    }
    TakeAlternative(s, a);
  }

  /** The two-digit alternatives exclude one another, so the one that applies is taken. */
  lemma TwoDigitWithMonth(s: string)
    requires |s| >= 3 && IsDigit(s[0]) && IsDigit(s[1]) && MonthYearAt(s, 2).Some?
    ensures MatchDayMonYear(s, 0) == DigitDayResult(s[..2], s)
  {
    TwoDigitToken(s);
    if DayAlternative(s, 0).Some? {
      TwoDigitTaken(s, 0);
    } else if DayAlternative(s, 1).Some? {
      TwoDigitTaken(s, 1);
    } else if DayAlternative(s, 2).Some? {
      TwoDigitTaken(s, 2);
    } else {
      TwoDigitNoAlternative(s);
    }
  }

  lemma TwoDigitNoAlternative(s: string)
    requires |s| >= 2 && IsDigit(s[0]) && IsDigit(s[1])
    requires DayAlternative(s, 0).None? && DayAlternative(s, 1).None? && DayAlternative(s, 2).None?
    ensures MatchDayMonYear(s, 0).None?
  {
    SkipAlternative(s, 0);
    SkipAlternative(s, 1);
    SkipAlternative(s, 2);
    TwoDigitTail(s);
  }

  lemma TwoDigitDay(s: string)
    requires |s| >= 3 && IsDigit(s[0]) && IsDigit(s[1]) && IsPySpace(s[2])
    ensures MatchDayMonYear(s, 0) == DigitDayResult(s[..2], s)
  {
    if MonthYearAt(s, 2).None? {
      TwoDigitNoMonth(s);
    } else {
      TwoDigitWithMonth(s);
    }
  }

  lemma LongDigitDay(s: string, n: nat)
    requires 3 <= n < |s| && IsDigit(s[0]) && IsDigit(s[1]) && IsDigit(s[2])
    ensures MatchDayMonYear(s, 0).None?
  {
    DigitBlocksMonth(s, 2);
    SkipAlternative(s, 0);
    SkipAlternative(s, 1);
    SkipAlternative(s, 2);
    TwoDigitTail(s);
  }

  /** A day word of digits is taken whole by `%d` or not at all: an
      alternative that stops inside it leaves a digit where whitespace must
      follow, and the alternative that takes it all reads what `DayToken` reads. */
  lemma DigitDayMatchedWhole(dd: string, rest: string)
    requires |dd| > 0 && AllDigits(dd) && |rest| > 0 && IsPySpace(rest[0])
    ensures MatchDayMonYear(dd + rest, 0) == DigitDayResult(dd, dd + rest)
  {
    var s := dd + rest;
    assert s[0] == dd[0] && s[|dd|] == rest[0];
    if |dd| == 1 {
      assert s[..1] == dd;
      OneDigitDay(s);
    } else if |dd| == 2 {
      assert s[1] == dd[1] && s[..2] == dd;
      TwoDigitDay(s);
    } else {
      assert s[1] == dd[1] && s[2] == dd[2];
      LongDigitDay(s, |dd|);
    }
  }

  /** Regrouping a four-part join, as the joined strings are built piecewise. */
  lemma JoinAssoc(a: string, b: string, c: string, d: string)
    ensures a + (b + c + d) == a + (b + c) + d
    ensures a + (b + c) == a + b + c
  {
  }

  /** A whole match that names a valid date is that date. */
  lemma StrptimeOfMatch(s: string, d: Date)
    requires Valid(d) && MatchDayMonYear(s, 0) == Some(DayMonYear(d.day, d.month, d.year, |s|))
    ensures StrptimeDayMonYear(s) == Some(d)
  {
  }

  /** The day digits, a space, the month and the year match as a whole. */
  lemma DigitDayMatch(day: string, rest: string, mon: string, year: string, d: Date)
    requires |day| > 0 && AllDigits(day) && DayToken(day) == Some(d.day)
    requires |mon| == 3 && Letters(mon) && MonthAbbrevToken(mon) == Some(d.month)
    requires |year| == 4 && AllDigits(year) && DigitsValue(year) == d.year
    requires rest == " " + mon + " " + year
    ensures MatchDayMonYear(day + rest, 0) == Some(DayMonYear(d.day, d.month, d.year, |day + rest|))
  {
    MonthYearOfWords(day, ' ', mon, year);
    JoinAssoc(day, " " + mon, " ", year);
    JoinAssoc(day, " ", mon, " ");
    DigitDayMatchedWhole(day, rest);
  }

  /** The joined day, month and year of a valid date are read back. */
  lemma DigitDayDate(day: string, mon: string, year: string, d: Date)
    requires Valid(d) && |day| > 0 && AllDigits(day) && DayToken(day) == Some(d.day)
    requires |mon| == 3 && Letters(mon) && MonthAbbrevToken(mon) == Some(d.month)
    requires |year| == 4 && AllDigits(year) && DigitsValue(year) == d.year
    ensures StrptimeDayMonYear(day + " " + mon + " " + year) == Some(d)
  {
    var rest := " " + mon + " " + year;
    DigitDayMatch(day, rest, mon, year, d);
    StrptimeOfMatch(day + rest, d);
    JoinAssoc(day, " " + mon, " ", year);
    JoinAssoc(day, " ", mon, " ");
  }

  /** The board's rendering "3rd Nov, 2024" (day, letter suffix, month
      abbreviation in any case, comma, four-digit year) parses to the same
      date as the ISO rendering. */
  lemma CommaFormatMatchesIso(d: Date, suffix: string, mon: string)
    requires Valid(d)
    requires Letters(suffix) && Letters(mon) && |mon| == 3
    requires Lower(mon) == MonthAbbrevs[d.month - 1]
    ensures ParseDate(NatToString(d.day) + suffix + " " + mon + ", " + FourDigits(d.year)) == d
    ensures ParseDate(NatToString(d.day) + suffix + " " + mon + ", " + FourDigits(d.year)) == ParseDate(FormatIso(d))
  {
    IsoRoundTrip(d);
    var day, year := NatToString(d.day), FourDigits(d.year);
    var word := day + suffix;
    var s := word + " " + mon + ", " + year;
    FourDigitsValue(d.year);
    DayWordClean(day, suffix);
    LettersClean(mon);
    assert word[0] == day[0];
    DigitNotSpace(day[0]);
    CommaPieces(word, mon, year);
    DayTokenOfNatToString(d.day);
    MonthIndexOf(d.month - 1, 0);
    DigitDayDate(day, mon, year, d);
    assert s[|word + " " + mon|] == ',';
  }

  /** A space and a digit are taken by the last alternative of `%d` alone. */
  lemma SpacedDigitDay(s: string)
    requires |s| >= 2 && s[0] == ' ' && '1' <= s[1] <= '9' && MonthYearAt(s, 2).Some?
    ensures var t := MonthYearAt(s, 2).value;
      MatchDayMonYear(s, 0) == Some(DayMonYear(Digit(s[1]), t.0, t.1, t.2))
  {
    SkipAlternative(s, 0);
    SkipAlternative(s, 1);
    SkipAlternative(s, 2);
    SkipAlternative(s, 3);
    TakeAlternative(s, 4);
  }

  /** The joined string " Dw mon year" (a digit and a whitespace character
      in front of the month) matches whole, with the digit as the day. */
  lemma SpaceDigitMatch(j: string, c: char, w: char, mon: string, year: string, m: int)
    requires '1' <= c <= '9' && IsPySpace(w)
    requires |mon| == 3 && Letters(mon) && MonthAbbrevToken(mon) == Some(m)
    requires |year| == 4 && AllDigits(year)
    requires |j| == 11 && j[0] == ' ' && j[1] == c && j[2] == w && j[6] == ' '
    requires j[3..6] == mon && j[7..11] == year
    ensures MatchDayMonYear(j, 0) == Some(DayMonYear(Digit(c), m, DigitsValue(year), |j|))
  {
    assert j[3] == mon[0];
    MonthYearAtShape(j, 2);
    SpacedDigitDay(j);
  }

  /** ... and so reads the digit as the day of the month. */
  lemma SpaceDigitDayDate(c: char, w: char, mon: string, year: string, m: int)
    requires '1' <= c <= '9' && IsPySpace(w)
    requires |mon| == 3 && Letters(mon) && MonthAbbrevToken(mon) == Some(m)
    requires |year| == 4 && AllDigits(year) && 1 <= DigitsValue(year) <= 9999
    ensures StrptimeDayMonYear(" " + [c, w] + mon + " " + year) == Some(Date(DigitsValue(year), m, Digit(c)))
  {
    var j := " " + [c, w] + mon + " " + year;
    assert j[3..6] == mon && j[7..11] == year;
    SpaceDigitMatch(j, c, w, mon, year, m);
    StrptimeOfMatch(j, Date(DigitsValue(year), m, Digit(c)));
  }

  /** A comma-shaped string is parsed by the comma branch alone. */
  lemma CommaDateParsed(s: string, d: Date)
    requires ',' in s && ParseCommaDate(s) == Some(d)
    ensures ParseDate(s) == d
  {
  }

  /** A first word without digits contributes nothing to the joined string. */
  lemma DaylessPieces(word: string, mw: string, year: string)
    requires |word| > 0 && ',' !in word && ' ' !in word && !IsPySpace(word[0])
    requires forall i :: 0 <= i < |word| ==> !IsDigit(word[i])
    requires |mw| > 0 && ',' !in mw && ' ' !in mw && !IsPySpace(mw[|mw| - 1])
    requires |year| > 0 && AllDigits(year)
    ensures ParseCommaDate(word + " " + mw + ", " + year) == StrptimeDayMonYear(" " + mw + " " + year)
  {
    CommaPieces(word, mw, year);
    DigitsOnlyExtremes(word);
    assert DigitsOnly(word) + " " == " ";
  }

  /** With no digit in the first word the day comes out of the month word:
      the joined string starts with a space, and the last alternative of
      `%d`, a space and a digit, takes the digit in front of the month. */
  lemma DaylessWordTakesDayFromMonthWord(word: string, c: char, w: char, mon: string, y: int, m: int)
    requires |word| > 0 && ',' !in word && ' ' !in word && !IsPySpace(word[0])
    requires forall i :: 0 <= i < |word| ==> !IsDigit(word[i])
    requires '1' <= c <= '9' && IsPySpace(w) && w != ' '
    requires |mon| == 3 && Letters(mon) && 1 <= m <= 12 && Lower(mon) == MonthAbbrevs[m - 1]
    requires 1 <= y <= 9999
    ensures ParseDate(word + " " + [c, w] + mon + ", " + FourDigits(y)) == Date(y, m, Digit(c))
  {
    var year := FourDigits(y);
    var mw := [c, w] + mon;
    FourDigitsValue(y);
    LettersClean(mon);
    assert mw[|mw| - 1] == mon[2];
    assert ',' !in mw && ' ' !in mw by {
      assert forall i :: 0 <= i < |mw| ==> i < 2 || mw[i] == mon[i - 2];
    }
    DaylessPieces(word, mw, year);
    MonthIndexOf(m - 1, 0);
    JoinAssoc(" ", [c, w], mon, " ");
    SpaceDigitDayDate(c, w, mon, year, m);
    var s := word + " " + mw + ", " + year;
    JoinAssoc(word + " ", [c, w], mon, ", ");
    assert s[|word + " " + mw|] == ',';
    CommaDateParsed(s, Date(y, m, Digit(c)));
  }

  /** "x 5\tNov, 2024": the first word has no digit, yet the date is read
      as the fifth of November. */
  lemma DaylessExample()
    ensures ParseDate("x 5\tNov, 2024") == Date(2024, 11, 5)
  {
    assert "x 5\tNov, 2024" == "x" + " " + ['5', '\t'] + "Nov" + ", " + FourDigits(2024);
    assert Lower("Nov") == MonthAbbrevs[10];
    DaylessWordTakesDayFromMonthWord("x", '5', '\t', "Nov", 2024, 11);
  }
}
