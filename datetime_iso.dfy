/**
 * `_from_string_to_iso`: `datetime.strptime(s, "%d.%m.%Y. %H:%M:%S").isoformat()`,
 * with every failure turned into the empty string.
 *
 * `strptime` matches a regular expression built from the format, field by field:
 * `%d` is `3[01]|[12]\d|0[1-9]|[1-9]| [1-9]`, `%m` is `1[0-2]|0[1-9]|[1-9]`,
 * `%Y` is `\d\d\d\d`, `%H` is `2[0-3]|[0-1]\d|\d`, `%M` is `[0-5]\d|\d`,
 * `%S` is `6[0-1]|[0-5]\d|\d`, the space becomes `\s+` and the dots are literal.
 * Anything left after the seconds is an error, and the `datetime` constructor then
 * refuses impossible dates, the year 0 and the seconds 60 and 61.
 */
module DateTimeIso {
  import opened Text
  import opened Wrappers

  datatype DateTime = DateTime(year: nat, month: nat, day: nat, hour: nat, minute: nat, second: nat)

  predicate IsLeapYear(y: nat) {
    y % 4 == 0 && (y % 100 != 0 || y % 400 == 0)
  }

  function DaysInMonth(y: nat, m: nat): nat {
    if m == 2 then (if IsLeapYear(y) then 29 else 28)
    else if m == 4 || m == 6 || m == 9 || m == 11 then 30
    else 31
  }

  /** The values Python's `datetime(year, month, day, hour, minute, second)` accepts. */
  predicate IsRealDateTime(t: DateTime) {
    1 <= t.year <= 9999 && 1 <= t.month <= 12 && 1 <= t.day <= DaysInMonth(t.year, t.month)
    && t.hour <= 23 && t.minute <= 59 && t.second <= 59
  }

  /** Components small enough to be written with two digits (four for the year). */
  predicate Printable(t: DateTime) {
    t.year <= 9999 && t.month <= 99 && t.day <= 99 && t.hour <= 99 && t.minute <= 99 && t.second <= 99
  }

  function Tens(n: nat): char requires n < 100 { DigitChar(n / 10) }
  function Ones(n: nat): char requires n < 100 { DigitChar(n % 10) }

  /** `t` written in the receipt convention `dd.mm.yyyy. HH:MM:SS`. */
  function SerbianText(t: DateTime): (s: string)
    requires Printable(t)
    ensures |s| == 20
  {
    [Tens(t.day), Ones(t.day), '.', Tens(t.month), Ones(t.month), '.',
     Tens(t.year / 100), Ones(t.year / 100), Tens(t.year % 100), Ones(t.year % 100), '.', ' ',
     Tens(t.hour), Ones(t.hour), ':', Tens(t.minute), Ones(t.minute), ':', Tens(t.second), Ones(t.second)]
  }

  /** `datetime.isoformat()` of a value without microseconds: `yyyy-mm-ddTHH:MM:SS`. */
  function IsoText(t: DateTime): (s: string)
    requires Printable(t)
    ensures |s| == 19
  {
    [Tens(t.year / 100), Ones(t.year / 100), Tens(t.year % 100), Ones(t.year % 100), '-',
     Tens(t.month), Ones(t.month), '-', Tens(t.day), Ones(t.day), 'T',
     Tens(t.hour), Ones(t.hour), ':', Tens(t.minute), Ones(t.minute), ':', Tens(t.second), Ones(t.second)]
  }

  function TwoDigits(s: string, i: nat): nat
    requires i + 1 < |s| && IsDigit(s[i]) && IsDigit(s[i + 1])
  {
    10 * DigitValue(s[i]) + DigitValue(s[i + 1])
  }

  /**
   * A one- or two-digit field at `i` followed by `sep`, as the alternatives of `%m`,
   * `%H` and `%M` match it: two digits with a value in `least..most`, or one digit
   * of value at least `least`. Yields the value and the index after `sep`.
   */
  function ShortField(s: string, i: nat, sep: char, least: nat, most: nat): (r: Option<(nat, nat)>)
    ensures r.Some? ==> i < r.value.1 <= |s| && (least <= r.value.0 <= most || r.value.0 <= 9)
  {
    if i + 2 < |s| && IsDigit(s[i]) && IsDigit(s[i + 1]) && s[i + 2] == sep then
      var v := TwoDigits(s, i);
      if least <= v <= most then Some((v, i + 3)) else None
    else if i + 1 < |s| && IsDigit(s[i]) && DigitValue(s[i]) >= least && s[i + 1] == sep then
      Some((DigitValue(s[i]), i + 2))
    else None
  }

  /** `%d` followed by `.`: like `%m`, plus a space-padded single digit (` [1-9]`). */
  function DayField(s: string, i: nat): Option<(nat, nat)> {
    if i + 2 < |s| && s[i] == ' ' && IsDigit(s[i + 1]) && DigitValue(s[i + 1]) >= 1 && s[i + 2] == '.'
    then Some((DigitValue(s[i + 1]), i + 3))
    else ShortField(s, i, '.', 1, 31)
  }

  /** The index of the first non-whitespace character at or after `i`. */
  function SkipSpace(s: string, i: nat): (j: nat)
    requires i <= |s|
    ensures i <= j <= |s|
    ensures forall k :: i <= k < j ==> IsSpace(s[k])
    ensures j < |s| ==> !IsSpace(s[j])
    decreases |s| - i
  {
    if i < |s| && IsSpace(s[i]) then SkipSpace(s, i + 1) else i
  }

  /** `%Y` followed by `.` and `\s+`: four digits; yields the year and the index after the spaces. */
  function YearField(s: string, i: nat): Option<(nat, nat)> {
    if i + 5 < |s| && IsDigit(s[i]) && IsDigit(s[i + 1]) && IsDigit(s[i + 2]) && IsDigit(s[i + 3])
       && s[i + 4] == '.' && IsSpace(s[i + 5])
    then Some((100 * TwoDigits(s, i) + TwoDigits(s, i + 2), SkipSpace(s, i + 5)))
    else None
  }

  /**
   * `%S` and the end of the text: the first alternative of `6[0-1]|[0-5]\d|\d` that
   * matches must reach the end, so one digit, or two digits up to 61.
   */
  function SecondField(s: string, i: nat): Option<nat>
    requires i <= |s|
  {
    if |s| == i + 1 && IsDigit(s[i]) then Some(DigitValue(s[i]))
    else if |s| == i + 2 && IsDigit(s[i]) && IsDigit(s[i + 1]) && TwoDigits(s, i) <= 61 then Some(TwoDigits(s, i))
    else None
  }

  /** The fields `strptime`'s pattern captures from `s`, before the `datetime` checks. */
  function MatchFormat(s: string): Option<DateTime> {
    var (day, i) :- DayField(s, 0);
    var (month, j) :- ShortField(s, i, '.', 1, 12);
    var (year, k) :- YearField(s, j);
    var (hour, l) :- ShortField(s, k, ':', 0, 23);
    var (minute, m) :- ShortField(s, l, ':', 0, 59);
    var second :- if m <= |s| then SecondField(s, m) else None;
    Some(DateTime(year, month, day, hour, minute, second))
  }

  /** `_from_string_to_iso`: the ISO text of the parsed value, or `''` on any failure. */
  function FromStringToIso(s: string): (r: string)
    ensures r == [] || exists t :: Printable(t) && IsRealDateTime(t) && r == IsoText(t)
  {
    match MatchFormat(s)
    case Some(t) =>
      if IsRealDateTime(t) then IsoText(t) else []
    case None => []
  }

  /** The ranges `strptime`'s field patterns admit for two-digit fields. */
  predicate FieldsInPatternRange(t: DateTime) {
    1 <= t.day <= 31 && 1 <= t.month <= 12 && t.hour <= 23 && t.minute <= 59 && t.second <= 61
  }

  lemma TwoDigitsOf(s: string, i: nat, n: nat)
    requires n < 100 && i + 1 < |s| && s[i] == Tens(n) && s[i + 1] == Ones(n)
    ensures IsDigit(s[i]) && IsDigit(s[i + 1]) && TwoDigits(s, i) == n
  {
  }

  /** Reading a strictly formatted text back yields its components, when the field patterns admit them. */
  lemma MatchSerbianText(t: DateTime)
    requires Printable(t)
    ensures MatchFormat(SerbianText(t)) == if FieldsInPatternRange(t) then Some(t) else None
  {
    var s := SerbianText(t);
    SerbianDate(t, s);
    SerbianTime(t, s);
  }

  /** The date part of a strictly formatted text: day, month, then the year and the space. */
  lemma SerbianDate(t: DateTime, s: string)
    requires Printable(t) && s == SerbianText(t)
    ensures DayField(s, 0) == if 1 <= t.day <= 31 then Some((t.day, 3)) else None
    ensures ShortField(s, 3, '.', 1, 12) == if 1 <= t.month <= 12 then Some((t.month, 6)) else None
    ensures YearField(s, 6) == Some((t.year, 12))
  {
    SerbianDay(t, s);
    SerbianMonth(t, s);
    SerbianYear(t, s);
  }

  lemma SerbianDay(t: DateTime, s: string)
    requires Printable(t) && s == SerbianText(t)
    ensures DayField(s, 0) == if 1 <= t.day <= 31 then Some((t.day, 3)) else None
  {
    TwoDigitsOf(s, 0, t.day);
    assert s[2] == '.' && s[0] != ' ';
  }

  lemma SerbianMonth(t: DateTime, s: string)
    requires Printable(t) && s == SerbianText(t)
    ensures ShortField(s, 3, '.', 1, 12) == if 1 <= t.month <= 12 then Some((t.month, 6)) else None
  {
    TwoDigitsOf(s, 3, t.month);
    assert s[5] == '.';
  }

  lemma SerbianYear(t: DateTime, s: string)
    requires Printable(t) && s == SerbianText(t)
    ensures YearField(s, 6) == Some((t.year, 12))
  {
    TwoDigitsOf(s, 6, t.year / 100);
    TwoDigitsOf(s, 8, t.year % 100);
    assert SkipSpace(s, 12) == 12;
    assert SkipSpace(s, 11) == 12;
  }

  /** The time part of a strictly formatted text: hour, minute and second. */
  lemma SerbianTime(t: DateTime, s: string)
    requires Printable(t) && s == SerbianText(t)
    ensures ShortField(s, 12, ':', 0, 23) == if t.hour <= 23 then Some((t.hour, 15)) else None
    ensures ShortField(s, 15, ':', 0, 59) == if t.minute <= 59 then Some((t.minute, 18)) else None
    ensures SecondField(s, 18) == if t.second <= 61 then Some(t.second) else None
  {
    TwoDigitsOf(s, 12, t.hour);
    TwoDigitsOf(s, 15, t.minute);
    TwoDigitsOf(s, 18, t.second);
  }

  /**
   * On strictly formatted text the converter is exact: a real calendar date and
   * time comes back as its ISO form with the same components, anything else
   * (30.02, hour 24, second 60, year 0000) as `''`.
   */
  lemma StrictForm(t: DateTime)
    requires Printable(t)
    ensures FromStringToIso(SerbianText(t)) == if IsRealDateTime(t) then IsoText(t) else []
  {
    MatchSerbianText(t);
  }

  // ----- the texts the converter accepts -----

  /** One or two ASCII digits spelling `v`. */
  predicate DigitsText(w: string, v: nat) {
    (|w| == 1 && IsDigit(w[0]) && DigitValue(w[0]) == v)
    || (|w| == 2 && IsDigit(w[0]) && IsDigit(w[1]) && 10 * DigitValue(w[0]) + DigitValue(w[1]) == v)
  }

  /** A day may also be written as a space and one digit. */
  predicate DayText(w: string, v: nat) {
    DigitsText(w, v) || (|w| == 2 && w[0] == ' ' && IsDigit(w[1]) && DigitValue(w[1]) == v)
  }

  /** Four ASCII digits spelling `v`. */
  predicate YearText(w: string, v: nat) {
    |w| == 4 && IsDigit(w[0]) && IsDigit(w[1]) && IsDigit(w[2]) && IsDigit(w[3])
    && 1000 * DigitValue(w[0]) + 100 * DigitValue(w[1]) + 10 * DigitValue(w[2]) + DigitValue(w[3]) == v
  }

  /** A non-empty run of whitespace. */
  predicate Blank(w: string) {
    w != [] && forall i :: 0 <= i < |w| ==> IsSpace(w[i])
  }

  /**
   * `s` writes `t` in the layout `%d.%m.%Y. %H:%M:%S`, cut at its separators: the day
   * `s[..a]`, the month `s[a + 1..b]`, the year `s[b + 1..b + 5]`, whitespace
   * `s[b + 6..c]`, the hour `s[c..h]`, the minute `s[h + 1..m]` and the second `s[m + 1..]`.
   */
  predicate RendersAt(s: string, t: DateTime, a: nat, b: nat, c: nat, h: nat, m: nat) {
    a < b && b + 6 <= c < h < m < |s|
    && DayText(s[..a], t.day) && s[a] == '.'
    && DigitsText(s[a + 1..b], t.month) && s[b] == '.'
    && YearText(s[b + 1..b + 5], t.year) && s[b + 5] == '.'
    && Blank(s[b + 6..c])
    && DigitsText(s[c..h], t.hour) && s[h] == ':'
    && DigitsText(s[h + 1..m], t.minute) && s[m] == ':'
    && DigitsText(s[m + 1..], t.second)
  }

  /** `s` is one of the ways of writing `t` that the format admits. */
  ghost predicate Renders(s: string, t: DateTime) {
    exists a: nat, b: nat, c: nat, h: nat, m: nat :: RendersAt(s, t, a, b, c, h, m)
  }

  /**
   * `_from_string_to_iso` converts exactly the texts that write a real date and time:
   * such a text gives that value's ISO form, and every other text gives `''`.
   */
  lemma ConvertsRenderings(s: string)
    ensures FromStringToIso(s) != [] <==> exists t :: Renders(s, t) && IsRealDateTime(t)
    ensures forall t :: Renders(s, t) && IsRealDateTime(t) ==> FromStringToIso(s) == IsoText(t)
  {
    forall t | Renders(s, t) && IsRealDateTime(t)
      ensures FromStringToIso(s) == IsoText(t)
    {
      RenderingParses(s, t);
    }
    if FromStringToIso(s) != [] {
      var t := MatchFormat(s).value;
      var a, b, c, h, m := ParsedRenders(s);
      assert RendersAt(s, t, a, b, c, h, m);
      assert Renders(s, t) && IsRealDateTime(t);
    }
  }

  /** Whatever the format's pattern captures was written in the layout. */
  lemma ParsedRenders(s: string) returns (a: nat, b: nat, c: nat, h: nat, m: nat)
    requires MatchFormat(s).Some?
    ensures RendersAt(s, MatchFormat(s).value, a, b, c, h, m)
  {
    var t := MatchFormat(s).value;
    var i, j, k, l, n := ParsedFields(s);
    DayFieldText(s);
    ShortFieldText(s, i, '.', 1, 12);
    YearFieldText(s, j);
    ShortFieldText(s, k, ':', 0, 23);
    ShortFieldText(s, l, ':', 0, 59);
    SecondFieldText(s, n);
    a, b, c, h, m := i - 1, j - 1, k, l - 1, n - 1;
  }

  /** The steps of a successful match: where each field ends, and the value it read. */
  lemma ParsedFields(s: string) returns (i: nat, j: nat, k: nat, l: nat, n: nat)
    requires MatchFormat(s).Some?
    ensures DayField(s, 0) == Some((MatchFormat(s).value.day, i))
    ensures ShortField(s, i, '.', 1, 12) == Some((MatchFormat(s).value.month, j))
    ensures YearField(s, j) == Some((MatchFormat(s).value.year, k))
    ensures ShortField(s, k, ':', 0, 23) == Some((MatchFormat(s).value.hour, l))
    ensures ShortField(s, l, ':', 0, 59) == Some((MatchFormat(s).value.minute, n))
    ensures n <= |s| && SecondField(s, n) == Some(MatchFormat(s).value.second)
  {
    i := DayField(s, 0).value.1;
    j := ShortField(s, i, '.', 1, 12).value.1;
    k := YearField(s, j).value.1;
    l := ShortField(s, k, ':', 0, 23).value.1;
    n := ShortField(s, l, ':', 0, 59).value.1;
  }

  lemma DayFieldText(s: string)
    requires DayField(s, 0).Some?
    ensures var (v, j) := DayField(s, 0).value; 1 < j <= |s| && s[j - 1] == '.' && DayText(s[..j - 1], v)
  {
  }

  lemma ShortFieldText(s: string, i: nat, sep: char, least: nat, most: nat)
    requires ShortField(s, i, sep, least, most).Some?
    ensures var (v, j) := ShortField(s, i, sep, least, most).value;
            i + 1 < j <= |s| && s[j - 1] == sep && DigitsText(s[i..j - 1], v)
  {
  }

  lemma YearFieldText(s: string, i: nat)
    requires YearField(s, i).Some?
    ensures var (v, k) := YearField(s, i).value;
            i + 5 < k <= |s| && YearText(s[i..i + 4], v) && s[i + 4] == '.' && Blank(s[i + 5..k])
  {
    var k := SkipSpace(s, i + 5);
    assert k != i + 5;
    assert forall x :: i + 5 <= x < k ==> s[i + 5..k][x - (i + 5)] == s[x];
  }

  lemma SecondFieldText(s: string, i: nat)
    requires i <= |s| && SecondField(s, i).Some?
    ensures DigitsText(s[i..], SecondField(s, i).value)
  {
  }

  /** Any text that writes a real date and time reads back as exactly that value. */
  lemma RenderingParses(s: string, t: DateTime)
    requires Renders(s, t) && IsRealDateTime(t)
    ensures MatchFormat(s) == Some(t)
  {
    var a: nat, b: nat, c: nat, h: nat, m: nat :| RendersAt(s, t, a, b, c, h, m);
    RenderedFields(s, t, a, b, c, h, m);
  }

  /** Each field of a rendering, read by its part of the pattern. */
  lemma RenderedFields(s: string, t: DateTime, a: nat, b: nat, c: nat, h: nat, m: nat)
    requires RendersAt(s, t, a, b, c, h, m) && IsRealDateTime(t)
    ensures DayField(s, 0) == Some((t.day, a + 1))
    ensures ShortField(s, a + 1, '.', 1, 12) == Some((t.month, b + 1))
    ensures YearField(s, b + 1) == Some((t.year, c))
    ensures ShortField(s, c, ':', 0, 23) == Some((t.hour, h + 1))
    ensures ShortField(s, h + 1, ':', 0, 59) == Some((t.minute, m + 1))
    ensures m + 1 <= |s| && SecondField(s, m + 1) == Some(t.second)
  {
    TextDayField(s, a, t.day);
    TextShortField(s, a + 1, b, '.', 1, 12, t.month);
    assert s[c..h][0] == s[c];
    TextYearField(s, b + 1, c, t.year);
    TextShortField(s, c, h, ':', 0, 23, t.hour);
    TextShortField(s, h + 1, m, ':', 0, 59, t.minute);
    TextSecondField(s, m + 1, t.second);
  }

  lemma TextDayField(s: string, a: nat, v: nat)
    requires a < |s| && DayText(s[..a], v) && s[a] == '.' && 1 <= v <= 31
    ensures DayField(s, 0) == Some((v, a + 1))
  {
    if s[0] != ' ' {
      TextShortField(s, 0, a, '.', 1, 31, v);
    }
  }

  lemma TextShortField(s: string, i: nat, e: nat, sep: char, least: nat, most: nat, v: nat)
    requires i < e < |s| && DigitsText(s[i..e], v) && s[e] == sep && !IsDigit(sep) && least <= v <= most
    ensures ShortField(s, i, sep, least, most) == Some((v, e + 1))
  {
    assert s[i..e][0] == s[i];
    if e == i + 2 {
      assert s[i..e][1] == s[i + 1];
    }
  }

  lemma TextYearField(s: string, i: nat, c: nat, v: nat)
    requires i + 5 <= c < |s| && YearText(s[i..i + 4], v) && s[i + 4] == '.' && Blank(s[i + 5..c]) && IsDigit(s[c])
    ensures YearField(s, i) == Some((v, c))
  {
    assert forall x :: i + 5 <= x < c ==> s[x] == s[i + 5..c][x - (i + 5)];
    SkipBlank(s, i + 5, c);
  }

  lemma {:induction false} SkipBlank(s: string, i: nat, c: nat)
    requires i <= c < |s| && (forall x :: i <= x < c ==> IsSpace(s[x])) && !IsSpace(s[c])
    ensures SkipSpace(s, i) == c
    decreases c - i
  {
    if i < c {
      SkipBlank(s, i + 1, c);
    }
  }

  lemma TextSecondField(s: string, i: nat, v: nat)
    requires i < |s| && DigitsText(s[i..], v) && v <= 61
    ensures SecondField(s, i) == Some(v)
  {
    assert s[i..][0] == s[i];
    if |s| == i + 2 {
      assert s[i..][1] == s[i + 1];
    }
  }

  /** `"15.03.2024. 13:45:02"` becomes `"2024-03-15T13:45:02"`. */
  lemma ExampleValid()
    ensures FromStringToIso("15.03.2024. 13:45:02") == "2024-03-15T13:45:02"
  {
    var t := DateTime(2024, 3, 15, 13, 45, 2);
    assert SerbianText(t) == "15.03.2024. 13:45:02";
    assert IsoText(t) == "2024-03-15T13:45:02";
    StrictForm(t);
  }

  /** The 30th of February is not a date. */
  lemma ExampleNoSuchDay()
    ensures FromStringToIso("30.02.2024. 13:45:02") == ""
  {
    var t := DateTime(2024, 2, 30, 13, 45, 2);
    assert SerbianText(t) == "30.02.2024. 13:45:02";
    StrictForm(t);
  }

  /** Hour 24 is refused by the `%H` pattern. */
  lemma ExampleHour24()
    ensures FromStringToIso("15.03.2024. 24:00:00") == ""
  {
    var t := DateTime(2024, 3, 15, 24, 0, 0);
    assert SerbianText(t) == "15.03.2024. 24:00:00";
    StrictForm(t);
  }

  /** The dot after the year is part of the format. */
  lemma ExampleMissingDot()
    ensures FromStringToIso("15.03.2024 13:45:02") == ""
  {
    var s := "15.03.2024 13:45:02";
    assert DayField(s, 0) == Some((15, 3));
    assert ShortField(s, 3, '.', 1, 12) == Some((3, 6));
    assert YearField(s, 6) == None;
  }

  /** `strptime` is lenient: one-digit fields and a run of spaces are accepted. */
  lemma ExampleLenient(s: string)
    requires s == "1.3.2024.  9:05:07"
    ensures FromStringToIso(s) == "2024-03-01T09:05:07"
  {
    LenientMatch(s);
    LenientIso(DateTime(2024, 3, 1, 9, 5, 7));
  }

  lemma LenientIso(t: DateTime)
    requires t == DateTime(2024, 3, 1, 9, 5, 7)
    ensures IsRealDateTime(t) && IsoText(t) == "2024-03-01T09:05:07"
  {
  }

  lemma LenientMatch(s: string)
    requires s == "1.3.2024.  9:05:07"
    ensures MatchFormat(s) == Some(DateTime(2024, 3, 1, 9, 5, 7))
  {
    LenientDate(s);
    LenientTime(s);
  }

  lemma LenientDate(s: string)
    requires s == "1.3.2024.  9:05:07"
    ensures DayField(s, 0) == Some((1, 2))
    ensures ShortField(s, 2, '.', 1, 12) == Some((3, 4))
    ensures YearField(s, 4) == Some((2024, 11))
  {
    assert SkipSpace(s, 11) == 11;
    assert SkipSpace(s, 10) == 11;
    assert SkipSpace(s, 9) == 11;
  }

  lemma LenientTime(s: string)
    requires s == "1.3.2024.  9:05:07"
    ensures ShortField(s, 11, ':', 0, 23) == Some((9, 13))
    ensures ShortField(s, 13, ':', 0, 59) == Some((5, 16))
    ensures SecondField(s, 16) == Some(7)
  {
  }
}
