/** Gregorian calendar dates and clock times as the application's date library (dayjs)
    reads and writes them: days in a month, the weekday (Sunday = 0), the "YYYY-MM-DD" and
    "HH:mm" formats, and the reading of a clock string appended to a fixed date. */
module Calendar {
  import opened JsText

  datatype Date = Date(year: int, month: int, day: int)

  predicate IsLeapYear(y: int) {
    y % 4 == 0 && (y % 100 != 0 || y % 400 == 0)
  }

  function DaysInMonth(year: int, month: int): (n: int)
    requires 1 <= month <= 12
    ensures 28 <= n <= 31
    ensures n == 29 <==> month == 2 && IsLeapYear(year)
    ensures n == 28 <==> month == 2 && !IsLeapYear(year)
    ensures n == 30 <==> month in {4, 6, 9, 11}
  {
    if month == 2 then (if IsLeapYear(year) then 29 else 28)
    else if month in {4, 6, 9, 11} then 30
    else 31
  }

  predicate ValidDate(d: Date) {
    1 <= d.month <= 12 && 1 <= d.day <= DaysInMonth(d.year, d.month)
  }

  /** Days from 0000-03-01 to the first day (March 1) of shifted year `y`; a shifted year
      starts in March, so the leap day is its last day. `/` is floor division here. */
  function ShiftedYearStart(y: int): int {
    365 * y + y / 4 - y / 100 + y / 400
  }

  /** Day of the shifted year (March 1 = 0) on which the given month begins. */
  function ShiftedMonthStart(month: int): int {
    var mp := if month > 2 then month - 3 else month + 9;
    (153 * mp + 2) / 5
  }

  /** Days since 1970-01-01 (negative before it), proleptic Gregorian calendar. */
  function DayNumber(d: Date): int {
    var y := if d.month <= 2 then d.year - 1 else d.year;
    ShiftedYearStart(y) + ShiftedMonthStart(d.month) + d.day - 1 - 719468
  }

  /** `dayjs(date).day()`: 0 = Sunday, ..., 6 = Saturday. 1970-01-01 was a Thursday. */
  function Weekday(d: Date): (w: int)
    ensures 0 <= w < 7
  {
    (DayNumber(d) + 4) % 7
  }

  predicate IsWeekend(d: Date) {
    Weekday(d) == 0 || Weekday(d) == 6
  }

  /** The calendar successor of a valid date. */
  function NextDay(d: Date): Date
    requires ValidDate(d)
  {
    if d.day < DaysInMonth(d.year, d.month) then Date(d.year, d.month, d.day + 1)
    else if d.month < 12 then Date(d.year, d.month + 1, 1)
    else Date(d.year + 1, 1, 1)
  }

  lemma FloorStep4(y: int)
    ensures (y + 1) / 4 - y / 4 == if (y + 1) % 4 == 0 then 1 else 0
  {
  }

  lemma FloorStep100(y: int)
    ensures (y + 1) / 100 - y / 100 == if (y + 1) % 100 == 0 then 1 else 0
  {
  }

  lemma FloorStep400(y: int)
    ensures (y + 1) / 400 - y / 400 == if (y + 1) % 400 == 0 then 1 else 0
  {
  }

  lemma DivisibilityChain(n: int)
    ensures n % 400 == 0 ==> n % 100 == 0
    ensures n % 100 == 0 ==> n % 4 == 0
  {
    if n % 400 == 0 {
      var k := n / 400;
      assert n == 400 * k;
      var q, r := n / 100, n % 100;
      assert 100 * (4 * k - q) == r;
      assert 4 * k == q;
    }
    if n % 100 == 0 {
      var k := n / 100;
      assert n == 100 * k;
      var q, r := n / 4, n % 4;
      assert 4 * (25 * k - q) == r;
      assert 25 * k == q;
    }
  }

  /** A shifted year is 366 days long exactly when the calendar year after it is a leap year. */
  lemma ShiftedYearLength(y: int)
    ensures ShiftedYearStart(y + 1) - ShiftedYearStart(y) == if IsLeapYear(y + 1) then 366 else 365
  {
    FloorStep4(y);
    FloorStep100(y);
    FloorStep400(y);
    DivisibilityChain(y + 1);
  }

  /** Each month other than February starts, in the shifted year, right after the previous one ends. */
  lemma ShiftedMonthStep(year: int, month: int)
    requires 1 <= month <= 12 && month != 2
    ensures ShiftedMonthStart(month % 12 + 1) == ShiftedMonthStart(month) + DaysInMonth(year, month)
  {
    if month == 1 {
    } else if month == 3 {
    } else if month == 4 {
    } else if month == 5 {
    } else if month == 6 {
    } else if month == 7 {
    } else if month == 8 {
    } else if month == 9 {
    } else if month == 10 {
    } else if month == 11 {
    } else {
    }
  }

  /** Day numbers count days: the next day has the next number. */
  lemma NextDayNumber(d: Date)
    requires ValidDate(d)
    ensures ValidDate(NextDay(d))
    ensures DayNumber(NextDay(d)) == DayNumber(d) + 1
  {
    if d.day < DaysInMonth(d.year, d.month) {
    } else if d.month == 2 {
      EndOfFebruary(d.year);
    } else if d.month == 12 {
      ShiftedMonthStep(d.year, 12);
      assert DayNumber(d) == ShiftedYearStart(d.year) + ShiftedMonthStart(12) + 30 - 719468;
      assert DayNumber(NextDay(d)) == ShiftedYearStart(d.year) + ShiftedMonthStart(1) - 719468;
    } else {
      ShiftedMonthStep(d.year, d.month);
      var y := if d.month <= 2 then d.year - 1 else d.year;
      assert DayNumber(d) == ShiftedYearStart(y) + ShiftedMonthStart(d.month) + DaysInMonth(d.year, d.month) - 1 - 719468;
      assert DayNumber(NextDay(d)) == ShiftedYearStart(y) + ShiftedMonthStart(d.month + 1) - 719468;
    }
  }

  /** March 1 follows the last day of February. */
  lemma EndOfFebruary(year: int)
    ensures DayNumber(Date(year, 3, 1)) == DayNumber(Date(year, 2, DaysInMonth(year, 2))) + 1
  {
    ShiftedYearLength(year - 1);
    assert ShiftedMonthStart(2) == 337 && ShiftedMonthStart(3) == 0;
  }

  /** Weekdays cycle: the day after a Saturday is a Sunday. */
  lemma NextDayWeekday(d: Date)
    requires ValidDate(d)
    ensures Weekday(NextDay(d)) == (Weekday(d) + 1) % 7
  {
    NextDayNumber(d);
    ModSevenStep(DayNumber(d) + 4);
  }

  lemma ModSevenStep(x: int)
    ensures (x + 1) % 7 == (x % 7 + 1) % 7
  {
  }

  // ---------------------------------------------------------------------------
  // Decimal digits

  function DigitChar(k: int): char
    requires 0 <= k <= 9
  {
    ('0' as int + k) as char
  }

  predicate AllDigits(s: string) {
    forall i :: 0 <= i < |s| ==> IsAsciiDigit(s[i])
  }

  /** Value of a string of ASCII digits. */
  function DigitsValue(s: string): nat
    requires AllDigits(s)
  {
    if s == [] then 0
    else
      assert IsAsciiDigit(s[|s| - 1]);
      DigitsValue(s[..|s| - 1]) * 10 + (s[|s| - 1] as int - '0' as int)
  }

  function Pow10(k: nat): (p: nat)
    ensures p >= 1
  {
    if k == 0 then 1 else 10 * Pow10(k - 1)
  }

  /** The value of a concatenation of digit strings. */
  lemma {:induction false} DigitsValueAppend(a: string, b: string)
    requires AllDigits(a) && AllDigits(b)
    ensures AllDigits(a + b)
    ensures DigitsValue(a + b) == DigitsValue(a) * Pow10(|b|) + DigitsValue(b)
  {
    if b != [] {
      var b' := b[..|b| - 1];
      var last := b[|b| - 1] as int - '0' as int;
      assert (a + b)[..|a + b| - 1] == a + b';
      assert (a + b)[|a + b| - 1] == b[|b| - 1];
      DigitsValueAppend(a, b');
      var va, vb', p := DigitsValue(a), DigitsValue(b'), Pow10(|b'|);
      assert DigitsValue(a + b) == DigitsValue(a + b') * 10 + last;
      assert DigitsValue(b) == vb' * 10 + last;
      assert Pow10(|b|) == p * 10;
      ShiftDecimal(va, p, vb', last);
    } else {
      assert a + b == a;
    }
  }

  /** One more digit after `va` followed by a `p`-place tail. */
  lemma ShiftDecimal(va: int, p: int, vb: int, last: int)
    ensures (va * p + vb) * 10 + last == va * (p * 10) + (vb * 10 + last)
  {
  }

  /** `padStart(2, "0")` of a number below 100. */
  function Pad2(n: int): (s: string)
    requires 0 <= n < 100
    ensures |s| == 2 && AllDigits(s) && DigitsValue(s) == n
  {
    var s := [DigitChar(n / 10), DigitChar(n % 10)];
    assert s[..1] == [DigitChar(n / 10)];
    assert [DigitChar(n / 10)][..0] == [];
    assert DigitsValue(s[..1]) == n / 10;
    assert DigitsValue(s) == DigitsValue(s[..1]) * 10 + n % 10;
    s
  }

  /** `padStart(4, "0")` of a number below 10000. */
  function Pad4(n: int): (s: string)
    requires 0 <= n < 10000
    ensures |s| == 4 && AllDigits(s) && DigitsValue(s) == n
  {
    DigitsValueAppend(Pad2(n / 100), Pad2(n % 100));
    Pad2(n / 100) + Pad2(n % 100)
  }

  // ---------------------------------------------------------------------------
  // "YYYY-MM-DD"

  predicate InFormatRange(d: Date) {
    ValidDate(d) && 0 <= d.year <= 9999
  }

  /** `format("YYYY-MM-DD")` of a date whose year has at most four digits. */
  function FormatDate(d: Date): (s: string)
    requires InFormatRange(d)
    ensures |s| == 10 && s[4] == '-' && s[7] == '-'
  {
    Pad4(d.year) + "-" + Pad2(d.month) + "-" + Pad2(d.day)
  }

  /** Reads a "YYYY-MM-DD" string back into a valid date. */
  function ParseDate(s: string): Option<Date> {
    if |s| == 10 && s[4] == '-' && s[7] == '-'
       && AllDigits(s[..4]) && AllDigits(s[5..7]) && AllDigits(s[8..])
    then
      var d := Date(DigitsValue(s[..4]), DigitsValue(s[5..7]), DigitsValue(s[8..]));
      if ValidDate(d) then Some(d) else None
    else None
  }

  /** The date format is read back exactly, so it is injective: two dates print alike only if equal. */
  lemma ParseFormatDate(d: Date)
    requires InFormatRange(d)
    ensures ParseDate(FormatDate(d)) == Some(d)
  {
    var s := FormatDate(d);
    assert s[..4] == Pad4(d.year);
    assert s[5..7] == Pad2(d.month);
    assert s[8..] == Pad2(d.day);
  }

  lemma FormatDateInjective(d: Date, e: Date)
    requires InFormatRange(d) && InFormatRange(e)
    ensures FormatDate(d) == FormatDate(e) <==> d == e
  {
    if FormatDate(d) == FormatDate(e) {
      ParseFormatDate(d);
      ParseFormatDate(e);
    }
  }

  // ---------------------------------------------------------------------------
  // Clock times

  /** A time of day as the time pickers hold it. */
  datatype Clock = Clock(hour: int, minute: int)

  predicate ValidClock(c: Clock) {
    0 <= c.hour < 24 && 0 <= c.minute < 60
  }

  /** Minutes after midnight. */
  function MinuteOfDay(c: Clock): int {
    c.hour * 60 + c.minute
  }

  /** `format("HH:mm")` */
  function FormatClock(c: Clock): (s: string)
    requires ValidClock(c)
    ensures |s| == 5 && s[2] == ':'
  {
    Pad2(c.hour) + ":" + Pad2(c.minute)
  }

  /** Length of the leading run of ASCII digits of `s`, at most `max`. */
  function DigitRun(s: string, max: nat): (n: nat)
    ensures n <= max && n <= |s|
    ensures AllDigits(s[..n])
    ensures n < max && n < |s| ==> !IsAsciiDigit(s[n])
  {
    if max == 0 || s == [] || !IsAsciiDigit(s[0]) then 0
    else
      var n := 1 + DigitRun(s[1..], max - 1);
      assert s[..n] == [s[0]] + s[1..][..n - 1];
      n
  }

  /** Drops the characters that may separate a date from its time (`[Tt\s]*`). */
  function SkipTimeSeparators(s: string): (r: string)
    ensures |r| <= |s| && r == s[|s| - |r|..]
    ensures r == [] || !(r[0] == 'T' || r[0] == 't' || IsJsWhitespace(r[0]))
  {
    if s != [] && (s[0] == 'T' || s[0] == 't' || IsJsWhitespace(s[0])) then SkipTimeSeparators(s[1..]) else s
  }

  /** Drops one leading character if it is one of `cs`. */
  function DropOne(s: string, cs: set<char>): (r: string)
    ensures r == s || (s != [] && s[0] in cs && r == s[1..])
  {
    if s != [] && s[0] in cs then s[1..] else s
  }

  /** A numeric field read from the front of a string, and what follows it. */
  datatype Field = Field(value: nat, rest: string)

  /** Reads up to `max` leading digits (none reads as 0). */
  function ReadDigits(s: string, max: nat): (f: Field)
    ensures |f.rest| <= |s|
  {
    var n := DigitRun(s, max);
    Field(DigitsValue(s[..n]), s[n..])
  }

  /** `(\d+)?$` whose value keeps only the first three digits, as the millisecond group does. */
  function ReadFraction(s: string): Option<nat> {
    var n := DigitRun(s, |s|);
    if n == |s| then
      var k := if n <= 3 then n else 3;
      assert s[..k] == s[..n][..k];
      Some(DigitsValue(s[..k]))
    else None
  }

  /** Milliseconds after midnight that dayjs assigns to `"2025-01-01 " + t`, following the time
      part of its parse pattern `[Tt\s]*(\d{1,2})?:?(\d{1,2})?:?(\d{1,2})?[.:]?(\d+)?$`, each
      group read greedily; None when the pattern does not match. An absent group reads as 0.
      Out-of-range fields roll over as the Date constructor does, so the value is linear in
      the fields. */
  function ParseClock(t: string): (ms: Option<int>)
    ensures ms.Some? ==> ms.value >= 0
  {
    var hh := ReadDigits(SkipTimeSeparators(t), 2);
    var mm := ReadDigits(DropOne(hh.rest, {':'}), 2);
    var ss := ReadDigits(DropOne(mm.rest, {':'}), 2);
    match ReadFraction(DropOne(ss.rest, {'.', ':'}))
    case None => None
    case Some(frac) => Some(Millis(hh.value, mm.value, ss.value, frac))
  }

  /** Milliseconds after midnight of an hour, minute, second and millisecond. */
  function Millis(h: int, m: int, s: int, ms: int): int {
    ((h * 60 + m) * 60 + s) * 1000 + ms
  }

  /** A time the pickers format as "HH:mm" is read back as that many minutes after midnight. */
  lemma ParseFormatClock(c: Clock)
    requires ValidClock(c)
    ensures ParseClock(FormatClock(c)) == Some(MinuteOfDay(c) * 60000)
  {
    var t, q := FormatClock(c), Pad2(c.minute);
    assert t == Pad2(c.hour) + (":" + q);
    NoSeparatorBeforeDigit(t);
    var hh := ReadDigits(SkipTimeSeparators(t), 2);
    ReadTwoDigits(c.hour, ":" + q);
    assert hh == Field(c.hour, ":" + q);
    var mm := ReadDigits(DropOne(hh.rest, {':'}), 2);
    assert DropOne(":" + q, {':'}) == q + [];
    ReadTwoDigits(c.minute, []);
    assert mm == Field(c.minute, []);
    var ss := ReadDigits(DropOne(mm.rest, {':'}), 2);
    EmptyTail();
    assert ss == Field(0, []);
    assert ReadFraction(DropOne(ss.rest, {'.', ':'})) == Some(0);
    assert ParseClock(t) == Some(Millis(c.hour, c.minute, 0, 0));
    MillisOfClock(c);
  }

  /** A whole minute of the day is 60000 milliseconds. */
  lemma MillisOfClock(c: Clock)
    ensures Millis(c.hour, c.minute, 0, 0) == MinuteOfDay(c) * 60000
  {
  }

  /** Nothing is skipped in front of a leading digit. */
  lemma NoSeparatorBeforeDigit(t: string)
    requires t != [] && IsAsciiDigit(t[0])
    ensures SkipTimeSeparators(t) == t
  {
  }

  /** Nothing left over reads as an absent field and an absent fraction. */
  lemma EmptyTail()
    ensures ReadDigits(DropOne([], {':'}), 2) == Field(0, [])
    ensures ReadFraction(DropOne([], {'.', ':'})) == Some(0)
  {
    assert DigitRun([], 2) == 0 && DigitRun([], 0) == 0;
  }

  /** Two padded digits at the front of a string read as their number. */
  lemma ReadTwoDigits(n: int, rest: string)
    requires 0 <= n < 100
    ensures ReadDigits(Pad2(n) + rest, 2) == Field(n, rest)
  {
    var s := Pad2(n) + rest;
    assert IsAsciiDigit(s[0]) && IsAsciiDigit(s[1]);
    assert s[1..][0] == s[1];
    assert DigitRun(s[1..], 1) == 1;
    assert DigitRun(s, 2) == 2;
    assert s[..2] == Pad2(n) && s[2..] == rest;
  }
}
