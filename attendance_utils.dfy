/** The monthly attendance calendar (src/utils/attendanceUtils.js): the dates of a month,
    one display row per date with a status chosen by a fixed precedence, and the total of
    the hours worked. */
module AttendanceUtils {
  import opened JsText
  import opened Calendar

  // ---------------------------------------------------------------------------
  // Data

  /** A status as the server sends it (a number such as 1, 2, 3 or a string) or as the
      calendar assigns it ("Pending", "Weekend", "Vacation", ""). `Absent` is undefined/null. */
  datatype StatusValue = Absent | Num(n: int) | Text(s: string)

  predicate IsTruthy(v: StatusValue) {
    match v
    case Absent => false
    case Num(n) => n != 0
    case Text(s) => s != ""
  }

  /** An attendance row from the server or the `myattendance` cache. `datein` is the
      calendar date dayjs reads from it, None when it reads no valid date. */
  datatype ServerRow = ServerRow(
    datein: Option<Date>,
    timein: Option<string>,
    addressin: Option<string>,
    status: StatusValue)

  /** An accepted leave from the server or the `acceptedLeave` cache. */
  datatype Leave = Leave(
    empId: string,
    jobNo: string,
    fromDate: Date,
    toDate: Date,
    fromTime: string,
    toTime: string,
    leaveStatus: string,
    remark: string)

  /** A display row: `id` and `date` are both the "YYYY-MM-DD" string of the day. */
  datatype CalendarRow = CalendarRow(
    id: string,
    date: string,
    dayArabic: string,
    time: string,
    address: string,
    status: StatusValue)

  /** Arabic day names, indexed by weekday (0 = Sunday). */
  const ArabicDays: seq<string> :=
    ["الأحد", "الإثنين", "الثلاثاء", "الأربعاء", "الخميس", "الجمعة", "السبت"]

  // ---------------------------------------------------------------------------
  // generateMonthDates

  /** The days 1..n of the month, in order: the dates whose "YYYY-MM-DD" texts
      `generateMonthDates` returns. */
  function MonthDates(year: int, month: int): (dates: seq<Date>)
    requires 1 <= month <= 12
    ensures |dates| == DaysInMonth(year, month)
    ensures forall i :: 0 <= i < |dates| ==>
      ValidDate(dates[i]) && dates[i].year == year && dates[i].month == month && dates[i].day == i + 1
  {
    seq(DaysInMonth(year, month), i requires 0 <= i < DaysInMonth(year, month) => Date(year, month, i + 1))
  }

  /** The month's dates are exactly its valid dates, start on the first, follow one another
      day by day, and so are strictly ascending. */
  lemma MonthDatesSpec(year: int, month: int)
    requires 1 <= month <= 12
    ensures var dates := MonthDates(year, month);
      && dates[0] == Date(year, month, 1)
      && (forall d :: ValidDate(d) && d.year == year && d.month == month <==> d in dates)
      && (forall i :: 0 <= i < |dates| - 1 ==> dates[i + 1] == NextDay(dates[i]))
      && (forall i, j :: 0 <= i < j < |dates| ==> DayNumber(dates[i]) < DayNumber(dates[j]))
  {
    var dates := MonthDates(year, month);
    forall d | ValidDate(d) && d.year == year && d.month == month
      ensures d in dates
    {
      assert dates[d.day - 1] == d;
    }
    forall i, j | 0 <= i < j < |dates|
      ensures DayNumber(dates[i]) < DayNumber(dates[j])
    {
      assert DayNumber(dates[j]) - DayNumber(dates[i]) == j - i;
    }
  }

  /** `generateMonthDates`: the loop that pushes the "YYYY-MM-DD" text of each day of the
      month, from the first to the last. Each text reads back as its day, so the texts are
      pairwise distinct (`Calendar.FormatDateInjective`). */
  method GenerateMonthDates(year: int, month: int) returns (texts: seq<string>)
    requires 1 <= month <= 12 && 0 <= year <= 9999
    ensures |texts| == DaysInMonth(year, month)
    ensures forall i :: 0 <= i < |texts| ==> ParseDate(texts[i]) == Some(MonthDates(year, month)[i])
  {
    texts := [];
    var day := 1;
    while day <= DaysInMonth(year, month)
      invariant 1 <= day <= DaysInMonth(year, month) + 1
      invariant |texts| == day - 1
      invariant forall i :: 0 <= i < |texts| ==> ParseDate(texts[i]) == Some(Date(year, month, i + 1))
    {
      var d := Date(year, month, day);
      ParseFormatDate(d);
      texts := texts + [FormatDate(d)];
      day := day + 1;
    }
  }

  // ---------------------------------------------------------------------------
  // mapAttendanceRows

  /** `clean`: falsy values and "N/A" become "", anything else is kept. */
  function Clean(v: Option<string>): (r: string)
    ensures r == "" <==> !Truthy(v) || v == Some("N/A")
    ensures r != "" ==> v == Some(r)
  {
    if Truthy(v) && v.value != "N/A" then v.value else ""
  }

  /** Position of the first row whose date reads as `d`, or |rows| when there is none. */
  function FirstMatch(rows: seq<ServerRow>, d: Date): (k: nat)
    ensures k <= |rows|
    ensures k < |rows| ==> rows[k].datein == Some(d)
    ensures forall i :: 0 <= i < k ==> rows[i].datein != Some(d)
  {
    if rows == [] then 0
    else if rows[0].datein == Some(d) then 0
    else 1 + FirstMatch(rows[1..], d)
  }

  /** `rows.find(...)` for the day `d`. */
  function FindMatch(rows: seq<ServerRow>, d: Date): Option<ServerRow> {
    var k := FirstMatch(rows, d);
    if k < |rows| then Some(rows[k]) else None
  }

  /** `dayjs(d).isBetween(from, to, "day", "[]")`: inclusive at day granularity, and, as the
      plugin tests both orders, a leave whose bounds are swapped covers the same days. */
  predicate LeaveCovers(l: Leave, d: Date) {
    var n, a, b := DayNumber(d), DayNumber(l.fromDate), DayNumber(l.toDate);
    (a <= n && n <= b) || (b <= n && n <= a)
  }

  predicate OnLeave(d: Date, leaves: seq<Leave>) {
    exists i | 0 <= i < |leaves| :: LeaveCovers(leaves[i], d)
  }

  /** The status a matched row would give: its own if truthy, else "Pending". */
  function MatchStatus(m: Option<ServerRow>): StatusValue {
    if m.Some? && IsTruthy(m.value.status) then m.value.status else Text("Pending")
  }

  /** The row of one day. */
  function MapRow(d: Date, rows: seq<ServerRow>, leaves: seq<Leave>): CalendarRow
    requires InFormatRange(d)
  {
    var m := FindMatch(rows, d);
    var time := Clean(if m.Some? then m.value.timein else None);
    var address := Clean(if m.Some? then m.value.addressin else None);
    var status :=
      if OnLeave(d, leaves) then Text("Vacation")
      else if IsWeekend(d) then Text("Weekend")
      else if time == "" then Text("")
      else MatchStatus(m);
    CalendarRow(FormatDate(d), FormatDate(d), ArabicDays[Weekday(d)], time, address, status)
  }

  /** `mapAttendanceRows`: one row per date, in the order of the dates, identified by the date. */
  function MapAttendanceRows(dates: seq<Date>, rows: seq<ServerRow>, leaves: seq<Leave>): (out: seq<CalendarRow>)
    requires forall i :: 0 <= i < |dates| ==> InFormatRange(dates[i])
    ensures |out| == |dates|
    ensures forall i :: 0 <= i < |dates| ==>
      out[i].id == out[i].date && ParseDate(out[i].date) == Some(dates[i])
  {
    forall i | 0 <= i < |dates| ensures ParseDate(FormatDate(dates[i])) == Some(dates[i]) {
      ParseFormatDate(dates[i]);
    }
    seq(|dates|, i requires 0 <= i < |dates| => MapRow(dates[i], rows, leaves))
  }

  /** The status precedence of a day: Vacation, then Weekend, then "" for a day without a
      (clean) time, then the first matching row's status, or "Pending" when that is falsy. */
  lemma StatusPrecedence(dates: seq<Date>, rows: seq<ServerRow>, leaves: seq<Leave>, i: int)
    requires forall j :: 0 <= j < |dates| ==> InFormatRange(dates[j])
    requires 0 <= i < |dates|
    ensures var r, d := MapAttendanceRows(dates, rows, leaves)[i], dates[i];
      && (OnLeave(d, leaves) ==> r.status == Text("Vacation"))
      && (!OnLeave(d, leaves) && IsWeekend(d) ==> r.status == Text("Weekend"))
      && (!OnLeave(d, leaves) && !IsWeekend(d) && r.time == "" ==> r.status == Text(""))
      && (!OnLeave(d, leaves) && !IsWeekend(d) && r.time != "" ==>
            exists k | 0 <= k < |rows| :: FirstMatchAt(rows, d, k) && r.status == StatusOrPending(rows[k].status))
  {
    var d := dates[i];
    var k := FirstMatch(rows, d);
    if k < |rows| {
      assert FirstMatchAt(rows, d, k);
    }
  }

  /** `rows[k]` is the first row whose date reads as `d`. */
  predicate FirstMatchAt(rows: seq<ServerRow>, d: Date, k: int) {
    0 <= k < |rows| && rows[k].datein == Some(d)
    && forall j :: 0 <= j < k ==> rows[j].datein != Some(d)
  }

  /** `status || "Pending"` */
  function StatusOrPending(s: StatusValue): StatusValue {
    if IsTruthy(s) then s else Text("Pending")
  }

  /** A day's time and address come from the first matching row, cleaned; a day no row
      matches has neither. */
  lemma RowFieldsFromFirstMatch(dates: seq<Date>, rows: seq<ServerRow>, leaves: seq<Leave>, i: int)
    requires forall j :: 0 <= j < |dates| ==> InFormatRange(dates[j])
    requires 0 <= i < |dates|
    ensures var r, d := MapAttendanceRows(dates, rows, leaves)[i], dates[i];
      && ((forall k :: 0 <= k < |rows| ==> rows[k].datein != Some(d)) ==> r.time == "" && r.address == "")
      && (forall k :: FirstMatchAt(rows, d, k) ==> r.time == Clean(rows[k].timein) && r.address == Clean(rows[k].addressin))
      && r.dayArabic == ArabicDays[Weekday(d)]
  {
    var d := dates[i];
    forall k | FirstMatchAt(rows, d, k)
      ensures FirstMatch(rows, d) == k
    {
      FirstMatchUnique(rows, d, k);
    }
  }

  lemma FirstMatchUnique(rows: seq<ServerRow>, d: Date, k: int)
    requires FirstMatchAt(rows, d, k)
    ensures FirstMatch(rows, d) == k
  {
  }

  // ---------------------------------------------------------------------------
  // calculateTotalHours

  /** `end.diff(start, "minute")` for instants in milliseconds: truncated toward zero. */
  function MinutesBetween(start: int, end: int): (m: int)
    ensures m > 0 <==> end - start >= 60000
    ensures m * 60000 <= end - start < (m + 1) * 60000 || (end < start && (m - 1) * 60000 < end - start <= m * 60000)
  {
    if end >= start then (end - start) / 60000 else -((start - end) / 60000)
  }

  /** What one row adds to the total: 0 unless its time splits on "~" into exactly two
      parts; 8 for "00:00 ~ 00:00"; otherwise the positive whole minutes between the two
      times, in hours. A time dayjs cannot read contributes 0. */
  function RowHours(time: string): (h: real)
    ensures h >= 0.0
    ensures CountChar(time, '~') != 1 ==> h == 0.0
  {
    var parts := SplitOn(time, '~');
    if |parts| != 2 then 0.0 else RangeHours(Trim(parts[0]), Trim(parts[1]))
  }

  /** The contribution of a range whose two trimmed ends are `a` and `b`. */
  function RangeHours(a: string, b: string): (h: real)
    ensures h >= 0.0
  {
    if a == "00:00" && b == "00:00" then 8.0 else ParsedRangeHours(ParseClock(a), ParseClock(b))
  }

  /** The contribution of two parsed ends: 0 unless both ends parse. */
  function ParsedRangeHours(start: Option<int>, end: Option<int>): (h: real)
    ensures h >= 0.0
  {
    match (start, end)
    case (Some(s), Some(e)) => HoursBetween(s, e)
    case _ => 0.0
  }

  /** The positive whole minutes from `s` to `e`, in hours. */
  function HoursBetween(s: int, e: int): (h: real)
    ensures h >= 0.0
  {
    var m := MinutesBetween(s, e);
    if m > 0 then m as real / 60.0 else 0.0
  }

  /** `calculateTotalHours`: the left-to-right sum of the rows' contributions. */
  function TotalHours(rows: seq<CalendarRow>): (total: real)
    ensures total >= 0.0
  {
    if rows == [] then 0.0 else TotalHours(rows[..|rows| - 1]) + RowHours(rows[|rows| - 1].time)
  }

  /** The total over a concatenation is the sum of the totals. */
  lemma {:induction false} TotalHoursAppend(a: seq<CalendarRow>, b: seq<CalendarRow>)
    ensures TotalHours(a + b) == TotalHours(a) + TotalHours(b)
  {
    if b == [] {
      assert a + b == a;
    } else {
      var b' := b[..|b| - 1];
      assert (a + b)[..|a + b| - 1] == a + b';
      TotalHoursAppend(a, b');
    }
  }

  /** Splitting the rows into those a filter keeps and those it drops splits the total. */
  lemma {:induction false} TotalHoursPartition(rows: seq<CalendarRow>, keep: CalendarRow -> bool)
    ensures TotalHours(rows) == TotalHours(Filter(rows, keep)) + TotalHours(Filter(rows, Not(keep)))
  {
    if rows != [] {
      var init, last := rows[..|rows| - 1], rows[|rows| - 1];
      var a, b := Filter(init, keep), Filter(init, Not(keep));
      TotalHoursPartition(init, keep);
      assert TotalHours(rows) == TotalHours(init) + RowHours(last.time);
      if keep(last) {
        assert Filter(rows, keep) == a + [last];
        assert Filter(rows, Not(keep)) == b;
        TotalHoursSnoc(a, last);
      } else {
        assert Filter(rows, keep) == a;
        assert Filter(rows, Not(keep)) == b + [last];
        TotalHoursSnoc(b, last);
      }
    }
  }

  /** The complement of a row filter. */
  function Not(keep: CalendarRow -> bool): CalendarRow -> bool {
    r => !keep(r)
  }

  lemma TotalHoursSnoc(rows: seq<CalendarRow>, last: CalendarRow)
    ensures TotalHours(rows + [last]) == TotalHours(rows) + RowHours(last.time)
  {
    assert (rows + [last])[..|rows|] == rows;
  }

  /** The rows `keep` accepts, in order (`Array.prototype.filter`). */
  function Filter(rows: seq<CalendarRow>, keep: CalendarRow -> bool): (r: seq<CalendarRow>)
    ensures |r| <= |rows|
    ensures forall i :: 0 <= i < |r| ==> keep(r[i]) && r[i] in rows
    ensures forall i :: 0 <= i < |rows| && keep(rows[i]) ==> rows[i] in r
  {
    if rows == [] then []
    else Filter(rows[..|rows| - 1], keep) + (if keep(rows[|rows| - 1]) then [rows[|rows| - 1]] else [])
  }

  lemma FilterAppendLast(init: seq<CalendarRow>, last: CalendarRow, keep: CalendarRow -> bool)
    ensures Filter(init + [last], keep) == Filter(init, keep) + (if keep(last) then [last] else [])
  {
    assert (init + [last])[..|init + [last]| - 1] == init;
  }

  /** A string whose first and last characters are not whitespace trims to itself, also
      with a space added on either side. */
  lemma TrimPadded(x: string)
    requires x != [] && !IsJsWhitespace(x[0]) && !IsJsWhitespace(x[|x| - 1])
    ensures Trim(x) == x && Trim(" " + x) == x && Trim(x + " ") == x
  {
    TrimOfTrimmed(x);
    var l, r := " " + x, x + " ";
    assert l[1] == x[0] && l[|l| - 1] == x[|x| - 1];
    assert TrimFrom(l) == 1 && SkipWhitespaceBack(l, 1, |l|) == |l|;
    assert l[1..|l|] == x;
    assert r[0] == x[0] && r[|x| - 1] == x[|x| - 1] && IsJsWhitespace(r[|x|]);
    assert TrimFrom(r) == 0 && SkipWhitespaceBack(r, 0, |r|) == |x|;
    assert r[0..|x|] == x;
  }

  /** Hours of a range the time pickers write as "HH:mm ~ HH:mm": 8 for a pair of midnights,
      the whole minutes from start to end when the end is later, and 0 otherwise. */
  lemma RowHoursOfClocks(start: Clock, end: Clock)
    requires ValidClock(start) && ValidClock(end)
    ensures var m1, m2 := MinuteOfDay(start), MinuteOfDay(end);
      RowHours(FormatClock(start) + " ~ " + FormatClock(end)) ==
        if m1 == 0 && m2 == 0 then 8.0
        else if m2 > m1 then (m2 - m1) as real / 60.0
        else 0.0
  {
    ClockRangeHours(start, end);
    ClockRangeValue(start, end);
  }

  /** The contribution of the two formatted ends of a range. */
  lemma ClockRangeValue(start: Clock, end: Clock)
    requires ValidClock(start) && ValidClock(end)
    ensures var m1, m2 := MinuteOfDay(start), MinuteOfDay(end);
      RangeHours(FormatClock(start), FormatClock(end)) ==
        if m1 == 0 && m2 == 0 then 8.0
        else if m2 > m1 then (m2 - m1) as real / 60.0
        else 0.0
  {
    if MinuteOfDay(start) == 0 && MinuteOfDay(end) == 0 {
      MidnightRangeValue(start, end);
    } else {
      DaytimeRangeValue(start, end);
    }
  }

  /** Two midnights format as "00:00" and count 8 hours. */
  lemma MidnightRangeValue(start: Clock, end: Clock)
    requires ValidClock(start) && ValidClock(end)
    requires MinuteOfDay(start) == 0 && MinuteOfDay(end) == 0
    ensures RangeHours(FormatClock(start), FormatClock(end)) == 8.0
  {
    MidnightText(start);
    MidnightText(end);
  }

  /** Any other pair counts the whole minutes from start to end, when the end is later. */
  lemma DaytimeRangeValue(start: Clock, end: Clock)
    requires ValidClock(start) && ValidClock(end)
    requires !(MinuteOfDay(start) == 0 && MinuteOfDay(end) == 0)
    ensures var m1, m2 := MinuteOfDay(start), MinuteOfDay(end);
      RangeHours(FormatClock(start), FormatClock(end)) == if m2 > m1 then (m2 - m1) as real / 60.0 else 0.0
  {
    var a, b := FormatClock(start), FormatClock(end);
    var m1, m2 := MinuteOfDay(start), MinuteOfDay(end);
    ParseFormatClock(start);
    ParseFormatClock(end);
    MidnightText(start);
    MidnightText(end);
    RangeHoursBetween(a, b, m1 * 60000, m2 * 60000);
    HoursBetweenWholeMinutes(m1, m2);
  }

  lemma ClockRangeHours(start: Clock, end: Clock)
    requires ValidClock(start) && ValidClock(end)
    ensures RowHours(FormatClock(start) + " ~ " + FormatClock(end)) == RangeHours(FormatClock(start), FormatClock(end))
  {
    ClockRangeParts(start, end);
  }

  /** The contribution of two ends that read as whole minutes of the day. */
  lemma RangeHoursOfMinutes(a: string, b: string, m1: int, m2: int)
    requires ParseClock(a) == Some(m1 * 60000) && ParseClock(b) == Some(m2 * 60000)
    requires a == "00:00" && b == "00:00" <==> m1 == 0 && m2 == 0
    ensures RangeHours(a, b) ==
      if m1 == 0 && m2 == 0 then 8.0
      else if m2 > m1 then (m2 - m1) as real / 60.0
      else 0.0
  {
    if !(a == "00:00" && b == "00:00") {
      RangeHoursBetween(a, b, m1 * 60000, m2 * 60000);
      HoursBetweenWholeMinutes(m1, m2);
    }
  }

  lemma RangeHoursBetween(a: string, b: string, s: int, e: int)
    requires ParseClock(a) == Some(s) && ParseClock(b) == Some(e)
    requires !(a == "00:00" && b == "00:00")
    ensures RangeHours(a, b) == HoursBetween(s, e)
  {
    RangeHoursParsed(a, b);
  }

  lemma RangeHoursParsed(a: string, b: string)
    ensures !(a == "00:00" && b == "00:00") ==> RangeHours(a, b) == ParsedRangeHours(ParseClock(a), ParseClock(b))
  {
  }

  lemma HoursBetweenWholeMinutes(m1: int, m2: int)
    ensures HoursBetween(m1 * 60000, m2 * 60000) == if m2 > m1 then (m2 - m1) as real / 60.0 else 0.0
  {
    WholeMinutes(m1, m2);
  }

  /** Between two whole minutes of the day lie exactly their difference in minutes. */
  lemma WholeMinutes(m1: int, m2: int)
    ensures MinutesBetween(m1 * 60000, m2 * 60000) == m2 - m1
  {
    if m2 >= m1 {
      assert m2 * 60000 - m1 * 60000 == (m2 - m1) * 60000;
    } else {
      assert m1 * 60000 - m2 * 60000 == (m1 - m2) * 60000;
    }
  }

  /** "HH:mm ~ HH:mm" splits into the two times, each with one space, which trim away. */
  lemma ClockRangeParts(start: Clock, end: Clock)
    requires ValidClock(start) && ValidClock(end)
    ensures var p, q := FormatClock(start), FormatClock(end);
      && SplitOn(p + " ~ " + q, '~') == [p + " ", " " + q]
      && Trim(p + " ") == p && Trim(" " + q) == q
  {
    var p, q := FormatClock(start), FormatClock(end);
    ClockTextShape(start);
    ClockTextShape(end);
    TrimPadded(p);
    TrimPadded(q);
    assert p + " ~ " + q == (p + " ") + ['~'] + (" " + q);
    assert Join([p + " ", " " + q], '~') == (p + " ") + ['~'] + Join([" " + q], '~');
    SplitJoin([p + " ", " " + q], '~');
  }

  /** "00:00" is the text of midnight and of no other time. */
  lemma MidnightText(c: Clock)
    requires ValidClock(c)
    ensures FormatClock(c) == "00:00" <==> MinuteOfDay(c) == 0
  {
    var s := FormatClock(c);
    assert s[..2] == Pad2(c.hour) && s[3..] == Pad2(c.minute);
    var zero := "00";
    assert zero[..1] == "0" && "0"[..0] == [];
    assert DigitsValue(zero) == 0;
    if c.hour == 0 && c.minute == 0 {
      assert Pad2(0) == zero;
      assert s == zero + ":" + zero;
      assert zero + ":" + zero == "00:00";
    }
    if s == "00:00" {
      assert Pad2(c.hour) == zero && Pad2(c.minute) == zero;
    }
  }

  /** "HH:mm" holds digits and one colon: no whitespace, no "~". */
  lemma ClockTextShape(c: Clock)
    requires ValidClock(c)
    ensures var s := FormatClock(c);
      !IsJsWhitespace(s[0]) && !IsJsWhitespace(s[4]) && '~' !in s
  {
    var s := FormatClock(c);
    assert s == Pad2(c.hour) + ":" + Pad2(c.minute);
    assert s[0] == Pad2(c.hour)[0] && s[4] == Pad2(c.minute)[1];
    forall i | 0 <= i < 5 ensures s[i] != '~' {
      if i < 2 { assert s[i] == Pad2(c.hour)[i]; }
      else if i > 2 { assert s[i] == Pad2(c.minute)[i - 3]; }
    }
  }
}
