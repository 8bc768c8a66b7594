/** The attendance history view (src/components/AttendanceHistory.js): the local records
    of one status, pending or posted, newest first. */
module AttendanceHistory {
  import opened JsText
  import opened LocalStore

  /** `type === "posted" ? 3 : 1`, where `type` is the `?type=` query parameter. */
  function StatusFilter(kind: Option<string>): (status: int)
    ensures status == Posted <==> kind == Some("posted")
    ensures status == Posted || status == Pending
  {
    if kind == Some("posted") then Posted else Pending
  }

  function Title(kind: Option<string>): (title: string)
    ensures title == "Posted History" <==> StatusFilter(kind) == Posted
    ensures title == "Posted History" || title == "Pending History"
  {
    if kind == Some("posted") then "Posted History" else "Pending History"
  }

  /** `StatusChip`: "Posted" for status 3 and "Pending" for anything else, an absent status
      included. */
  function StatusChipLabel(recordstatusid: Option<int>): (chip: string)
    ensures chip == "Posted" <==> recordstatusid == Some(Posted)
    ensures chip == "Posted" || chip == "Pending"
  {
    if recordstatusid == Some(Posted) then "Posted" else "Pending"
  }

  /** `formatDateTime(dateStr, timeStr)`. `formatted` stands for the locale formatting of the
      parsed date and time (`Intl.DateTimeFormat`), None when it throws. */
  function FormatDateTime(dateStr: string, timeStr: string, formatted: Option<(string, string)>): (text: string)
    ensures dateStr == "" && timeStr == "" ==> text == ""
    ensures (dateStr != "" || timeStr != "") && formatted.None? ==> text == Trim(dateStr + " " + timeStr)
    ensures (dateStr != "" || timeStr != "") && formatted.Some? ==> text == formatted.value.0 + " • " + formatted.value.1
  {
    if dateStr == "" && timeStr == "" then ""
    else match formatted
      case Some((d, t)) => d + " • " + t
      case None => Trim(dateStr + " " + timeStr)
  }

  // ---------------------------------------------------------------------------
  // The query: filter, sortBy("confirm_date"), reverse

  /** The date order of two records. */
  predicate DateBefore(a: Entry<AttendanceRecord>, b: Entry<AttendanceRecord>) {
    StrLt(a.value.confirmDate, b.value.confirmDate)
  }

  /** `sortBy`: ascending by `confirm_date`, written as an insertion sort. The order of
      records with equal dates is not stated. */
  function SortByDate(es: seq<Entry<AttendanceRecord>>): seq<Entry<AttendanceRecord>> {
    if es == [] then [] else InsertByDate(SortByDate(es[..|es| - 1]), es[|es| - 1])
  }

  /** Places `x` after every record that is not later than it. */
  function InsertByDate(s: seq<Entry<AttendanceRecord>>, x: Entry<AttendanceRecord>): seq<Entry<AttendanceRecord>> {
    if s == [] || !DateBefore(x, s[|s| - 1]) then s + [x]
    else InsertByDate(s[..|s| - 1], x) + [s[|s| - 1]]
  }

  /** No record is earlier than one before it. */
  ghost predicate Ascending(s: seq<Entry<AttendanceRecord>>) {
    forall i, j :: 0 <= i < j < |s| ==> !DateBefore(s[j], s[i])
  }

  lemma {:induction false} InsertByDateSpec(s: seq<Entry<AttendanceRecord>>, x: Entry<AttendanceRecord>)
    requires Ascending(s)
    ensures Ascending(InsertByDate(s, x))
    ensures multiset(InsertByDate(s, x)) == multiset(s) + multiset{x}
  {
    if s == [] || !DateBefore(x, s[|s| - 1]) {
      AppendNotEarlier(s, x);
    } else {
      var last := s[|s| - 1];
      var init := s[..|s| - 1];
      assert s == init + [last];
      InsertByDateSpec(init, x);
      var t := InsertByDate(init, x);
      AppendAfterInserted(init, last, x, t);
      calc {
        multiset(t + [last]);
        multiset(t) + multiset{last};
        multiset(init) + multiset{x} + multiset{last};
        multiset(s) + multiset{x};
      }
    }
  }

  /** A record not earlier than the last one of an ascending list can go at its end. */
  lemma AppendNotEarlier(s: seq<Entry<AttendanceRecord>>, x: Entry<AttendanceRecord>)
    requires Ascending(s) && (s == [] || !DateBefore(x, s[|s| - 1]))
    ensures Ascending(s + [x])
  {
    var r := s + [x];
    forall i, j | 0 <= i < j < |r| ensures !DateBefore(r[j], r[i]) {
      if j == |s| {
        NotBeforeLast(s, x, i);
      }
    }
  }

  /** After inserting `x`, earlier than `last`, into the records before `last`, `last` can
      go back at the end. */
  lemma AppendAfterInserted(init: seq<Entry<AttendanceRecord>>, last: Entry<AttendanceRecord>,
                            x: Entry<AttendanceRecord>, t: seq<Entry<AttendanceRecord>>)
    requires Ascending(init + [last]) && DateBefore(x, last)
    requires Ascending(t) && multiset(t) == multiset(init) + multiset{x}
    ensures Ascending(t + [last])
  {
    var s := init + [last];
    var r := t + [last];
    forall i, j | 0 <= i < j < |r| ensures !DateBefore(r[j], r[i]) {
      if j == |t| {
        assert r[i] in multiset(t);
        if r[i] == x {
          StrLtAsymmetric(x.value.confirmDate, last.value.confirmDate);
        } else {
          assert r[i] in multiset(init);
          var k :| 0 <= k < |init| && init[k] == r[i];
          assert s[k] == r[i] && s[|init|] == last;
        }
      }
    }
  }

  /** When `x` is not earlier than the last record of an ascending list, it is not earlier
      than any of them. */
  lemma NotBeforeLast(s: seq<Entry<AttendanceRecord>>, x: Entry<AttendanceRecord>, i: int)
    requires Ascending(s) && 0 <= i < |s| && !DateBefore(x, s[|s| - 1])
    ensures !DateBefore(x, s[i])
  {
    var a, b, c := x.value.confirmDate, s[i].value.confirmDate, s[|s| - 1].value.confirmDate;
    if StrLt(a, b) {
      StrLtTotal(b, c);
      if StrLt(b, c) {
        StrLtTransitive(a, b, c);
      }
    }
  }

  /** `sortBy` yields the same records, ascending by date. */
  lemma {:induction false} SortByDateSpec(es: seq<Entry<AttendanceRecord>>)
    ensures Ascending(SortByDate(es))
    ensures multiset(SortByDate(es)) == multiset(es)
  {
    if es != [] {
      var init, x := es[..|es| - 1], es[|es| - 1];
      SortByDateSpec(init);
      InsertByDateSpec(SortByDate(init), x);
      assert SortByDate(es) == InsertByDate(SortByDate(init), x);
      assert es == init + [x];
      assert multiset(es) == multiset(init) + multiset{x};
    }
  }

  /** `reverse()` */
  function Reversed<T>(s: seq<T>): (r: seq<T>)
    ensures |r| == |s|
    ensures forall i :: 0 <= i < |s| ==> r[i] == s[|s| - 1 - i]
  {
    if s == [] then [] else [s[|s| - 1]] + Reversed(s[..|s| - 1])
  }

  lemma {:induction false} ReversedMultiset<T>(s: seq<T>)
    ensures multiset(Reversed(s)) == multiset(s)
  {
    if s != [] {
      ReversedMultiset(s[..|s| - 1]);
      assert s == s[..|s| - 1] + [s[|s| - 1]];
    }
  }

  /** The records of one status, newest first. */
  function NewestFirst(es: seq<Entry<AttendanceRecord>>, status: int): seq<Entry<AttendanceRecord>> {
    Reversed(SortByDate(Select(es, OfStatus(status))))
  }

  /** `where("recordstatusid").equals(status)` */
  function OfStatus(status: int): AttendanceRecord -> bool {
    (r: AttendanceRecord) => HasStatus(r, status)
  }

  /** The history lists exactly the records of the chosen status, each once, and no record
      is later than one listed before it. */
  lemma NewestFirstSpec(es: seq<Entry<AttendanceRecord>>, status: int)
    ensures var h := NewestFirst(es, status);
      && multiset(h) == multiset(Select(es, OfStatus(status)))
      && (forall i :: 0 <= i < |h| ==> HasStatus(h[i].value, status))
      && (forall i :: 0 <= i < |es| && HasStatus(es[i].value, status) ==> es[i] in h)
      && (forall i, j :: 0 <= i < j < |h| ==> !StrLt(h[i].value.confirmDate, h[j].value.confirmDate))
  {
    var sel := Select(es, OfStatus(status));
    var h := NewestFirst(es, status);
    NewestFirstContents(sel);
    NewestFirstOrder(sel);
    forall i | 0 <= i < |h| ensures HasStatus(h[i].value, status) {
      assert h[i] in sel;
      var k :| 0 <= k < |sel| && sel[k] == h[i];
      assert OfStatus(status)(sel[k].value);
    }
    forall i | 0 <= i < |es| && HasStatus(es[i].value, status) ensures es[i] in h {
      assert OfStatus(status)(es[i].value);
      assert es[i] in sel;
    }
  }

  /** Sorting and reversing keeps exactly the selected records. */
  lemma NewestFirstContents(sel: seq<Entry<AttendanceRecord>>)
    ensures multiset(Reversed(SortByDate(sel))) == multiset(sel)
    ensures forall x :: x in Reversed(SortByDate(sel)) <==> x in sel
  {
    SortByDateSpec(sel);
    ReversedMultiset(SortByDate(sel));
    forall x ensures x in Reversed(SortByDate(sel)) <==> x in sel {
      assert x in Reversed(SortByDate(sel)) <==> x in multiset(Reversed(SortByDate(sel)));
      assert x in sel <==> x in multiset(sel);
    }
  }

  /** Reversing the ascending sort puts no record before a later one. */
  lemma NewestFirstOrder(sel: seq<Entry<AttendanceRecord>>)
    ensures var h := Reversed(SortByDate(sel));
      forall i, j :: 0 <= i < j < |h| ==> !StrLt(h[i].value.confirmDate, h[j].value.confirmDate)
  {
    SortByDateSpec(sel);
    ReversedAscending(SortByDate(sel));
  }

  lemma ReversedAscending(s: seq<Entry<AttendanceRecord>>)
    requires Ascending(s)
    ensures var h := Reversed(s);
      forall i, j :: 0 <= i < j < |h| ==> !DateBefore(h[i], h[j])
  {
    var h := Reversed(s);
    forall i, j | 0 <= i < j < |h| ensures !DateBefore(h[i], h[j]) {
      var n := |s|;
      assert h[i] == s[n - 1 - i] && h[j] == s[n - 1 - j];
      assert !DateBefore(s[n - 1 - i], s[n - 1 - j]);
    }
  }

  // ---------------------------------------------------------------------------
  // The component

  class HistoryView {
    var history: seq<Entry<AttendanceRecord>>
    var loading: bool
    const attendance: Table<AttendanceRecord>

    constructor(attendance: Table<AttendanceRecord>)
      ensures this.attendance == attendance && history == [] && loading
    {
      this.attendance := attendance;
      history := [];
      loading := true;
    }

    /** `fetchData` for the `type` query parameter; `queryOk` is false when the database
        query throws. */
    method FetchData(kind: Option<string>, queryOk: bool)
      modifies this
      ensures !loading
      ensures history == if queryOk then NewestFirst(attendance.entries, StatusFilter(kind)) else []
    {
      loading := true;
      if queryOk {
        var statusFilter := StatusFilter(kind);
        history := NewestFirst(attendance.entries, statusFilter);
      } else {
        history := [];
      }
      loading := false;
    }

    /** `clearHistory`, called by the home page after a successful sync. */
    method ClearHistory()
      modifies this
      ensures history == [] && loading == old(loading)
    {
      history := [];
    }
  }
}
