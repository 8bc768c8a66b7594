/** The monthly attendance page (src/pages/MyAttPage.js): one row per day of the chosen
    month, filtered by status, with the total hours and the number of vacation days, and the
    local vacation requests that can be added from a row and cancelled again. */
module MyAttPage {
  import opened JsText
  import opened Calendar
  import opened LocalStore
  import opened AttendanceUtils
  import VacationDialog

  // ---------------------------------------------------------------------------
  // The status filter

  /** The filter menu: "all", "posted", "machine", "site", "weekend", "vacation". */
  datatype FilterChoice = All | PostedFilter | MachineFilter | SiteFilter | WeekendFilter | VacationFilter

  /** `statusValueMap[filterBy]`: the status a filtered row must have. */
  function FilterValue(f: FilterChoice): (v: StatusValue)
    requires f != All
    ensures v == Text("Vacation") <==> f == VacationFilter
    ensures v == Text("Weekend") <==> f == WeekendFilter
  {
    match f
    case PostedFilter => Num(1)
    case MachineFilter => Num(2)
    case SiteFilter => Num(3)
    case WeekendFilter => Text("Weekend")
    case VacationFilter => Text("Vacation")
  }

  /** `row.status === v`, numbers and strings never being equal. */
  function StatusIs(v: StatusValue): CalendarRow -> bool {
    (r: CalendarRow) => r.status == v
  }

  /** The rows the filter shows, in calendar order. */
  function ApplyFilter(rows: seq<CalendarRow>, f: FilterChoice): seq<CalendarRow> {
    if f == All then rows else Filter(rows, StatusIs(FilterValue(f)))
  }

  /** "all" shows every row; any other choice shows exactly the rows of its status; and a
      filtered total never exceeds the month's total. */
  lemma ApplyFilterSpec(rows: seq<CalendarRow>, f: FilterChoice)
    ensures f == All ==> ApplyFilter(rows, f) == rows
    ensures f != All ==> forall r :: r in ApplyFilter(rows, f) <==> r in rows && r.status == FilterValue(f)
    ensures TotalHours(ApplyFilter(rows, f)) <= TotalHours(rows)
  {
    if f != All {
      var keep := StatusIs(FilterValue(f));
      var out := Filter(rows, keep);
      forall r | r in out ensures r in rows && r.status == FilterValue(f) {
        var i :| 0 <= i < |out| && out[i] == r;
      }
      forall r | r in rows && r.status == FilterValue(f) ensures r in out {
        var i :| 0 <= i < |rows| && rows[i] == r;
      }
      TotalHoursPartition(rows, keep);
    }
  }

  /** `filteredRows.filter((row) => row.status === "Vacation").length` */
  function VacancyCount(rows: seq<CalendarRow>): nat {
    |Filter(rows, StatusIs(Text("Vacation")))|
  }

  /** The vacancy count follows the filter: every shown row counts under "vacation", none
      under the other single-status filters, and "all" counts the month's vacation days. */
  lemma VacancyCountByFilter(rows: seq<CalendarRow>, f: FilterChoice)
    ensures f == VacationFilter ==> VacancyCount(ApplyFilter(rows, f)) == |ApplyFilter(rows, f)|
    ensures f != All && f != VacationFilter ==> VacancyCount(ApplyFilter(rows, f)) == 0
    ensures f == All ==> VacancyCount(ApplyFilter(rows, f)) == VacancyCount(rows)
  {
    if f != All {
      var shown := ApplyFilter(rows, f);
      var vacation := StatusIs(Text("Vacation"));
      if f == VacationFilter {
        FilterKeepsAll(shown, vacation);
      } else {
        forall i | 0 <= i < |shown| ensures !vacation(shown[i]) {
          assert shown[i] in shown;
        }
        FilterKeepsNone(shown, vacation);
      }
    }
  }

  /** A filter that accepts every row keeps the list as it is. */
  lemma {:induction false} FilterKeepsAll(rows: seq<CalendarRow>, keep: CalendarRow -> bool)
    requires forall i :: 0 <= i < |rows| ==> keep(rows[i])
    ensures Filter(rows, keep) == rows
  {
    if rows != [] {
      var init := rows[..|rows| - 1];
      FilterKeepsAll(init, keep);
      assert rows == init + [rows[|rows| - 1]];
    }
  }

  /** A filter that rejects every row leaves nothing. */
  lemma {:induction false} FilterKeepsNone(rows: seq<CalendarRow>, keep: CalendarRow -> bool)
    requires forall i :: 0 <= i < |rows| ==> !keep(rows[i])
    ensures Filter(rows, keep) == []
  {
    if rows != [] {
      FilterKeepsNone(rows[..|rows| - 1], keep);
    }
  }

  // ---------------------------------------------------------------------------
  // The month

  /** The display rows of a month: `mapAttendanceRows(generateMonthDates(month), rows, leaves)`. */
  function MonthRows(year: int, month: int, rows: seq<ServerRow>, leaves: seq<Leave>): (out: seq<CalendarRow>)
    requires 1 <= month <= 12 && 0 <= year <= 9999
    ensures |out| == DaysInMonth(year, month)
    ensures forall i :: 0 <= i < |out| ==> ParseDate(out[i].date) == Some(Date(year, month, i + 1))
  {
    MapAttendanceRows(MonthDates(year, month), rows, leaves)
  }

  /** `selectedDate`: a month of a year, or the invalid date a partly typed month gives,
      whose `year()` and `month()` are NaN. */
  datatype SelectedMonth = MonthOf(year: int, month: int) | UnreadableMonth

  /** A month whose days can be listed and formatted. */
  predicate Listable(m: SelectedMonth) {
    m.MonthOf? ==> 1 <= m.month <= 12 && 0 <= m.year <= 9999
  }

  /** `mapAttendanceRows(generateMonthDates(selectedDate), rows, leaves)`: an unreadable month
      has NaN days, so the loop lists none and there are no rows. */
  function ShownMonthRows(m: SelectedMonth, rows: seq<ServerRow>, leaves: seq<Leave>): (out: seq<CalendarRow>)
    requires Listable(m)
    ensures m.UnreadableMonth? ==> out == []
    ensures m.MonthOf? ==> |out| == DaysInMonth(m.year, m.month)
  {
    match m
    case MonthOf(year, month) => MonthRows(year, month, rows, leaves)
    case UnreadableMonth => []
  }

  /** What the server sends for a month (`data` and `AcceptedLeave`), or a failed request. */
  datatype MonthFetch = Fetched(data: seq<ServerRow>, leaves: seq<Leave>) | FetchFailed

  /** The month request: `GET https://${saved_sett_api_url}/api/attendance` with the query
      parameters `androidId`, `month` (1-12) and `year`; None stands for NaN. */
  datatype AttendanceQuery = AttendanceQuery(url: string, androidId: Option<string>, month: Option<int>, year: Option<int>)

  /** The month request: `https://${apiUrl}/api/attendance` (a missing address prints as
      "null") with the saved mobile number as the device id; an unreadable month sends NaN
      for both numbers. */
  function MonthQuery(items: map<string, string>, m: SelectedMonth): AttendanceQuery {
    AttendanceQuery("https://" + TemplateText(Lookup(items, "saved_sett_api_url")) + "/api/attendance",
                    Lookup(items, "saved_sett_mobilenumber"),
                    if m.MonthOf? then Some(m.month) else None,
                    if m.MonthOf? then Some(m.year) else None)
  }

  const OfflineShowingSaved := "Offline mode: showing last saved data."
  const SaveRequestFailed := "Failed to save vacation request locally."

  // ---------------------------------------------------------------------------
  // Requested dates

  /** `all.map((v) => v.date)`: the clicked row of each stored request, in key order. */
  function RequestDates(es: seq<Entry<VacationRequest>>): (ds: seq<Option<string>>)
    ensures |ds| == |es|
    ensures forall i :: 0 <= i < |es| ==> ds[i] == es[i].value.date
  {
    if es == [] then [] else [es[0].value.date] + RequestDates(es[1..])
  }

  /** `prev.filter((d) => d !== date)` */
  function RemoveDate(ds: seq<Option<string>>, date: string): (r: seq<Option<string>>)
    ensures forall x :: x in r <==> x in ds && x != Some(date)
    ensures |r| <= |ds|
  {
    if ds == [] then []
    else (if ds[0] != Some(date) then [ds[0]] else []) + RemoveDate(ds[1..], date)
  }

  /** `where("date").equals(date)`: the requests made from that row; a request without a
      date is not indexed and never matches. */
  function SameDate(date: string): VacationRequest -> bool {
    (v: VacationRequest) => v.date == Some(date)
  }

  /** Deleting the requests of a date from the table and removing the date from the list
      keep the list equal to the table's dates. */
  lemma {:induction false} RequestDatesAfterDelete(es: seq<Entry<VacationRequest>>, date: string)
    ensures RequestDates(Select(es, Complement(SameDate(date)))) == RemoveDate(RequestDates(es), date)
  {
    if es != [] {
      RequestDatesAfterDelete(es[1..], date);
      assert RequestDates(es)[1..] == RequestDates(es[1..]);
      var head := if es[0].value.date != Some(date) then [es[0]] else [];
      assert Select(es, Complement(SameDate(date))) == head + Select(es[1..], Complement(SameDate(date)));
      RequestDatesAppend(head, Select(es[1..], Complement(SameDate(date))));
    }
  }

  lemma RequestDatesAppend(a: seq<Entry<VacationRequest>>, b: seq<Entry<VacationRequest>>)
    ensures RequestDates(a + b) == RequestDates(a) + RequestDates(b)
  {
    var l, r := RequestDates(a + b), RequestDates(a) + RequestDates(b);
    forall i | 0 <= i < |l| ensures l[i] == r[i] {
      if i < |a| {
        assert (a + b)[i] == a[i];
      } else {
        assert (a + b)[i] == b[i - |a|];
      }
    }
  }

  // ---------------------------------------------------------------------------
  // Row actions

  /** The action column: nothing on a weekend, "Requested" with a cancel button on a day
      already requested, an add button otherwise. */
  datatype RowAction = NoAction | CancelRequestAction | AddVacationAction

  function RowActionOf(row: CalendarRow, requestedDates: seq<Option<string>>): (action: RowAction)
    ensures action == NoAction <==> row.status == Text("Weekend")
    ensures action == CancelRequestAction <==> row.status != Text("Weekend") && Some(row.date) in requestedDates
  {
    if row.status == Text("Weekend") then NoAction
    else if Some(row.date) in requestedDates then CancelRequestAction
    else AddVacationAction
  }

  /** After cancelling a day, its row offers "add" again; other days keep their action. */
  lemma CancelledRowOffersAdd(row: CalendarRow, ds: seq<Option<string>>, date: string)
    requires row.status != Text("Weekend")
    ensures row.date == date ==> RowActionOf(row, RemoveDate(ds, date)) == AddVacationAction
    ensures row.date != date ==> RowActionOf(row, RemoveDate(ds, date)) == RowActionOf(row, ds)
  {
  }

  // ---------------------------------------------------------------------------
  // The page

  class Page {
    var rows: seq<ServerRow>
    var acceptedLeave: seq<Leave>
    var filteredRows: seq<CalendarRow>
    var totalHours: real
    var loading: bool
    var error: string
    var selected: SelectedMonth
    var filterBy: FilterChoice
    var requestedDates: seq<Option<string>>
    var openDialog: bool
    var vacationDate: Option<string>
    var timeFrom: Clock
    var timeTo: Clock
    var remark: string
    const storage: Storage
    const myattendance: Table<ServerRow>
    const acceptedLeaveTable: Table<Leave>
    const vacationRequests: Table<VacationRequest>
    const dialog: VacationDialog.Dialog

    /** The chosen month can be listed and the month caches are well formed. */
    ghost predicate Valid()
      reads this, myattendance, acceptedLeaveTable
    {
      Listable(selected)
      && myattendance.Valid() && acceptedLeaveTable.Valid()
    }

    /** The shown rows and the total follow the month, the cached rows and the filter. */
    ghost predicate Consistent()
      reads this
    {
      Listable(selected)
      && filteredRows == ApplyFilter(ShownMonthRows(selected, rows, acceptedLeave), filterBy)
      && totalHours == TotalHours(filteredRows)
    }

    /** The requested dates are the dates of the stored vacation requests. */
    ghost predicate RequestedDatesAgree()
      reads this, vacationRequests
    {
      requestedDates == RequestDates(vacationRequests.entries)
    }

    /** What the month request leaves behind: a fetched month is shown and, when the
        transaction succeeds, replaces both caches; a failed request shows the warning and
        leaves the caches alone, and then shows the cached rows when reading them back
        succeeds (`readOk`) or keeps the rows already shown when a read rejects. */
    twostate predicate FetchApplied(fetch: MonthFetch, storeOk: bool, readOk: bool)
      reads this, myattendance, acceptedLeaveTable
    {
      match fetch
      case Fetched(data, leaves) =>
        && rows == data && acceptedLeave == leaves && error == old(error)
        && (storeOk ==> myattendance.Values() == data && acceptedLeaveTable.Values() == leaves)
        && (!storeOk ==> myattendance.entries == old(myattendance.entries) && acceptedLeaveTable.entries == old(acceptedLeaveTable.entries))
      case FetchFailed =>
        && (readOk ==> rows == old(myattendance.Values()) && acceptedLeave == old(acceptedLeaveTable.Values()))
        && (!readOk ==> rows == old(rows) && acceptedLeave == old(acceptedLeave))
        && error == OfflineShowingSaved
        && myattendance.entries == old(myattendance.entries) && acceptedLeaveTable.entries == old(acceptedLeaveTable.entries)
    }

    /** The page as first rendered: the first of today's month, all statuses, loading. */
    constructor(storage: Storage, myattendance: Table<ServerRow>, acceptedLeaveTable: Table<Leave>,
                vacationRequests: Table<VacationRequest>, dialog: VacationDialog.Dialog, today: Date)
      requires InFormatRange(today)
      requires myattendance.Valid() && acceptedLeaveTable.Valid()
      ensures Valid()
      ensures this.storage == storage && this.myattendance == myattendance && this.acceptedLeaveTable == acceptedLeaveTable
      ensures this.vacationRequests == vacationRequests && this.dialog == dialog
      ensures selected == MonthOf(today.year, today.month) && filterBy == All
      ensures rows == [] && acceptedLeave == [] && filteredRows == [] && totalHours == 0.0
      ensures loading && error == "" && requestedDates == []
      ensures !openDialog && vacationDate.None? && timeFrom == VacationDialog.EightAm && timeTo == VacationDialog.FourPm && remark == ""
    {
      this.storage := storage;
      this.myattendance := myattendance;
      this.acceptedLeaveTable := acceptedLeaveTable;
      this.vacationRequests := vacationRequests;
      this.dialog := dialog;
      selected, filterBy := MonthOf(today.year, today.month), All;
      rows, acceptedLeave, filteredRows, totalHours := [], [], [], 0.0;
      loading, error, requestedDates := true, "", [];
      openDialog, vacationDate := false, None;
      timeFrom, timeTo, remark := VacationDialog.EightAm, VacationDialog.FourPm, "";
    }

    /** The effect on `[rows, acceptedLeave, selectedDate, filterBy]`. */
    method Recompute()
      requires Listable(selected)
      modifies this`filteredRows, this`totalHours
      ensures Consistent()
    {
      var mappedRows := ShownMonthRows(selected, rows, acceptedLeave);
      filteredRows := ApplyFilter(mappedRows, filterBy);
      totalHours := TotalHours(filteredRows);
    }

    /** The effect on `[rows]`: the requested dates are read back from the table; when that
        read rejects (`readOk` false) they stay as they were. */
    method LoadRequestedVacancies(readOk: bool)
      modifies this`requestedDates
      ensures readOk ==> RequestedDatesAgree()
      ensures !readOk ==> requestedDates == old(requestedDates)
    {
      if readOk {
        var all := vacationRequests.entries;
        requestedDates := RequestDates(all);
      }
    }

    /** The effect on `[selectedDate]`: the month is fetched; on success the two caches are
        replaced in one transaction (`storeOk` false when that transaction fails and is rolled
        back) and the server's lists are shown; on failure the warning is set and the cached
        lists are read back and shown (`readOk` false when either read rejects, which ends
        the handler with the old rows and the page still loading). An earlier warning is
        not cleared. */
    method LoadMonth(fetch: MonthFetch, storeOk: bool, readOk: bool) returns (query: AttendanceQuery)
      requires Valid()
      modifies this`rows, this`acceptedLeave, this`error, this`loading, myattendance, acceptedLeaveTable
      ensures Valid()
      ensures loading <==> fetch.FetchFailed? && !readOk
      ensures query == MonthQuery(storage.items, selected)
      ensures FetchApplied(fetch, storeOk, readOk)
    {
      query := MonthQuery(storage.items, selected);
      loading := true;
      match fetch {
      case Fetched(data, leaves) =>
        if storeOk {
          StoreMonth(data, leaves);
        }
        rows := data;
        acceptedLeave := leaves;
      case FetchFailed =>
        error := OfflineShowingSaved;
        if !readOk {
          return;
        }
        rows := myattendance.Values();
        acceptedLeave := acceptedLeaveTable.Values();
      }
      loading := false;
    }

    /** The transaction that replaces both caches with the month just fetched. */
    method StoreMonth(data: seq<ServerRow>, leaves: seq<Leave>)
      requires myattendance.Valid() && acceptedLeaveTable.Valid()
      modifies myattendance, acceptedLeaveTable
      ensures myattendance.Valid() && acceptedLeaveTable.Valid()
      ensures myattendance.Values() == data && acceptedLeaveTable.Values() == leaves
    {
      myattendance.Clear();
      acceptedLeaveTable.Clear();
      myattendance.BulkAdd(data);
      acceptedLeaveTable.BulkAdd(leaves);
      assert myattendance.Values() == data;
      assert acceptedLeaveTable.Values() == leaves;
    }

    /** Picking a month (`newValue && setSelectedDate(newValue)`): a cleared picker (null)
        changes nothing; anything else, including the invalid date of a partly typed month,
        becomes the selected month and is loaded. A readable month has a four-digit year.
        The state changes this makes set off the effect on `[rows]`
        (`LoadRequestedVacancies`) and the effect on the month, rows and filter
        (`Recompute`), which React runs after it. */
    method SelectMonth(picked: Option<SelectedMonth>, fetch: MonthFetch, storeOk: bool, readOk: bool) returns (query: Option<AttendanceQuery>)
      requires Valid()
      requires picked.Some? ==> Listable(picked.value)
      modifies this`selected, this`rows, this`acceptedLeave, this`error, this`loading
      modifies myattendance, acceptedLeaveTable
      ensures Valid()
      ensures picked.None? ==>
        && query.None? && selected == old(selected)
        && rows == old(rows) && acceptedLeave == old(acceptedLeave) && loading == old(loading)
        && myattendance.entries == old(myattendance.entries) && acceptedLeaveTable.entries == old(acceptedLeaveTable.entries)
      ensures picked.Some? ==>
        && selected == picked.value && (loading <==> fetch.FetchFailed? && !readOk)
        && query == Some(MonthQuery(storage.items, selected))
        && FetchApplied(fetch, storeOk, readOk)
    {
      query := None;
      if picked.Some? {
        selected := picked.value;
        var q := LoadMonth(fetch, storeOk, readOk);
        query := Some(q);
      }
    }

    /** Choosing a filter. */
    method SetFilter(f: FilterChoice)
      requires Listable(selected)
      modifies this`filterBy, this`filteredRows, this`totalHours
      ensures Consistent() && filterBy == f
    {
      filterBy := f;
      Recompute();
    }

    /** The cancel button of a requested row: its requests are deleted from the table and
        its date from the list. `deleteOk` false when the table rejects the delete, which
        throws before the list is updated, so nothing changes. */
    method CancelRequest(date: string, deleteOk: bool)
      requires vacationRequests.Valid() && RequestedDatesAgree()
      modifies this`requestedDates, vacationRequests
      ensures vacationRequests.Valid() && RequestedDatesAgree()
      ensures !deleteOk ==>
        vacationRequests.entries == old(vacationRequests.entries) && requestedDates == old(requestedDates)
      ensures deleteOk ==>
        && vacationRequests.entries == Select(old(vacationRequests.entries), Complement(SameDate(date)))
        && requestedDates == RemoveDate(old(requestedDates), date)
        && Some(date) !in requestedDates
    {
      if !deleteOk {
        return;
      }
      RequestDatesAfterDelete(vacationRequests.entries, date);
      vacationRequests.DeleteWhere(SameDate(date));
      requestedDates := RemoveDate(requestedDates, date);
    }

    /** The add button of a row: the clicked date is kept, the page's own time fields are
        reset and the dialog opens, which resets the dialog and loads the vacation types. */
    method OpenAddDialog(rowDate: string, today: Date, types: VacationDialog.TypesOutcome)
      requires dialog.Valid() && InFormatRange(today)
      modifies this`vacationDate, this`timeFrom, this`timeTo, this`remark, this`openDialog, this`error, dialog
      ensures dialog.Valid() && openDialog && vacationDate == Some(rowDate)
      ensures timeFrom == VacationDialog.EightAm && timeTo == VacationDialog.FourPm && remark == ""
      ensures old(openDialog) ==> unchanged(dialog) && error == old(error)
      ensures !old(openDialog) ==>
        && dialog.fromDate == VacationDialog.Picked(today) && dialog.toDate == VacationDialog.Picked(today) && dialog.remark == ""
        && dialog.timeFrom == VacationDialog.Picked(VacationDialog.EightAm) && dialog.timeTo == VacationDialog.Picked(VacationDialog.FourPm)
      ensures !old(openDialog) && !Truthy(Lookup(dialog.storage.items, "saved_sett_api_url")) ==>
        dialog.vacationTypes == old(dialog.vacationTypes) && dialog.selectedVacationCode == "" && error == old(error)
      ensures !old(openDialog) && Truthy(Lookup(dialog.storage.items, "saved_sett_api_url")) ==>
        match types
        case TypesLoaded(Some(data)) =>
          dialog.vacationTypes == data && error == old(error)
          && dialog.selectedVacationCode == (if |data| > 0 then data[0].code else "")
        case TypesLoaded(None) =>
          dialog.vacationTypes == [] && dialog.selectedVacationCode == "" && error == VacationDialog.TypesLoadFailed
        case TypesFailed(message) =>
          dialog.vacationTypes == [] && dialog.selectedVacationCode == ""
          && error == OrElse(message, VacationDialog.TypesLoadFailed)
    {
      var wasOpen := openDialog;
      vacationDate := Some(rowDate);
      timeFrom, timeTo, remark := VacationDialog.EightAm, VacationDialog.FourPm, "";
      openDialog := true;
      if !wasOpen {
        var reported := dialog.OnOpen(true, today, types);
        if reported.Some? {
          error := reported.value;
        }
      }
    }

    /** The dialog's `onSave`: the request is stored with the clicked row's date (not the
        dialog's own period start), and that date joins the list; `addOk` false when the
        table rejects the record. */
    method OnSave(payload: VacationDialog.VacationPayload, addOk: bool)
      requires vacationRequests.Valid() && RequestedDatesAgree()
      modifies this`requestedDates, this`error, vacationRequests
      ensures vacationRequests.Valid() && RequestedDatesAgree()
      ensures addOk ==>
        && vacationRequests.entries == old(vacationRequests.entries) + [Entry(old(vacationRequests.nextKey),
             VacationRequest(payload.fromDate, payload.toDate, payload.timeFrom, payload.timeTo, payload.remark, vacationDate))]
        && requestedDates == old(requestedDates) + [vacationDate]
        && error == old(error)
      ensures !addOk ==>
        && vacationRequests.entries == old(vacationRequests.entries)
        && requestedDates == old(requestedDates) && error == SaveRequestFailed
    {
      if addOk {
        var request := VacationRequest(payload.fromDate, payload.toDate, payload.timeFrom, payload.timeTo, payload.remark, vacationDate);
        RequestDatesAppend(vacationRequests.entries, [Entry(vacationRequests.nextKey, request)]);
        var _ := vacationRequests.Add(request);
        requestedDates := requestedDates + [vacationDate];
      } else {
        error := SaveRequestFailed;
      }
    }

    /** The dialog's submit button: the dialog posts or hands back its payload, a failure
        message is shown, a handed-back payload is stored, and the dialog closes. A cleared
        picker makes the dialog throw before any of this, and the dialog stays open. */
    method SubmitVacation(browserOnline: bool, postOk: bool, addOk: bool) returns (request: Option<VacationDialog.SaveVacationRequest>)
      requires dialog.Valid() && vacationRequests.Valid() && RequestedDatesAgree()
      modifies this`error, this`requestedDates, this`openDialog, vacationRequests
      ensures vacationRequests.Valid() && RequestedDatesAgree()
      ensures !dialog.Filled() ==>
        && request.None? && openDialog == old(openDialog) && error == old(error)
        && vacationRequests.entries == old(vacationRequests.entries) && requestedDates == old(requestedDates)
      ensures dialog.Filled() ==> !openDialog && (browserOnline <==> request.Some?)
      ensures dialog.Filled() && browserOnline && postOk ==>
        vacationRequests.entries == old(vacationRequests.entries) && requestedDates == old(requestedDates) && error == old(error)
      ensures dialog.Filled() && !(browserOnline && postOk) ==>
        && requestedDates == old(requestedDates) + (if addOk then [vacationDate] else [])
        && vacationRequests.entries == old(vacationRequests.entries) + (if addOk then [Entry(old(vacationRequests.nextKey),
             VacationRequest(VacationDialog.FormatPickedDate(dialog.fromDate), VacationDialog.FormatPickedDate(dialog.toDate),
                             VacationDialog.FormatPickedClock(dialog.timeFrom), VacationDialog.FormatPickedClock(dialog.timeTo),
                             dialog.remark, vacationDate))] else [])
        && error == (if !addOk then SaveRequestFailed
                     else if browserOnline then VacationDialog.SubmitFailedSavedLocally else old(error))
    {
      var outcome := dialog.HandleSubmit(browserOnline, postOk);
      if outcome.SubmitThrew? {
        return None;
      }
      assert outcome.saved.Some? ==>
        var p := outcome.saved.value;
        p.fromDate == VacationDialog.FormatPickedDate(dialog.fromDate) && p.toDate == VacationDialog.FormatPickedDate(dialog.toDate)
        && p.timeFrom == VacationDialog.FormatPickedClock(dialog.timeFrom) && p.timeTo == VacationDialog.FormatPickedClock(dialog.timeTo)
        && p.remark == dialog.remark;
      request := outcome.request;
      ApplySubmitOutcome(outcome, addOk);
    }

    /** What the page does with one completed submit: the dialog's message is shown, a
        handed-back payload is stored through `onSave`, and the dialog closes. */
    method ApplySubmitOutcome(outcome: VacationDialog.SubmitOutcome, addOk: bool)
      requires outcome.SubmitOutcome?
      requires vacationRequests.Valid() && RequestedDatesAgree()
      modifies this`error, this`requestedDates, this`openDialog, vacationRequests
      ensures vacationRequests.Valid() && RequestedDatesAgree() && !openDialog
      ensures outcome.saved.None? ==>
        vacationRequests.entries == old(vacationRequests.entries) && requestedDates == old(requestedDates)
      ensures outcome.saved.Some? && addOk ==>
        var p := outcome.saved.value;
        && vacationRequests.entries == old(vacationRequests.entries) + [Entry(old(vacationRequests.nextKey),
             VacationRequest(p.fromDate, p.toDate, p.timeFrom, p.timeTo, p.remark, vacationDate))]
        && requestedDates == old(requestedDates) + [vacationDate]
      ensures outcome.saved.Some? && !addOk ==>
        vacationRequests.entries == old(vacationRequests.entries) && requestedDates == old(requestedDates)
      ensures error == if outcome.saved.Some? && !addOk then SaveRequestFailed
                       else if outcome.reportedError.Some? then outcome.reportedError.value else old(error)
    {
      if outcome.reportedError.Some? {
        error := outcome.reportedError.value;
      }
      if outcome.saved.Some? {
        OnSave(outcome.saved.value, addOk);
      }
      openDialog := false;
    }

    /** The dialog's close: only the page's flag changes. */
    method CloseDialog()
      modifies this`openDialog
      ensures !openDialog
    {
      openDialog := false;
    }
  }
}
