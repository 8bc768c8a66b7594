/** The vacation request dialog (src/components/VacationDialog.js): a period with times and
    a remark, posted to the server when the browser is online and handed back to the page to
    be saved locally when it is offline or the post fails. */
module VacationDialog {
  import opened JsText
  import opened Calendar
  import opened LocalStore

  /** A vacation type from the server's list; only its `Code` is used. */
  datatype VacationType = VacationType(code: string, name: string)

  /** The outcome of the vacation-type request: the response's `data` (None for null), or a
      failure with the server's `message`, if it sent one. */
  datatype TypesOutcome = TypesLoaded(data: Option<seq<VacationType>>) | TypesFailed(serverMessage: Option<string>)

  /** The request body the dialog builds: dates as "YYYY-MM-DD", times as "HH:mm", and `date`
      repeating the first day. */
  datatype VacationPayload = VacationPayload(
    androidId: Option<string>,
    vacationType: string,
    fromDate: string,
    toDate: string,
    timeFrom: string,
    timeTo: string,
    remark: string,
    date: string)

  /** `saved_sett_empid || 123`: the saved id, or the number 123. */
  datatype EmpId = SavedEmpId(id: string) | DefaultEmpId

  /** The body posted to `/api/save-vacation`: the payload plus `EmpID` and `OperCode`. */
  datatype SaveVacationRequest = SaveVacationRequest(url: string, payload: VacationPayload, empId: EmpId, operCode: string)

  /** What one submit did: the request it sent, the payload handed to `onSave`, and the
      message handed to `setError`; or `SubmitThrew` when building the payload threw, which
      happens before any of these and before `onClose`. */
  datatype SubmitOutcome =
    | SubmitOutcome(request: Option<SaveVacationRequest>, saved: Option<VacationPayload>, reportedError: Option<string>)
    | SubmitThrew

  /** A picker's value: the picked date or time, null once the field is cleared, or the
      invalid dayjs a partly typed field hands over. */
  datatype PickerValue<T> = Picked(value: T) | ClearedField | PartlyTyped

  /** dayjs's text for an invalid date. */
  const InvalidDateText := "Invalid Date"

  /** A date picker's value can be formatted: a picked date has a four-digit year. */
  predicate DateFormattable(v: PickerValue<Date>) {
    v.Picked? ==> InFormatRange(v.value)
  }

  predicate ClockFormattable(v: PickerValue<Clock>) {
    v.Picked? ==> ValidClock(v.value)
  }

  /** `v.format("YYYY-MM-DD")`; null has no `format`. */
  function FormatPickedDate(v: PickerValue<Date>): string
    requires DateFormattable(v) && !v.ClearedField?
  {
    if v.Picked? then FormatDate(v.value) else InvalidDateText
  }

  /** `v.format("HH:mm")` */
  function FormatPickedClock(v: PickerValue<Clock>): string
    requires ClockFormattable(v) && !v.ClearedField?
  {
    if v.Picked? then FormatClock(v.value) else InvalidDateText
  }

  const TypesLoadFailed := "Failed to load vacation types."
  const SubmitFailedSavedLocally := "Offline mode: Failed to submit online. Saved locally."

  /** The payload for the dialog's fields, none of which is cleared. */
  function PayloadOf(androidId: Option<string>, code: string, fromDate: PickerValue<Date>, toDate: PickerValue<Date>,
                     timeFrom: PickerValue<Clock>, timeTo: PickerValue<Clock>, remark: string): VacationPayload
    requires DateFormattable(fromDate) && DateFormattable(toDate) && ClockFormattable(timeFrom) && ClockFormattable(timeTo)
    requires !fromDate.ClearedField? && !toDate.ClearedField? && !timeFrom.ClearedField? && !timeTo.ClearedField?
  {
    VacationPayload(androidId, code, FormatPickedDate(fromDate), FormatPickedDate(toDate),
                    FormatPickedClock(timeFrom), FormatPickedClock(timeTo), remark, FormatPickedDate(fromDate))
  }

  /** The payload carries the chosen period back: its picked dates read as those dates, its
      picked times as those minutes of the day, a partly typed field as "Invalid Date", and
      `date` repeats the first day. */
  lemma PayloadOfSpec(androidId: Option<string>, code: string, fromDate: PickerValue<Date>, toDate: PickerValue<Date>,
                      timeFrom: PickerValue<Clock>, timeTo: PickerValue<Clock>, remark: string)
    requires DateFormattable(fromDate) && DateFormattable(toDate) && ClockFormattable(timeFrom) && ClockFormattable(timeTo)
    requires !fromDate.ClearedField? && !toDate.ClearedField? && !timeFrom.ClearedField? && !timeTo.ClearedField?
    ensures var p := PayloadOf(androidId, code, fromDate, toDate, timeFrom, timeTo, remark);
      && p.date == p.fromDate
      && (fromDate.Picked? ==> ParseDate(p.date) == Some(fromDate.value))
      && (toDate.Picked? ==> ParseDate(p.toDate) == Some(toDate.value))
      && (timeFrom.Picked? ==> ParseClock(p.timeFrom) == Some(MinuteOfDay(timeFrom.value) * 60000))
      && (timeTo.Picked? ==> ParseClock(p.timeTo) == Some(MinuteOfDay(timeTo.value) * 60000))
      && (fromDate.PartlyTyped? ==> p.fromDate == InvalidDateText)
      && (toDate.PartlyTyped? ==> p.toDate == InvalidDateText)
      && (timeFrom.PartlyTyped? ==> p.timeFrom == InvalidDateText)
      && (timeTo.PartlyTyped? ==> p.timeTo == InvalidDateText)
      && p.androidId == androidId && p.vacationType == code && p.remark == remark
  {
    if fromDate.Picked? { ParseFormatDate(fromDate.value); }
    if toDate.Picked? { ParseFormatDate(toDate.value); }
    if timeFrom.Picked? { ParseFormatClock(timeFrom.value); }
    if timeTo.Picked? { ParseFormatClock(timeTo.value); }
  }

  /** `https://${apiUrl}/api/save-vacation`, where a missing address prints as "null". */
  function SaveVacationUrl(apiUrl: Option<string>): string {
    "https://" + TemplateText(apiUrl) + "/api/save-vacation"
  }

  const EightAm := Clock(8, 0)
  const FourPm := Clock(16, 0)

  class Dialog {
    var fromDate: PickerValue<Date>
    var toDate: PickerValue<Date>
    var timeFrom: PickerValue<Clock>
    var timeTo: PickerValue<Clock>
    var remark: string
    var vacationTypes: seq<VacationType>
    var selectedVacationCode: string
    const storage: Storage

    /** The pickers only hold dates and times they can format. */
    ghost predicate Valid()
      reads this
    {
      DateFormattable(fromDate) && DateFormattable(toDate) && ClockFormattable(timeFrom) && ClockFormattable(timeTo)
    }

    /** No picker is cleared, so the payload can be built. */
    predicate Filled()
      reads this
    {
      !fromDate.ClearedField? && !toDate.ClearedField? && !timeFrom.ClearedField? && !timeTo.ClearedField?
    }

    constructor(storage: Storage, today: Date)
      requires InFormatRange(today)
      ensures Valid() && this.storage == storage
      ensures fromDate == Picked(today) && toDate == Picked(today) && timeFrom == Picked(EightAm) && timeTo == Picked(FourPm)
      ensures remark == "" && vacationTypes == [] && selectedVacationCode == ""
    {
      this.storage := storage;
      fromDate, toDate, timeFrom, timeTo := Picked(today), Picked(today), Picked(EightAm), Picked(FourPm);
      remark, vacationTypes, selectedVacationCode := "", [], "";
    }

    /** The open effect: the fields go back to today, 08:00-16:00, no remark and no code;
        when a server address is saved the vacation types are fetched and the first one's
        code is selected. A null `data` fails on its `length` and is handled as a failed
        request. Returns the message handed to `setError`. */
    method OnOpen(open: bool, today: Date, types: TypesOutcome) returns (reportedError: Option<string>)
      requires Valid() && InFormatRange(today)
      modifies this
      ensures Valid()
      ensures !open ==>
        fromDate == old(fromDate) && toDate == old(toDate) && timeFrom == old(timeFrom) && timeTo == old(timeTo)
        && remark == old(remark) && vacationTypes == old(vacationTypes)
        && selectedVacationCode == old(selectedVacationCode) && reportedError.None?
      ensures open ==>
        fromDate == Picked(today) && toDate == Picked(today) && timeFrom == Picked(EightAm) && timeTo == Picked(FourPm) && remark == ""
      ensures open && !Truthy(Lookup(storage.items, "saved_sett_api_url")) ==>
        vacationTypes == old(vacationTypes) && selectedVacationCode == "" && reportedError.None?
      ensures open && Truthy(Lookup(storage.items, "saved_sett_api_url")) ==>
        match types
        case TypesLoaded(Some(data)) =>
          vacationTypes == data && reportedError.None?
          && selectedVacationCode == (if |data| > 0 then data[0].code else "")
        case TypesLoaded(None) =>
          vacationTypes == [] && selectedVacationCode == "" && reportedError == Some(TypesLoadFailed)
        case TypesFailed(message) =>
          vacationTypes == [] && selectedVacationCode == "" && reportedError == Some(OrElse(message, TypesLoadFailed))
    {
      reportedError := None;
      if !open {
        return;
      }
      fromDate, toDate := Picked(today), Picked(today);
      timeFrom, timeTo := Picked(EightAm), Picked(FourPm);
      remark := "";
      selectedVacationCode := "";
      var apiUrl := storage.Get("saved_sett_api_url");
      if Truthy(apiUrl) {
        match types
        case TypesLoaded(Some(data)) =>
          vacationTypes := data;
          if |data| > 0 {
            selectedVacationCode := data[0].code;
          }
        case TypesLoaded(None) =>
          vacationTypes := [];
          reportedError := Some(TypesLoadFailed);
        case TypesFailed(message) =>
          vacationTypes := [];
          reportedError := Some(OrElse(message, TypesLoadFailed));
      }
    }

    /** A date picker's `onChange`: the "from" field takes the new value as it is. */
    method OnFromDateChange(v: PickerValue<Date>)
      requires DateFormattable(v)
      modifies this`fromDate
      ensures fromDate == v
    {
      fromDate := v;
    }

    /** The "to" date picker's `onChange`. */
    method OnToDateChange(v: PickerValue<Date>)
      requires DateFormattable(v)
      modifies this`toDate
      ensures toDate == v
    {
      toDate := v;
    }

    /** The "from" time picker's `onChange`. */
    method OnTimeFromChange(v: PickerValue<Clock>)
      requires ClockFormattable(v)
      modifies this`timeFrom
      ensures timeFrom == v
    {
      timeFrom := v;
    }

    /** The "to" time picker's `onChange`. */
    method OnTimeToChange(v: PickerValue<Clock>)
      requires ClockFormattable(v)
      modifies this`timeTo
      ensures timeTo == v
    {
      timeTo := v;
    }

    /** `handleSubmit` before its final `onClose()`: build the payload, which throws when a
        picker was cleared; post when the browser is online; hand the payload to `onSave`
        when the post fails or the browser is offline. */
    method HandleSubmit(browserOnline: bool, postOk: bool) returns (outcome: SubmitOutcome)
      requires Valid()
      ensures !Filled() <==> outcome.SubmitThrew?
      ensures Filled() ==>
        var payload := PayloadOf(Lookup(storage.items, "saved_sett_mobilenumber"), selectedVacationCode,
                                 fromDate, toDate, timeFrom, timeTo, remark);
        && (browserOnline ==>
              outcome.request == Some(SaveVacationRequest(
                SaveVacationUrl(Lookup(storage.items, "saved_sett_api_url")), payload,
                if Truthy(Lookup(storage.items, "saved_sett_empid")) then SavedEmpId(Lookup(storage.items, "saved_sett_empid").value) else DefaultEmpId,
                OrElse(Lookup(storage.items, "saved_sett_username"), "admin"))))
        && (!browserOnline ==> outcome.request.None?)
        && (outcome.saved.Some? <==> !browserOnline || !postOk)
        && (outcome.saved.Some? ==> outcome.saved.value == payload)
        && (outcome.reportedError.Some? <==> browserOnline && !postOk)
        && (outcome.reportedError.Some? ==> outcome.reportedError.value == SubmitFailedSavedLocally)
    {
      var androidId := storage.Get("saved_sett_mobilenumber");
      if !Filled() {
        return SubmitThrew;
      }
      var payload := PayloadOf(androidId, selectedVacationCode, fromDate, toDate, timeFrom, timeTo, remark);
      if browserOnline {
        var apiUrl := storage.Get("saved_sett_api_url");
        var savedEmpId := storage.Get("saved_sett_empid");
        var empId := if Truthy(savedEmpId) then SavedEmpId(savedEmpId.value) else DefaultEmpId;
        var operCode := OrElse(storage.Get("saved_sett_username"), "admin");
        var request := SaveVacationRequest(SaveVacationUrl(apiUrl), payload, empId, operCode);
        if postOk {
          outcome := SubmitOutcome(Some(request), None, None);
        } else {
          outcome := SubmitOutcome(Some(request), Some(payload), Some(SubmitFailedSavedLocally));
        }
      } else {
        outcome := SubmitOutcome(None, Some(payload), None);
      }
    }
  }
}
