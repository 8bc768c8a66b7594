/** The home page's "sync" button (`handleSyncClick` in src/pages/HomePage.js): every
    pending attendance record is posted in one request, and after a successful sync the whole
    local attendance table is emptied. */
module HomePage {
  import opened JsText
  import opened LocalStore
  import opened Sync
  import opened Notices
  import AttendanceHistory

  /** One element of the posted list: the record's identity, place and time, with `street`
      and `building` blank and `nearby` repeating the address. */
  datatype SyncEntry = SyncEntry(
    mobileNumber: Option<string>,
    fullName: Option<string>,
    deviceName: string,
    latitude: Coordinate,
    longitude: Coordinate,
    address: string,
    street: string,
    building: string,
    nearby: string,
    confirmDate: string,
    confirmTime: string,
    ip: string)

  function ToSyncEntry(r: AttendanceRecord): SyncEntry {
    SyncEntry(r.mobileNumber, r.fullName, r.deviceName, r.latitude, r.longitude, r.address,
              "", "", r.address, r.confirmDate, r.confirmTime, r.ip)
  }

  /** The list posted for the pending records of the table, in key order. */
  function SyncPayload(es: seq<Entry<AttendanceRecord>>): seq<SyncEntry> {
    var pending := Select(es, IsPending);
    seq(|pending|, i requires 0 <= i < |pending| => ToSyncEntry(pending[i].value))
  }

  /** The posted list has one element per pending record, drawn from pending records only,
      and is empty exactly when nothing is pending. */
  lemma SyncPayloadSpec(es: seq<Entry<AttendanceRecord>>)
    ensures |SyncPayload(es)| == CountWhere(es, IsPending)
    ensures SyncPayload(es) == [] <==> forall i :: 0 <= i < |es| ==> !IsPending(es[i].value)
    ensures forall i :: 0 <= i < |SyncPayload(es)| ==>
      exists k | 0 <= k < |es| :: IsPending(es[k].value) && SyncPayload(es)[i] == ToSyncEntry(es[k].value)
  {
    var pending := Select(es, IsPending);
    SelectCount(es, IsPending);
    forall i | 0 <= i < |SyncPayload(es)|
      ensures exists k | 0 <= k < |es| :: IsPending(es[k].value) && SyncPayload(es)[i] == ToSyncEntry(es[k].value)
    {
      assert pending[i] in es;
      var k :| 0 <= k < |es| && es[k] == pending[i];
      assert IsPending(es[k].value);
    }
    forall i | 0 <= i < |es| && IsPending(es[i].value) ensures pending != [] {
      assert es[i] in pending;
    }
    if pending != [] {
      assert pending[0] in es;
    }
  }

  /** A selection holds as many entries as the selector accepts. */
  lemma {:induction false} SelectCount(es: seq<Entry<AttendanceRecord>>, sel: AttendanceRecord -> bool)
    ensures |Select(es, sel)| == CountWhere(es, sel)
  {
    if es != [] {
      SelectCount(es[1..], sel);
    }
  }

  class Home {
    var syncing: bool
    var syncStatus: Snack
    const attendance: Table<AttendanceRecord>
    const storage: Storage
    /** `attendanceRef.current`: the history view when it is shown, null otherwise. */
    const historyView: AttendanceHistory.HistoryView?

    constructor(attendance: Table<AttendanceRecord>, storage: Storage, historyView: AttendanceHistory.HistoryView?)
      ensures this.attendance == attendance && this.storage == storage && this.historyView == historyView
      ensures !syncing && syncStatus == Closed
    {
      this.attendance := attendance;
      this.storage := storage;
      this.historyView := historyView;
      syncing := false;
      syncStatus := Closed;
    }

    /** `handleSyncClick`, with `readOk` whether the pending query completes, `postOk` and
        `storeOk` the outcomes of the post and of the local status update inside the sync,
        and `clearOk` whether emptying the table completes. A rejected query or clear throws
        out of the handler: the notice stays as it was and `syncing` stays set. */
    method HandleSyncClick(readOk: bool, postOk: bool, storeOk: bool, clearOk: bool)
      returns (request: Option<Request<SyncEntry>>)
      requires attendance.Valid()
      modifies this`syncing, this`syncStatus, attendance, historyView
      ensures attendance.Valid()
      ensures !readOk ==>
        && syncing && syncStatus == old(syncStatus) && request.None?
        && attendance.entries == old(attendance.entries)
        && (historyView != null ==> historyView.history == old(historyView.history))
      ensures readOk ==>
        var payload := SyncPayload(old(attendance.entries));
        request == if payload == [] then None
                   else Some(Request(ConfirmUrlAsWritten(Lookup(storage.items, "saved_sett_api_url")), payload))
      ensures readOk ==>
        var success := request.Some? && postOk && storeOk;
        && (success && !clearOk ==>
              && syncing && syncStatus == old(syncStatus)
              && attendance.entries == Promoted(old(attendance.entries), AllPending)
              && (historyView != null ==> historyView.history == old(historyView.history)))
        && (!(success && !clearOk) ==>
              && !syncing
              && attendance.entries == (if success then [] else old(attendance.entries))
              && syncStatus.open
              && syncStatus.severity == (if success then Success else Error)
              && syncStatus.message == (if request.None? then NothingToSync else if success then Synced else SyncFailed)
              && (success && historyView != null ==> historyView.history == [])
              && (!success && historyView != null ==> historyView.history == old(historyView.history)))
    {
      syncing := true;
      if !readOk {
        return None;
      }
      var transformed := SyncPayload(attendance.entries);
      var savedApiUrl := storage.Get("saved_sett_api_url");
      var result;
      result, request := HandleSync(attendance, savedApiUrl, Some(transformed), AllPending, postOk, storeOk);
      var completed := ShowSyncResult(result, clearOk);
      if completed {
        syncing := false;
      }
    }

    /** What the handler does with the sync's result: a success clears the table and the
        shown history, and the result's message is shown. A rejected clear throws before
        either, and `completed` is false. */
    method ShowSyncResult(result: SyncResult, clearOk: bool) returns (completed: bool)
      requires attendance.Valid()
      modifies this`syncStatus, attendance, historyView
      ensures attendance.Valid()
      ensures completed <==> !result.success || clearOk
      ensures !completed ==>
        attendance.entries == old(attendance.entries) && syncStatus == old(syncStatus)
        && (historyView != null ==> historyView.history == old(historyView.history))
      ensures completed ==>
        && attendance.entries == (if result.success then [] else old(attendance.entries))
        && syncStatus == Snack(true, result.message, if result.success then Success else Error)
        && (result.success && historyView != null ==> historyView.history == [])
        && (!result.success && historyView != null ==> historyView.history == old(historyView.history))
    {
      if result.success {
        if !clearOk {
          return false;
        }
        attendance.Clear();
        if historyView != null {
          historyView.ClearHistory();
        }
      }
      syncStatus := Snack(true, result.message, if result.success then Success else Error);
      completed := true;
    }
  }
}
