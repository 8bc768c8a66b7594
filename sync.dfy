/** The sync engine (`handleSync` in src/utils/global_functions.js): posts a list of
    attendance entries to the server and, once the post succeeded, marks the local records
    as posted (status 1 becomes 3), either every pending record or the one record whose key
    the caller passes. */
module Sync {
  import opened JsText
  import opened LocalStore
  import LoginForm

  /** Which local records a successful sync marks as posted: `id === 0` means every pending
      record, a positive id means that record, and a missing id (`undefined`) makes the
      local update reject. */
  datatype SyncTarget = AllPending | RecordKey(key: RecordId) | NoKey

  /** A record's key as `handleSync` receives it: positive, since 0 means every pending
      record (`AllPending`). */
  type RecordId = k: nat | k > 0 witness 1

  datatype SyncResult = SyncResult(success: bool, message: string)

  /** A POST request: where it goes and the JSON list it carries. */
  datatype Request<P> = Request(url: string, body: seq<P>)

  const NothingToSync := "No transformed data to sync."
  const Synced := "Successfully synced to server!"
  const SyncFailed := "Sync failed. Check server or network."

  const DefaultApiBase := "http://localhost:5100"
  const ConfirmPath := "/api/location/confirm"

  // ---------------------------------------------------------------------------
  // The server address

  /** The address `handleSync` posts to, as written: the saved server address (or the
      default) behind a fixed "https://". */
  function ConfirmUrlAsWritten(savedApiUrl: Option<string>): string {
    "https://" + (if Truthy(savedApiUrl) then savedApiUrl.value else DefaultApiBase) + ConfirmPath
  }

  /** With no saved address the default already carries a scheme, so the request goes to an
      address with two schemes. */
  lemma AsWrittenDefaultDoublesScheme()
    ensures ConfirmUrlAsWritten(None) == "https://http://localhost:5100/api/location/confirm"
  {
  }

  /** The same happens to every saved address that carries a scheme of its own. */
  lemma AsWrittenDoublesScheme(savedApiUrl: Option<string>)
    requires Truthy(savedApiUrl) && LoginForm.HasHttpScheme(savedApiUrl.value)
    ensures StartsWith(ConfirmUrlAsWritten(savedApiUrl), "https://")
    ensures LoginForm.HasHttpScheme(ConfirmUrlAsWritten(savedApiUrl)[8..])
  {
    var tail := savedApiUrl.value + ConfirmPath;
    assert ConfirmUrlAsWritten(savedApiUrl) == "https://" + tail;
    LoginForm.PrefixIgnoringCase("https://", tail);
    assert ConfirmUrlAsWritten(savedApiUrl)[8..] == tail;
    ExtendKeepsScheme(savedApiUrl.value, ConfirmPath);
  }

  /** A text with an http or https scheme keeps it when something is appended. */
  lemma ExtendKeepsScheme(base: string, tail: string)
    requires LoginForm.HasHttpScheme(base)
    ensures LoginForm.HasHttpScheme(base + tail)
  {
    forall i | 0 <= i < |base| ensures (base + tail)[i] == base[i] { }
  }

  /** The corrected address: the saved address (or the default) passed through the login
      screen's `normalizeBaseUrl`, which adds "https://" only when no scheme is present.
      `HandleSync` itself posts to `ConfirmUrlAsWritten`, as the code does. */
  function ConfirmUrl(savedApiUrl: Option<string>): string {
    var base := if Truthy(savedApiUrl) then savedApiUrl.value else DefaultApiBase;
    LoginForm.NormalizeBaseUrl(Some(base)) + ConfirmPath
  }

  /** The corrected address keeps the default's own scheme. */
  lemma ConfirmUrlDefault()
    ensures ConfirmUrl(None) == DefaultApiBase + ConfirmPath
  {
    DefaultIsClean();
    NormalizeKeepsCleanUrl(DefaultApiBase);
  }

  lemma DefaultIsClean()
    ensures DefaultApiBase != [] && Trim(DefaultApiBase) == DefaultApiBase
    ensures LoginForm.HasHttpScheme(DefaultApiBase) && DefaultApiBase[|DefaultApiBase| - 1] != '/'
  {
    var d := DefaultApiBase;
    assert d == "http://" + "localhost:5100";
    LoginForm.PrefixIgnoringCase("http://", "localhost:5100");
    assert d[0] == 'h' && d[|d| - 1] == '0';
    TrimOfTrimmed(d);
  }

  /** `normalizeBaseUrl` leaves a trimmed address with a scheme and no trailing "/" alone. */
  lemma NormalizeKeepsCleanUrl(u: string)
    requires u != [] && Trim(u) == u && LoginForm.HasHttpScheme(u) && u[|u| - 1] != '/'
    ensures LoginForm.NormalizeBaseUrl(Some(u)) == u
  {
  }

  /** The corrected address agrees with the address as written for every saved address that
      is a bare host: no scheme, no surrounding whitespace and no trailing "/". */
  lemma ConfirmUrlAgreesOnBareHosts(h: string)
    requires h != [] && !LoginForm.HasHttpScheme(h) && Trim(h) == h && !EndsWith(h, "/")
    ensures ConfirmUrl(Some(h)) == ConfirmUrlAsWritten(Some(h))
  {
    assert h[|h| - 1..] == [h[|h| - 1]];
    assert LoginForm.DropTrailingSlash(h) == h;
  }

  // ---------------------------------------------------------------------------
  // The status transition

  predicate IsPending(r: AttendanceRecord) {
    HasStatus(r, Pending)
  }

  predicate IsPosted(r: AttendanceRecord) {
    HasStatus(r, Posted)
  }

  /** `{ recordstatusid: 3 }` */
  function MarkPosted(r: AttendanceRecord): AttendanceRecord {
    r.(recordstatusid := Some(Posted))
  }

  /** The attendance table after a successful sync for `target`. */
  function Promoted(es: seq<Entry<AttendanceRecord>>, target: SyncTarget): seq<Entry<AttendanceRecord>> {
    match target
    case AllPending => ModifyWhere(es, IsPending, MarkPosted)
    case RecordKey(k) => UpdateKey(es, k, MarkPosted)
    case NoKey => es
  }

  /** Syncing every pending record leaves none pending; each formerly pending record differs
      from before only in its status, every other record is untouched, and the keys stay. */
  lemma PromoteAllSpec(es: seq<Entry<AttendanceRecord>>)
    ensures var r := Promoted(es, AllPending);
      && |r| == |es|
      && (forall i :: 0 <= i < |r| ==> !IsPending(r[i].value) && r[i].key == es[i].key)
      && (forall i :: 0 <= i < |r| ==>
            if IsPending(es[i].value) then IsPosted(r[i].value) && r[i].value.(recordstatusid := es[i].value.recordstatusid) == es[i].value
            else r[i] == es[i])
  {
    var r := Promoted(es, AllPending);
    forall i | 0 <= i < |r| ensures r[i].key == es[i].key && (!IsPending(es[i].value) ==> r[i] == es[i]) {
    }
  }

  /** Syncing one record marks that record posted and leaves every other record as it was;
      a key that is not in the table changes nothing. */
  lemma PromoteKeySpec(es: seq<Entry<AttendanceRecord>>, k: RecordId)
    ensures var r := Promoted(es, RecordKey(k));
      && |r| == |es|
      && (forall i :: 0 <= i < |r| ==> r[i].key == es[i].key)
      && (forall i :: 0 <= i < |r| ==> if es[i].key == k then r[i].value == MarkPosted(es[i].value) else r[i] == es[i])
      && (k !in KeysOf(es) ==> r == es)
  {
    var r := Promoted(es, RecordKey(k));
    forall i | 0 <= i < |r| ensures es[i].key != k ==> r[i] == es[i] { }
    if k !in KeysOf(es) {
      forall i | 0 <= i < |r| ensures r[i] == es[i] {
        assert es[i].key in KeysOf(es);
      }
    }
  }

  /** Syncing again right after a successful sync changes nothing more. */
  lemma PromoteIdempotent(es: seq<Entry<AttendanceRecord>>, target: SyncTarget)
    ensures Promoted(Promoted(es, target), target) == Promoted(es, target)
  {
    var r := Promoted(es, target);
    var rr := Promoted(r, target);
    match target
    case AllPending =>
      forall i | 0 <= i < |r| ensures rr[i] == r[i] { }
    case RecordKey(k) =>
      forall i | 0 <= i < |r| ensures rr[i] == r[i] { }
    case NoKey =>
  }

  /** Syncing the record just added under a fresh key marks that record posted and leaves
      the older records as they were. */
  lemma PromoteFreshRecord(es: seq<Entry<AttendanceRecord>>, k: RecordId, v: AttendanceRecord)
    requires forall i :: 0 <= i < |es| ==> es[i].key < k
    ensures Promoted(es + [Entry(k, v)], RecordKey(k)) == es + [Entry(k, MarkPosted(v))]
  {
    var r := Promoted(es + [Entry(k, v)], RecordKey(k));
    forall i | 0 <= i < |r| ensures r[i] == (es + [Entry(k, MarkPosted(v))])[i] {
      if i < |es| {
        assert (es + [Entry(k, v)])[i] == es[i];
      }
    }
  }

  /** The number of records with a status that `sel` accepts. */
  function CountWhere(es: seq<Entry<AttendanceRecord>>, sel: AttendanceRecord -> bool): (n: nat)
    ensures n <= |es|
  {
    if es == [] then 0 else (if sel(es[0].value) then 1 else 0) + CountWhere(es[1..], sel)
  }

  /** Syncing every pending record moves them all to posted: afterwards the posted count is
      the old posted count plus the old pending count, and nothing is pending. */
  lemma {:induction false} PromoteAllCounts(es: seq<Entry<AttendanceRecord>>)
    ensures CountWhere(Promoted(es, AllPending), IsPosted) == CountWhere(es, IsPosted) + CountWhere(es, IsPending)
    ensures CountWhere(Promoted(es, AllPending), IsPending) == 0
  {
    if es != [] {
      var r := Promoted(es, AllPending);
      assert r[1..] == Promoted(es[1..], AllPending);
      PromoteAllCounts(es[1..]);
    }
  }

  // ---------------------------------------------------------------------------
  // handleSync

  /** `handleSync(transformed, id)`. `transformed` is the list to post (None for null),
      `postOk` whether the server accepted the post and `storeOk` whether the local update
      completed; a failed local update is rolled back. */
  method HandleSync<P>(attendance: Table<AttendanceRecord>, savedApiUrl: Option<string>,
                       transformed: Option<seq<P>>, target: SyncTarget, postOk: bool, storeOk: bool)
    returns (result: SyncResult, request: Option<Request<P>>)
    requires attendance.Valid()
    modifies attendance
    ensures attendance.Valid() && attendance.nextKey == old(attendance.nextKey)
    ensures request == if transformed.Some? && |transformed.value| > 0
                       then Some(Request(ConfirmUrlAsWritten(savedApiUrl), transformed.value)) else None
    ensures result.success <==> request.Some? && postOk && storeOk && !target.NoKey?
    ensures result.message == if request.None? then NothingToSync else if result.success then Synced else SyncFailed
    ensures attendance.entries == if result.success then Promoted(old(attendance.entries), target) else old(attendance.entries)
  {
    if transformed.None? || |transformed.value| == 0 {
      return SyncResult(false, NothingToSync), None;
    }
    request := Some(Request(ConfirmUrlAsWritten(savedApiUrl), transformed.value));
    if !postOk || !storeOk {
      return SyncResult(false, SyncFailed), request;
    }
    match target
    case AllPending =>
      attendance.ModifyAll(IsPending, MarkPosted);
      result := SyncResult(true, Synced);
    case RecordKey(k) =>
      attendance.Update(k, MarkPosted);
      result := SyncResult(true, Synced);
    case NoKey =>
      result := SyncResult(false, SyncFailed);
  }
}
