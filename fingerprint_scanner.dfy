/** The attendance capture screen (src/components/FingerprintScanner.js). The fingerprint
    button records the GPS position as a pending attendance record: stored and synced at once
    when the server answers a ping, stored for a later sync otherwise. The camera fallback
    sends a photo instead: posted directly when online, stored without a status when offline. */
module FingerprintScanner {
  import opened JsText
  import opened LocalStore
  import opened Sync
  import opened Notices
  import DeviceInfo
  import HomePage

  // ---------------------------------------------------------------------------
  // Inputs from the browser and the network

  /** The outcome of `getCurrentPosition`. */
  datatype GpsOutcome = Position(latitude: real, longitude: real) | GpsError

  /** The outcome of the reverse-geocoding request: the `display_name` it returned (None
      when absent), or a failure. */
  datatype GeocodeOutcome = Found(displayName: Option<string>) | GeocodeFailed

  /** The file picked for the camera fallback: its contents as a data URL (None when the
      file reader fails) and the object URL used to show it. */
  datatype PickedImage = PickedImage(dataUrl: Option<string>, objectUrl: string)

  /** The clock reading of one capture: `toISOString()` and `toTimeString()` of the same
      instant. */
  datatype Instant = Instant(iso: string, timeText: string)

  /** What the screen shows under the button after a capture. */
  datatype Location = Location(latitude: real, longitude: real, address: string,
                               confirmDate: string, confirmTime: string, ip: string)

  // ---------------------------------------------------------------------------
  // Record assembly

  /** `now.toISOString().split("T")[0]`: the UTC calendar date. */
  function ConfirmDate(now: Instant): string {
    SplitOn(now.iso, 'T')[0]
  }

  /** `now.toTimeString().split(" ")[0]`: the local "HH:MM:SS". */
  function ConfirmTime(now: Instant): string {
    SplitOn(now.timeText, ' ')[0]
  }

  /** The address of a capture: "Unknown location" unless the browser is online and the
      geocoder returned a non-empty name. */
  function CaptureAddress(browserOnline: bool, geocode: GeocodeOutcome): string {
    if browserOnline && geocode.Found? && Truthy(geocode.displayName) then geocode.displayName.value
    else "Unknown location"
  }

  /** The record a fingerprint capture stores (and posts). */
  function GpsRecord(items: map<string, string>, deviceName: string, latitude: real, longitude: real,
                     address: string, now: Instant, ip: string, comment: string): AttendanceRecord
  {
    AttendanceRecord(
      Lookup(items, "saved_sett_mobilenumber"), Lookup(items, "saved_sett_fullname"),
      deviceName, Degrees(latitude), Degrees(longitude),
      address, "", "", address, ConfirmDate(now), ConfirmTime(now), ip, "", Some(Pending), comment, None, None)
  }

  /** The characters `replace(/[-:.TZ]/g, "")` removes. */
  predicate IsStampSeparator(c: char) {
    c == '-' || c == ':' || c == '.' || c == 'T' || c == 'Z'
  }

  /** `now.toISOString().replace(/[-:.TZ]/g, "")` */
  function UniqueId(now: Instant): string {
    FilterChars(now.iso, c => !IsStampSeparator(c))
  }

  /** `${mobileNumber}_${uniqueId}.jpg`, where a missing number prints as "null". */
  function ImageFilename(mobileNumber: Option<string>, now: Instant): string {
    TemplateText(mobileNumber) + "_" + UniqueId(now) + ".jpg"
  }

  /** The record a camera capture posts, or stores when offline. */
  function ImageRecord(items: map<string, string>, deviceName: string, now: Instant, ip: string,
                       comment: string, dataUrl: string): AttendanceRecord
  {
    var mobileNumber := Lookup(items, "saved_sett_mobilenumber");
    AttendanceRecord(
      mobileNumber, Lookup(items, "saved_sett_fullname"), deviceName, Blank, Blank,
      "Camera-based entry", "", "", "Camera-based entry", ConfirmDate(now), ConfirmTime(now), ip,
      ImageFilename(mobileNumber, now), None, comment, Some("image"), Some(dataUrl))
  }

  /** A fingerprint record is pending, so the home page's sync picks it up, and its sync
      projection carries its own street, building and nearby values. */
  lemma GpsRecordSpec(items: map<string, string>, deviceName: string, latitude: real, longitude: real,
                      address: string, now: Instant, ip: string, comment: string)
    ensures var r := GpsRecord(items, deviceName, latitude, longitude, address, now, ip, comment);
      && IsPending(r) && r.filename == "" && r.confirmType.None?
      && var e := HomePage.ToSyncEntry(r);
         e.street == r.street && e.building == r.building && e.nearby == r.nearby && e.address == address
  {
  }

  /** A photo stored offline carries no status: the pending query never selects it, so it
      never reaches the sync payload, and it is not counted as posted either. */
  lemma ImageRecordNeverSynced(es: seq<Entry<AttendanceRecord>>, k: nat, items: map<string, string>, deviceName: string,
                               now: Instant, ip: string, comment: string, dataUrl: string)
    ensures var img := ImageRecord(items, deviceName, now, ip, comment, dataUrl);
      && !IsPending(img) && !IsPosted(img)
      && HomePage.SyncPayload(es + [Entry(k, img)]) == HomePage.SyncPayload(es)
  {
    var img := ImageRecord(items, deviceName, now, ip, comment, dataUrl);
    SelectAppend(es, [Entry(k, img)], IsPending);
    assert Select([Entry(k, img)], IsPending) == [];
    assert Select(es + [Entry(k, img)], IsPending) == Select(es, IsPending);
  }

  /** For an ISO timestamp (digits and the separators - : . T Z) the unique id is exactly its
      digits, and the file name is the number, "_", those digits and ".jpg". */
  lemma ImageFilenameSpec(mobileNumber: Option<string>, now: Instant)
    requires forall i :: 0 <= i < |now.iso| ==> IsAsciiDigit(now.iso[i]) || IsStampSeparator(now.iso[i])
    ensures UniqueId(now) == KeepDigits(now.iso)
    ensures forall i :: 0 <= i < |UniqueId(now)| ==> IsAsciiDigit(UniqueId(now)[i])
    ensures ImageFilename(mobileNumber, now) == TemplateText(mobileNumber) + "_" + KeepDigits(now.iso) + ".jpg"
  {
    FilterCharsAgree(now.iso, c => !IsStampSeparator(c), IsAsciiDigit);
    KeepDigitsSpec(now.iso);
  }

  /** Two filters that agree on every character of `s` filter `s` alike. */
  lemma {:induction false} FilterCharsAgree(s: string, p: char -> bool, q: char -> bool)
    requires forall i :: 0 <= i < |s| ==> p(s[i]) == q(s[i])
    ensures FilterChars(s, p) == FilterChars(s, q)
  {
    if s != [] {
      FilterCharsAgree(s[1..], p, q);
    }
  }

  /** The stored date is the part of the ISO timestamp before its "T". */
  lemma ConfirmDateOfIso(date: string, rest: string, timeText: string)
    requires 'T' !in date
    ensures ConfirmDate(Instant(date + "T" + rest, timeText)) == date
  {
    SplitPrefix(date, rest, 'T');
  }

  // ---------------------------------------------------------------------------
  // The component

  class Scanner {
    var loading: bool
    var error: string
    var location: Option<Location>
    var showCameraFallback: bool
    var capturedImage: Option<string>
    var comment: string
    var snack: Snack
    const attendance: Table<AttendanceRecord>
    const storage: Storage

    constructor(attendance: Table<AttendanceRecord>, storage: Storage)
      ensures this.attendance == attendance && this.storage == storage
      ensures !loading && error == "" && location.None? && !showCameraFallback && capturedImage.None?
      ensures comment == "" && snack == Snack(false, "", Success)
    {
      this.attendance := attendance;
      this.storage := storage;
      loading, error, location, showCameraFallback, capturedImage := false, "", None, false, None;
      comment := "";
      snack := Snack(false, "", Success);
    }

    /** `handleFingerprintClick`. `online` is the ping result, `addOk` whether
        `attendance.add` succeeds, and `postOk`/`storeOk` the outcomes inside the sync. */
    method HandleFingerprintClick(geolocationSupported: bool, gps: GpsOutcome, browserOnline: bool,
                                  geocode: GeocodeOutcome, now: Instant, ua: string, ip: string,
                                  online: bool, addOk: bool, postOk: bool, storeOk: bool)
      returns (request: Option<Request<AttendanceRecord>>)
      requires attendance.Valid()
      modifies this, attendance
      ensures attendance.Valid()
      ensures !loading && capturedImage.None? && comment == old(comment)
      ensures !geolocationSupported ==>
        error == "Geolocation not supported." && showCameraFallback && location.None?
        && snack == old(snack) && request.None? && attendance.entries == old(attendance.entries)
      ensures geolocationSupported && gps.GpsError? ==>
        error == "Failed to get GPS location." && !showCameraFallback && location.None?
        && snack == old(snack) && request.None? && attendance.entries == old(attendance.entries)
      ensures geolocationSupported && gps.Position? && browserOnline && geocode.GeocodeFailed? ==>
        error == "Online, but failed to fetch address." && showCameraFallback && location.None?
        && snack == old(snack) && request.None? && attendance.entries == old(attendance.entries)
      ensures geolocationSupported && gps.Position? && !(browserOnline && geocode.GeocodeFailed?) ==>
        var address := CaptureAddress(browserOnline, geocode);
        var deviceName := DeviceInfo.GetBrowserAndOS(ua);
        var rec := GpsRecord(storage.items, deviceName, gps.latitude, gps.longitude, address, now, ip, old(comment));
        var key := old(attendance.nextKey);
        && error == "" && !showCameraFallback
        && location == Some(Location(gps.latitude, gps.longitude, address, ConfirmDate(now), ConfirmTime(now), ip))
        && (!addOk ==>
              attendance.entries == old(attendance.entries) && request.None?
              && snack == Snack(true, "Failed to save submission.", Error))
        && (addOk && online ==>
              attendance.entries == old(attendance.entries) + [Entry(key, if postOk && storeOk then MarkPosted(rec) else rec)]
              && request == Some(Request(ConfirmUrlAsWritten(Lookup(storage.items, "saved_sett_api_url")), [rec]))
              && snack == Snack(true, "Attendance submitted.", Success))
        && (addOk && !online ==>
              attendance.entries == old(attendance.entries) + [Entry(key, rec)] && request.None?
              && snack == Snack(true, "Saved offline. Will sync later.", Info))
    {
      error, loading, location, capturedImage, showCameraFallback := "", true, None, None, false;
      request := None;
      if !geolocationSupported {
        error := "Geolocation not supported.";
        showCameraFallback := true;
        loading := false;
        return;
      }
      match gps
      case GpsError =>
        error := "Failed to get GPS location.";
        loading := false;
      case Position(latitude, longitude) =>
        request := OnPosition(latitude, longitude, browserOnline, geocode, now, ua, ip, online, addOk, postOk, storeOk);
    }

    /** The success callback of `getCurrentPosition`: look the address up when the browser
        is online, then store (and possibly sync) the record and show the capture. */
    method OnPosition(latitude: real, longitude: real, browserOnline: bool, geocode: GeocodeOutcome,
                      now: Instant, ua: string, ip: string, online: bool, addOk: bool, postOk: bool, storeOk: bool)
      returns (request: Option<Request<AttendanceRecord>>)
      requires attendance.Valid()
      modifies this`error, this`showCameraFallback, this`loading, this`location, this`snack, attendance
      ensures attendance.Valid() && !loading
      ensures browserOnline && geocode.GeocodeFailed? ==>
        error == "Online, but failed to fetch address." && showCameraFallback && location == old(location)
        && snack == old(snack) && request.None? && attendance.entries == old(attendance.entries)
      ensures !(browserOnline && geocode.GeocodeFailed?) ==>
        var address := CaptureAddress(browserOnline, geocode);
        var rec := GpsRecord(storage.items, DeviceInfo.GetBrowserAndOS(ua), latitude, longitude, address, now, ip, comment);
        var key := old(attendance.nextKey);
        && error == old(error) && showCameraFallback == old(showCameraFallback)
        && location == Some(Location(latitude, longitude, address, ConfirmDate(now), ConfirmTime(now), ip))
        && (!addOk ==>
              attendance.entries == old(attendance.entries) && request.None?
              && snack == Snack(true, "Failed to save submission.", Error))
        && (addOk && online ==>
              attendance.entries == old(attendance.entries) + [Entry(key, if postOk && storeOk then MarkPosted(rec) else rec)]
              && request == Some(Request(ConfirmUrlAsWritten(Lookup(storage.items, "saved_sett_api_url")), [rec]))
              && snack == Snack(true, "Attendance submitted.", Success))
        && (addOk && !online ==>
              attendance.entries == old(attendance.entries) + [Entry(key, rec)] && request.None?
              && snack == Snack(true, "Saved offline. Will sync later.", Info))
    {
      var address := "Unknown location";
      if browserOnline {
        match geocode
        case GeocodeFailed =>
          error := "Online, but failed to fetch address.";
          showCameraFallback := true;
          loading := false;
          request := None;
          return;
        case Found(displayName) =>
          address := OrElse(displayName, "Unknown location");
      }
      var deviceName := DeviceInfo.GetBrowserAndOS(ua);
      var rec := GpsRecord(storage.items, deviceName, latitude, longitude, address, now, ip, comment);
      request := StoreAndSync(rec, online, addOk, postOk, storeOk);
      location := Some(Location(latitude, longitude, address, ConfirmDate(now), ConfirmTime(now), ip));
      loading := false;
    }

    /** `handleImageSelect` for the picked file (None when the picker returned none). A file
        reader failure aborts the handler after it set `loading`. */
    method HandleImageSelect(picked: Option<PickedImage>, now: Instant, ua: string, ip: string,
                             online: bool, addOk: bool, postOk: bool)
      returns (request: Option<Request<AttendanceRecord>>)
      requires attendance.Valid()
      modifies this, attendance
      ensures attendance.Valid()
      ensures location == old(location) && showCameraFallback == old(showCameraFallback) && comment == old(comment)
      ensures picked.None? ==>
        loading == old(loading) && error == old(error) && capturedImage == old(capturedImage) && snack == old(snack)
        && request.None? && attendance.entries == old(attendance.entries)
      ensures picked.Some? && picked.value.dataUrl.None? ==>
        loading && error == "" && capturedImage == old(capturedImage) && snack == old(snack)
        && request.None? && attendance.entries == old(attendance.entries)
      ensures picked.Some? && picked.value.dataUrl.Some? ==>
        var deviceName := DeviceInfo.GetBrowserAndOS(ua);
      var rec := ImageRecord(storage.items, deviceName, now, ip, old(comment), picked.value.dataUrl.value);
        && !loading && error == "" && capturedImage == Some(picked.value.objectUrl)
        && (online ==>
              attendance.entries == old(attendance.entries)
              && request == Some(Request(ConfirmUrlAsWritten(Lookup(storage.items, "saved_sett_api_url")), [rec]))
              && snack == Snack(true, "Image submitted.", Success))
        && (!online && addOk ==>
              attendance.entries == old(attendance.entries) + [Entry(old(attendance.nextKey), rec)] && request.None?
              && snack == Snack(true, "Image saved offline. Will sync later.", Info))
        && (!online && !addOk ==>
              attendance.entries == old(attendance.entries) && request.None?
              && snack == Snack(true, "Failed to save image submission.", Error))
    {
      request := None;
      if picked.None? {
        return;
      }
      loading := true;
      error := "";
      if picked.value.dataUrl.None? {
        return;
      }
      var deviceName := DeviceInfo.GetBrowserAndOS(ua);
      var rec := ImageRecord(storage.items, deviceName, now, ip, comment, picked.value.dataUrl.value);
      request := SendOrStoreImage(rec, online, addOk, postOk);
      capturedImage := Some(picked.value.objectUrl);
      loading := false;
    }

    /** The try block of `handleFingerprintClick`: store the record, and when the server
        answered the ping, sync that one record at once. The sync's own result is not
        looked at, so the success notice shows whatever it was. */
    method StoreAndSync(rec: AttendanceRecord, online: bool, addOk: bool, postOk: bool, storeOk: bool)
      returns (request: Option<Request<AttendanceRecord>>)
      requires attendance.Valid()
      modifies this`snack, attendance
      ensures attendance.Valid()
      ensures !addOk ==>
        attendance.entries == old(attendance.entries) && request.None?
        && snack == Snack(true, "Failed to save submission.", Error)
      ensures addOk && online ==>
        attendance.entries == old(attendance.entries) + [Entry(old(attendance.nextKey), if postOk && storeOk then MarkPosted(rec) else rec)]
        && request == Some(Request(ConfirmUrlAsWritten(Lookup(storage.items, "saved_sett_api_url")), [rec]))
        && snack == Snack(true, "Attendance submitted.", Success)
      ensures addOk && !online ==>
        attendance.entries == old(attendance.entries) + [Entry(old(attendance.nextKey), rec)] && request.None?
        && snack == Snack(true, "Saved offline. Will sync later.", Info)
    {
      request := None;
      if !addOk {
        snack := Snack(true, "Failed to save submission.", Error);
      } else if online {
        ghost var before := attendance.entries;
        var id := attendance.Add(rec);
        var savedApiUrl := storage.Get("saved_sett_api_url");
        var _, sent := HandleSync(attendance, savedApiUrl, Some([rec]), RecordKey(id), postOk, storeOk);
        request := sent;
        PromoteFreshRecord(before, id, rec);
        snack := Snack(true, "Attendance submitted.", Success);
      } else {
        var _ := attendance.Add(rec);
        snack := Snack(true, "Saved offline. Will sync later.", Info);
      }
    }

    /** The try block of `handleImageSelect`: post the photo when online (with no record key,
        so the sync's local update always rejects), store it otherwise. */
    method SendOrStoreImage(rec: AttendanceRecord, online: bool, addOk: bool, postOk: bool)
      returns (request: Option<Request<AttendanceRecord>>)
      requires attendance.Valid()
      modifies this`snack, attendance
      ensures attendance.Valid()
      ensures online ==>
        attendance.entries == old(attendance.entries)
        && request == Some(Request(ConfirmUrlAsWritten(Lookup(storage.items, "saved_sett_api_url")), [rec]))
        && snack == Snack(true, "Image submitted.", Success)
      ensures !online && addOk ==>
        attendance.entries == old(attendance.entries) + [Entry(old(attendance.nextKey), rec)] && request.None?
        && snack == Snack(true, "Image saved offline. Will sync later.", Info)
      ensures !online && !addOk ==>
        attendance.entries == old(attendance.entries) && request.None?
        && snack == Snack(true, "Failed to save image submission.", Error)
    {
      request := None;
      if online {
        var savedApiUrl := storage.Get("saved_sett_api_url");
        var _, sent := HandleSync(attendance, savedApiUrl, Some([rec]), NoKey, postOk, true);
        request := sent;
        snack := Snack(true, "Image submitted.", Success);
      } else if addOk {
        var _ := attendance.Add(rec);
        snack := Snack(true, "Image saved offline. Will sync later.", Info);
      } else {
        snack := Snack(true, "Failed to save image submission.", Error);
      }
    }
  }
}
