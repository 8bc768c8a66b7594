# BeeAttSite attendance core in Dafny

BeeAttSite is an offline-first attendance web app. An employee records attendance in one of
two ways:

- the **fingerprint button**, which captures the GPS position and an address;
- the **camera fallback**, which sends a photo.

Records go into the browser's IndexedDB database (`AttendanceDB`, tables `attendance`,
`vacationRequests`, `myattendance`, `acceptedLeave`). They are posted to the server at once
when it answers a ping, and later otherwise. The home page's sync button posts every pending
record (status 1). After a successful post the records are marked posted (status 3), and then
the home page empties the local table.

The monthly attendance page lists one row per day. Each row's status follows a fixed
precedence: an accepted leave, then the weekend, then a day without a time, then the server's
status. The page filters the rows by status and totals the hours worked. From a row the
employee can request a vacation, which is posted, or kept locally when offline, and cancel it
again. A local login screen checks the typed credentials against values kept in
`localStorage`.

The model has one Dafny module per source file. Three shared modules sit underneath:

- `JsText` holds the JavaScript string semantics the code relies on: truthiness, `trim`,
  `split`, `includes`, `replace` with a character class, and `<` on strings.
- `Calendar` holds Gregorian dates and clock times as dayjs formats and reads them:
  "YYYY-MM-DD" with a parse round trip, "HH:mm", and dayjs's reading of a clock text.
- `LocalStore` holds the Dexie tables and `localStorage`. A `Table<T>` has ascending
  auto-increment keys starting at 1. `clear()` keeps the key counter, as IndexedDB does.

Each React component becomes a `class` whose fields are its state. Its handlers and effects
are methods that update that state and the tables. Every result from outside the code
becomes a parameter of the method that waits for it:

- the server's answer to a post or a fetch;
- the ping;
- the GPS reading and the geocoder;
- `navigator.onLine`;
- the clock reading;
- the user agent;
- the public IP;
- whether a Dexie write succeeds;
- whether a Dexie read succeeds, where the source does nothing to catch a failed read.

Behaviours of the source that the model states as they are:

- A successful sync from the home page clears the whole `attendance` table. That includes
  photos stored offline, which carry no status and so are never selected for a sync
  (`FingerprintScanner.ImageRecordNeverSynced`).
- The fingerprint and photo handlers show "Attendance submitted." and "Image submitted."
  whatever the sync returned.
- A photo whose online post fails is not stored locally, because `handleSync` catches the
  failure itself.
- The vacation dialog ignores the clicked row's date. Its period starts today, while the
  stored request carries the clicked row's date (`MyAttPage.Page.OnSave`).
- The login screen pre-fills from `saved_sett_mobilenumber` but compares against
  `saved_mobilenumber` (`LoginForm.PrefilledLoginRejectedOnKeyMismatch`).
- The sync post, the month request, the vacation-type request and the save-vacation
  request put `https://` in front of the saved server address as it is. The sync post uses
  "http://localhost:5100" when no address is saved. All of them share the scheme problem
  described under Findings whenever the address carries a scheme of its own. The handlers
  post where the code posts (`Sync.ConfirmUrlAsWritten`); the corrected address
  (`Sync.ConfirmUrl`) stands beside it.

## Model

| member | source | states |
|---|---|---|
| JsText.TrimIdempotent | src/pages/LoginForm.js:61 | trimming an already trimmed text changes nothing |
| JsText.TrimRemovesOnlyWhitespace | src/utils/attendanceUtils.js:63 | `trim` removes only whitespace from either end and keeps the middle as it is |
| JsText.TrimOfTrimmed | src/pages/LoginForm.js:61 | a text that neither starts nor ends with whitespace is its own trim |
| JsText.Trim | src/pages/LoginForm.js:61 | `trim()`: the text without JavaScript whitespace at either end (stated by JsText.TrimRemovesOnlyWhitespace, JsText.TrimIdempotent and JsText.TrimOfTrimmed) |
| JsText.JoinSplit | src/utils/attendanceUtils.js:63 | joining the parts of `split("~")` with "~" gives the time text back, so the split loses nothing |
| JsText.SplitJoin | src/utils/attendanceUtils.js:63 | splitting a "~"-join of parts without "~" gives exactly those parts |
| JsText.SplitPrefix | src/components/FingerprintScanner.js:92-93 | the first part of a split is the text before the first separator |
| JsText.SplitOn | src/utils/attendanceUtils.js:63 | `split` on one character: the parts between the separators, so joining them with it gives the text back (JsText.JoinSplit, JsText.SplitJoin, JsText.SplitPrefix) |
| JsText.KeepDigitsSpec | src/pages/LoginForm.js:304 | `replace(/\D/g, "")` yields only digits, keeps every digit, leaves a digit string unchanged and is idempotent |
| JsText.KeepDigits | src/pages/LoginForm.js:304 | `replace(/\D/g, "")`: exactly the ASCII digits of the text, in order (JsText.KeepDigitsSpec) |
| JsText.FilterCharsKeepsAccepted | src/components/FingerprintScanner.js:175 | removing a character class leaves a text without such characters unchanged |
| JsText.FilterCharsIdempotent | src/components/FingerprintScanner.js:175 | removing a character class twice is removing it once |
| JsText.FilterChars | src/components/FingerprintScanner.js:175 | a global `replace` of a character class with "": the accepted characters in order, idempotent (JsText.FilterCharsKeepsAccepted, JsText.FilterCharsIdempotent) |
| JsText.StrLtTotal | src/components/AttendanceHistory.js:80 | any two different date strings are ordered one way or the other |
| JsText.StrLtTransitive | src/components/AttendanceHistory.js:80 | the string order `sortBy` uses is transitive |
| JsText.StrLtIrreflexive | src/components/AttendanceHistory.js:80 | no date string sorts before itself |
| JsText.StrLt | src/components/AttendanceHistory.js:80 | `<` on strings: a strict total order by character, a proper prefix first (JsText.StrLtTotal, JsText.StrLtTransitive, JsText.StrLtIrreflexive) |
| JsText.Truthy | src/pages/LoginForm.js:94-100 | a stored or returned string is truthy exactly when it is present and not empty; the guards of the pre-fill and of every `||` default use it |
| JsText.OrElse | src/utils/global_functions.js:13-14 | `v || fallback`: the value when truthy, the fallback otherwise (used by Sync.AsWrittenDefaultDoublesScheme and VacationDialog.Dialog.OnOpen) |
| JsText.TemplateText | src/components/FingerprintScanner.js:176 | a possibly-null string inside a template literal: null prints as "null" (used by FingerprintScanner.ImageFilenameSpec and MyAttPage.Page.LoadMonth) |
| JsText.Includes | src/utils/global_functions.js:91-112 | `includes`: the needle occurs somewhere in the text (DeviceInfo.IncludesWidens) |
| Calendar.DaysInMonth | src/utils/attendanceUtils.js:15 | a month has 28 to 31 days: 29 exactly for February of a leap year, 28 for other Februaries, 30 exactly for April, June, September and November |
| Calendar.NextDayNumber | src/utils/attendanceUtils.js:45 | the next calendar day is valid and has the next day number, so the day numbers used for the leave range count days |
| Calendar.NextDayWeekday | src/utils/attendanceUtils.js:32-34 | weekdays cycle through 0..6, one step per calendar day |
| Calendar.Weekday | src/utils/attendanceUtils.js:32-34 | `day()`: a weekday 0..6 that moves one step mod 7 per day (Calendar.NextDayWeekday) |
| Calendar.ParseFormatDate | src/utils/attendanceUtils.js:18 | a date formatted as "YYYY-MM-DD" reads back as the same date |
| Calendar.FormatDateInjective | src/utils/attendanceUtils.js:27 | two dates format to the same text exactly when they are equal, so comparing the texts compares the days |
| Calendar.ParseFormatClock | src/utils/attendanceUtils.js:68-69 | a time formatted as "HH:mm" is read by dayjs as that many minutes after midnight |
| Calendar.DigitsValueAppend | src/utils/attendanceUtils.js:18 | the value of two digit strings written one after the other, the basis of the zero padding |
| Calendar.FormatDate | src/utils/attendanceUtils.js:18 | `format("YYYY-MM-DD")`: a text that reads back as the same date and differs for different dates (Calendar.ParseFormatDate, Calendar.FormatDateInjective) |
| Calendar.ParseDate | src/utils/attendanceUtils.js:27 | reading a "YYYY-MM-DD" text back into a valid date, the inverse of Calendar.FormatDate (Calendar.ParseFormatDate) |
| Calendar.FormatClock | src/components/VacationDialog.js:71-72 | `format("HH:mm")`: a text that reads back as that minute of the day, and "00:00" exactly for midnight (Calendar.ParseFormatClock, AttendanceUtils.MidnightText) |
| Calendar.ParseClock | src/utils/attendanceUtils.js:68-69 | `dayjs("2025-01-01 " + text)`: the milliseconds into the day of a clock text, the inverse of Calendar.FormatClock (Calendar.ParseFormatClock) |
| LocalStore.ValuesOf | src/pages/MyAttPage.js:140 | `toArray()` lists every stored value in key order |
| LocalStore.Select | src/pages/HomePage.js:69-72 | `where().equals()` keeps exactly the records the selector accepts, drawn from the table |
| LocalStore.ModifyWhere | src/utils/global_functions.js:26 | `modify` rewrites exactly the accepted records and keeps every key and the order |
| LocalStore.UpdateKey | src/utils/global_functions.js:28 | `update(id, ...)` rewrites only the record under that key |
| LocalStore.SelectKeepsOrder | src/pages/MyAttPage.js:503 | deleting records keeps the remaining keys ascending |
| LocalStore.SelectAppend | src/pages/HomePage.js:69-72 | the pending selection of a table with a record appended is the old selection followed by that record's selection |
| LocalStore.Table.constructor | src/db.js:11-16 | a new table is empty and its first key is 1 |
| LocalStore.Table.Add | src/components/FingerprintScanner.js:124 | `add` appends the record under the next key, returns that key and keeps the keys ascending |
| LocalStore.Table.BulkAdd | src/pages/MyAttPage.js:111-127 | `bulkAdd` appends the values in order under consecutive fresh keys |
| LocalStore.Table.Clear | src/pages/HomePage.js:92 | `clear` removes every record and keeps the key counter |
| LocalStore.Table.ModifyAll | src/utils/global_functions.js:26 | the table after `modify` is `ModifyWhere` of the old table; the key counter is kept |
| LocalStore.Table.Update | src/utils/global_functions.js:28 | the table after `update` is `UpdateKey` of the old table; a missing key changes nothing |
| LocalStore.Table.DeleteWhere | src/pages/MyAttPage.js:503 | `delete` keeps exactly the records the selector rejects, in order |
| LocalStore.Storage.Get | src/pages/LoginForm.js:115-116 | `getItem` returns the stored value, null for an absent key |
| LocalStore.Storage.Set | src/pages/LoginForm.js:126-136 | `setItem` stores the value under the key and leaves the other keys alone |
| LocalStore.Lookup | src/pages/LoginForm.js:89-92 | a value is present exactly when the key is stored, and it is the stored value |
| AttendanceUtils.MonthDates | src/utils/attendanceUtils.js:14-22 | the month has one valid date per day, numbered 1..n |
| AttendanceUtils.MonthDatesSpec | src/utils/attendanceUtils.js:14-22 | the dates are exactly the month's valid dates, start on the first, follow one another day by day and ascend strictly |
| AttendanceUtils.GenerateMonthDates | src/utils/attendanceUtils.js:14-22 | the loop returns one text per day of the month, and the i-th text reads back as day i+1 |
| AttendanceUtils.Clean | src/utils/attendanceUtils.js:30 | a value is blanked exactly when it is falsy or "N/A", and is otherwise kept |
| AttendanceUtils.FirstMatch | src/utils/attendanceUtils.js:26-28 | `find` returns the first row whose date reads as the day; no earlier row does |
| AttendanceUtils.FirstMatchUnique | src/utils/attendanceUtils.js:26-28 | the first matching row is unique |
| AttendanceUtils.LeaveCovers | src/utils/attendanceUtils.js:44-46 | `isBetween(from, to, "day", "[]")`: the day lies between the two bounds inclusive, in either order (used by AttendanceUtils.StatusPrecedence) |
| AttendanceUtils.MapRow | src/utils/attendanceUtils.js:25-58 | the row of one day: its id and date, day name, cleaned time and address, and the status precedence (AttendanceUtils.StatusPrecedence, AttendanceUtils.RowFieldsFromFirstMatch) |
| AttendanceUtils.MapAttendanceRows | src/utils/attendanceUtils.js:24-59 | one row per date, in order; its id is its date and that date reads back as the day |
| AttendanceUtils.StatusPrecedence | src/utils/attendanceUtils.js:39-48 | the status is Vacation on a leave day, else Weekend on a weekend, else "" without a time, else the first matching row's status or "Pending" when that is falsy |
| AttendanceUtils.RowFieldsFromFirstMatch | src/utils/attendanceUtils.js:26-37 | time and address are the cleaned fields of the first matching row, blank when no row matches; the day name follows the weekday |
| AttendanceUtils.MinutesBetween | src/utils/attendanceUtils.js:70 | `diff(..., "minute")` truncates toward zero and is positive exactly when the end is at least a minute later |
| AttendanceUtils.RowHours | src/utils/attendanceUtils.js:63-65 | a row contributes a non-negative amount, and nothing unless its time holds exactly one "~" |
| AttendanceUtils.RangeHours | src/utils/attendanceUtils.js:66-72 | a range never contributes a negative amount |
| AttendanceUtils.HoursBetween | src/utils/attendanceUtils.js:70-72 | the positive whole minutes from start to end, in hours, and 0 when the end is not later (AttendanceUtils.WholeMinutes, AttendanceUtils.RowHoursOfClocks) |
| AttendanceUtils.TotalHours | src/utils/attendanceUtils.js:61-74 | the total is never negative |
| AttendanceUtils.TotalHoursAppend | src/utils/attendanceUtils.js:61-74 | the total of two lists of rows is the sum of their totals |
| AttendanceUtils.TotalHoursSnoc | src/utils/attendanceUtils.js:61-74 | adding one row to the reduced rows adds exactly that row's hours |
| AttendanceUtils.TotalHoursPartition | src/utils/attendanceUtils.js:61-74 | the rows a filter keeps and the rows it drops split the total between them |
| AttendanceUtils.RowHoursOfClocks | src/utils/attendanceUtils.js:63-72 | a "HH:mm ~ HH:mm" range counts 8 hours for two midnights, the minutes from start to end in hours when the end is later, and 0 otherwise |
| AttendanceUtils.RangeHoursOfMinutes | src/utils/attendanceUtils.js:66-72 | two ends that read as whole minutes of the day give 8 for 00:00-00:00, else the positive minute difference over 60, else 0 |
| AttendanceUtils.MidnightText | src/utils/attendanceUtils.js:66 | "00:00" is the text of midnight and of no other time |
| AttendanceUtils.WholeMinutes | src/utils/attendanceUtils.js:70 | two whole minutes of the day are their difference in minutes apart |
| AttendanceUtils.Filter | src/pages/MyAttPage.js:169 | `filter` keeps exactly the accepted rows, drawn from the list |
| AttendanceUtils.FilterAppendLast | src/pages/MyAttPage.js:169 | filtering a list with one more row adds that row exactly when it is accepted |
| DeviceInfo.Browser | src/utils/global_functions.js:91-102 | the browser is one of the six fixed names |
| DeviceInfo.Os | src/utils/global_functions.js:105-112 | the system is one of the eight fixed names |
| DeviceInfo.DeviceNameShape | src/utils/global_functions.js:115 | the device text is always "Browser: B, OS: O" with B and O from the fixed lists |
| DeviceInfo.GetBrowserAndOS | src/utils/global_functions.js:87-116 | "Browser: B, OS: O" with B and O the first matching rules of the two ladders (DeviceInfo.DeviceNameShape, DeviceInfo.BrowserIsFirstMatch, DeviceInfo.OsIsFirstMatch) |
| DeviceInfo.FirstMatchingSpec | src/utils/global_functions.js:91-112 | a first-match rule table names the first rule that matches, and "Unknown" exactly when none does |
| DeviceInfo.BrowserIsFirstMatch | src/utils/global_functions.js:91-102 | the browser ladder agrees with a first-match rule table |
| DeviceInfo.OsIsFirstMatch | src/utils/global_functions.js:105-112 | the system ladder agrees with a first-match rule table |
| DeviceInfo.BrowserPrecedence | src/utils/global_functions.js:92-101 | "Firefox/" wins; Edge exactly when "Edg/" without "Firefox/"; Chrome exactly when "Chrome/" without both; Safari only without "Chrome/"; Opera only when nothing earlier matches |
| DeviceInfo.OsPrecedence | src/utils/global_functions.js:106-112 | without "Windows NT", "Mac OS X" gives macOS, then Android; iOS never when "Mac OS X" appears, so iPhones read as macOS; Linux never when Android appears |
| DeviceInfo.IncludesWidens | src/utils/global_functions.js:106-108 | a text containing "Windows NT 10.0" and the like contains "Windows NT" |
| LoginForm.DropTrailingSlash | src/pages/LoginForm.js:62-63 | a trailing "/" is removed, exactly one, and a text without one is kept as it is |
| LoginForm.NormalizeBaseUrlSpec | src/pages/LoginForm.js:59-64 | a missing or empty address gives "" and nothing else does; otherwise the trimmed address, less its one trailing "/" when it ends in "/" and unchanged otherwise, behind "https://" exactly when it had no scheme |
| LoginForm.NormalizeKeepsSecondSlash | src/pages/LoginForm.js:62-63 | "https://a//" normalises to "https://a/", so normalising is not idempotent |
| LoginForm.NormalizeBaseUrl | src/pages/LoginForm.js:59-64 | `normalizeBaseUrl`: "" for no value; otherwise the trimmed text with one trailing slash removed, behind "https://" unless it has an http or https scheme of its own (LoginForm.NormalizeBaseUrlSpec, LoginForm.NormalizeKeepsSecondSlash) |
| LoginForm.DecideSpec | src/pages/LoginForm.js:115-124 | login is accepted exactly when the typed credentials are non-empty and equal the stored `saved_mobilenumber` and `saved_password`; it reports missing credentials exactly when one of those is unset |
| LoginForm.Decide | src/pages/LoginForm.js:115-124 | the submit branch: missing credentials, accept exactly on equal non-empty credentials, reject otherwise (LoginForm.DecideSpec) |
| LoginForm.LoginRepeatable | src/pages/LoginForm.js:124-136 | after a successful login the same credentials are accepted again, and "remember me" only adds the flag |
| LoginForm.SettingsDoNotAffectLogin | src/pages/LoginForm.js:198-206 | saving the settings never changes what login decides |
| LoginForm.PrefilledLoginRejectedOnKeyMismatch | src/pages/LoginForm.js:89-124 | when `saved_mobilenumber` differs from `saved_sett_mobilenumber`, the pre-filled login is rejected |
| LoginForm.DigitsOnly | src/pages/LoginForm.js:451 | the mobile-number input keeps only digits and leaves a digit string unchanged |
| LoginForm.LoginScreenState.constructor | src/pages/LoginForm.js:41-54 | the screen starts with empty fields, no error, the settings closed and "remember me" off |
| LoginForm.LoginScreenState.Prefill | src/pages/LoginForm.js:88-106 | the settings fields take the stored values that are set; the login fields are filled only when both the number and the password are set; the app goes home only when `remember_me` is set too |
| LoginForm.LoginScreenState.OnUsernameInput | src/pages/LoginForm.js:304 | the username field holds the typed digits only, and nothing else changes |
| LoginForm.LoginScreenState.OnMobileNumberInput | src/pages/LoginForm.js:451 | the mobile-number field holds the typed digits only, and nothing else changes |
| LoginForm.LoginScreenState.HandleSubmit | src/pages/LoginForm.js:109-144 | missing credentials open the settings with an error; a match writes the session keys and goes home; a mismatch shows an error and writes nothing |
| LoginForm.LoginScreenState.StartSession | src/pages/LoginForm.js:124-137 | the remembered credentials (when asked), the session token, user name, full name and role are written, and the route becomes home |
| LoginForm.LoginScreenState.HandleSaveSettings | src/pages/LoginForm.js:198-209 | with a field empty, only the error is set; otherwise the three settings are stored, the panel closes and "Settings saved." is shown |
| Sync.AsWrittenDefaultDoublesScheme | src/utils/global_functions.js:13-22 | with no saved address, the post goes to "https://http://localhost:5100/api/location/confirm" |
| Sync.AsWrittenDoublesScheme | src/utils/global_functions.js:13-22 | every saved address that has a scheme ends up behind a second scheme |
| Sync.ConfirmUrlDefault | src/utils/global_functions.js:13-22 | the corrected address for no saved address is the default "http://localhost:5100" itself followed by "/api/location/confirm", with no second scheme |
| Sync.ConfirmUrlAgreesOnBareHosts | src/utils/global_functions.js:22 | for a bare host, the corrected address is the address as written |
| Sync.ConfirmUrlAsWritten | src/utils/global_functions.js:13-22 | the sync address as written: "https://" before the saved address or the default, so a saved scheme is doubled (Sync.AsWrittenDefaultDoublesScheme, Sync.AsWrittenDoublesScheme) |
| Sync.PromoteAllSpec | src/utils/global_functions.js:25-26 | syncing every pending record leaves none pending; each pending record becomes posted and changes only in its status; other records and all keys stay |
| Sync.PromoteKeySpec | src/utils/global_functions.js:27-28 | syncing one key marks only that record posted; a key not in the table changes nothing |
| Sync.MarkPosted | src/utils/global_functions.js:26-28 | `{ recordstatusid: 3 }`: the record marked as posted, every other field kept (Sync.PromoteAllSpec) |
| Sync.Promoted | src/utils/global_functions.js:25-28 | the attendance table after a successful sync: every pending record or the one key marked as posted (Sync.PromoteAllSpec, Sync.PromoteKeySpec, Sync.PromoteIdempotent) |
| Sync.PromoteIdempotent | src/utils/global_functions.js:25-28 | a second successful sync right after the first changes nothing more |
| Sync.PromoteFreshRecord | src/components/FingerprintScanner.js:124-125 | syncing the record just added marks exactly that record posted |
| Sync.PromoteAllCounts | src/utils/global_functions.js:26 | after syncing all, the posted count grows by the old pending count and nothing is pending |
| Sync.CountWhere | src/utils/global_functions.js:26 | a count of records never exceeds the table's size |
| Sync.HandleSync | src/utils/global_functions.js:12-35 | a missing or empty list posts nothing and reports "No transformed data to sync."; otherwise it posts the list to "https://" + the saved address (or "http://localhost:5100") + "/api/location/confirm", as written; it succeeds exactly when the post and the local update succeed and a key or 0 was given; the table is promoted exactly on success and is unchanged otherwise |
| AttendanceHistory.StatusFilter | src/components/AttendanceHistory.js:75 | the history shows posted records exactly for `?type=posted`, and pending ones otherwise |
| AttendanceHistory.Title | src/components/AttendanceHistory.js:65-68 | the title says "Posted History" exactly when posted records are shown |
| AttendanceHistory.StatusChipLabel | src/components/AttendanceHistory.js:48-56 | the chip says "Posted" exactly for status 3, and "Pending" for anything else |
| AttendanceHistory.FormatDateTime | src/components/AttendanceHistory.js:29-46 | no date and no time give ""; otherwise the locale date and time joined by " • ", or the trimmed "date time" when formatting throws |
| AttendanceHistory.InsertByDateSpec | src/components/AttendanceHistory.js:80 | inserting into a date-sorted list keeps it sorted and adds just that record |
| AttendanceHistory.SortByDateSpec | src/components/AttendanceHistory.js:80 | `sortBy("confirm_date")` returns the same records, ascending by date |
| AttendanceHistory.InsertByDate | src/components/AttendanceHistory.js:80 | one insertion step of `sortBy`: the list stays ascending and gains exactly the record (AttendanceHistory.InsertByDateSpec) |
| AttendanceHistory.SortByDate | src/components/AttendanceHistory.js:80 | `sortBy("confirm_date")`: the same records, ascending by date (AttendanceHistory.SortByDateSpec) |
| AttendanceHistory.Reversed | src/components/AttendanceHistory.js:81 | `reverse` puts the i-th record from the end at position i |
| AttendanceHistory.ReversedMultiset | src/components/AttendanceHistory.js:81 | reversing keeps the same records |
| AttendanceHistory.ReversedAscending | src/components/AttendanceHistory.js:80-81 | reversing a list sorted oldest first puts no record before a later-listed older one: the result is newest first |
| AttendanceHistory.NewestFirstSpec | src/components/AttendanceHistory.js:75-81 | the history lists exactly the records of the chosen status, each once, newest date first |
| AttendanceHistory.NewestFirst | src/components/AttendanceHistory.js:75-81 | the query's result: the records of one status, each once, newest date first (AttendanceHistory.NewestFirstSpec) |
| AttendanceHistory.HistoryView.constructor | src/components/AttendanceHistory.js:59-60 | the view starts empty and loading |
| AttendanceHistory.HistoryView.FetchData | src/components/AttendanceHistory.js:72-88 | loading ends; the list is the newest-first records of the chosen status, or empty when the query throws |
| AttendanceHistory.HistoryView.ClearHistory | src/components/AttendanceHistory.js:97-99 | the list becomes empty |
| HomePage.SyncPayloadSpec | src/pages/HomePage.js:69-87 | the posted list has one entry per pending record, projects pending records only, and is empty exactly when nothing is pending |
| HomePage.ToSyncEntry | src/pages/HomePage.js:74-86 | the projection of one stored record onto the fields posted to the server (HomePage.SyncPayloadSpec) |
| HomePage.SyncPayload | src/pages/HomePage.js:69-87 | the list posted for the pending records, one entry each in key order, empty exactly when nothing is pending (HomePage.SyncPayloadSpec) |
| HomePage.SelectCount | src/pages/HomePage.js:69-72 | the pending query returns as many records as are pending |
| HomePage.Home.constructor | src/pages/HomePage.js:56-61 | the page starts not syncing with the notice closed |
| HomePage.Home.HandleSyncClick | src/pages/HomePage.js:65-103 | a rejected pending query stops the handler with nothing posted or shown and the sync flag still set; otherwise it posts the pending projection to the as-written sync address, or nothing when there is none; on success the table and the shown history are emptied, unless the clear is rejected, which leaves the promoted table, the history and the notice as they were and the flag set; otherwise both stay; the notice shows the sync's message with success or error colour |
| HomePage.Home.ShowSyncResult | src/pages/HomePage.js:91-100 | the handler completes exactly when the sync failed or the clear succeeded; a rejected clear changes nothing; success clears the table and the shown history, failure keeps both; the sync's message is shown with success or error severity |
| FingerprintScanner.GpsRecordSpec | src/components/FingerprintScanner.js:99-117 | a fingerprint record is pending with no file name and no type; its sync projection carries its own street, building and nearby values |
| FingerprintScanner.ImageRecordNeverSynced | src/components/FingerprintScanner.js:186-215 | a photo record has no status, so it is neither pending nor posted and adding it leaves the home page's sync payload unchanged |
| FingerprintScanner.ImageFilenameSpec | src/components/FingerprintScanner.js:175-176 | for an ISO timestamp the unique id is exactly its digits, and the file name is number, "_", digits, ".jpg" |
| FingerprintScanner.FilterCharsAgree | src/components/FingerprintScanner.js:175 | removing the separators from an ISO timestamp is keeping its digits |
| FingerprintScanner.ConfirmDateOfIso | src/components/FingerprintScanner.js:92 | the stored date is the part of the timestamp before "T" |
| FingerprintScanner.ConfirmDate | src/components/FingerprintScanner.js:92 | `toISOString().split("T")[0]`: the part of the timestamp before "T" (FingerprintScanner.ConfirmDateOfIso) |
| FingerprintScanner.ConfirmTime | src/components/FingerprintScanner.js:93 | `toTimeString().split(" ")[0]`: the part of the local time text before the first space (JsText.SplitPrefix) |
| FingerprintScanner.CaptureAddress | src/components/FingerprintScanner.js:79-84 | "Unknown location" unless the browser is online and the geocoder returned a non-empty name (used by FingerprintScanner.Scanner.OnPosition) |
| FingerprintScanner.GpsRecord | src/components/FingerprintScanner.js:99-117 | the pending record a fingerprint capture stores and posts (FingerprintScanner.GpsRecordSpec) |
| FingerprintScanner.UniqueId | src/components/FingerprintScanner.js:175 | the digits of the ISO timestamp (FingerprintScanner.ImageFilenameSpec, FingerprintScanner.FilterCharsAgree) |
| FingerprintScanner.ImageFilename | src/components/FingerprintScanner.js:176 | number, "_", the timestamp digits, ".jpg" (FingerprintScanner.ImageFilenameSpec) |
| FingerprintScanner.ImageRecord | src/components/FingerprintScanner.js:186-205 | the photo record, with no status, so it never joins the sync payload (FingerprintScanner.ImageRecordNeverSynced) |
| FingerprintScanner.Scanner.constructor | src/components/FingerprintScanner.js:41-47 | the screen starts idle, with no error, location, fallback, image or comment, and the notice closed |
| FingerprintScanner.Scanner.HandleFingerprintClick | src/components/FingerprintScanner.js:51-153 | no geolocation or a failed online geocode shows an error and the camera fallback and stores nothing; a GPS error shows its error; otherwise the pending record is stored (and synced at once to the as-written sync address, and promoted on success, when the server answers), the location is shown, and the notice reports success, offline storage or failure |
| FingerprintScanner.Scanner.OnPosition | src/components/FingerprintScanner.js:75-144 | an online geocode failure shows the error and the camera fallback and stores nothing; otherwise the record carries the found or "Unknown location" address, is stored (and synced to the as-written sync address when the server answers), the capture is shown, and the notice reports success, offline storage or failure |
| FingerprintScanner.Scanner.HandleImageSelect | src/components/FingerprintScanner.js:155-224 | no file changes nothing; a read failure leaves the screen loading; otherwise the photo is posted to the as-written sync address when online (nothing stored) or stored when offline, and the image is shown |
| FingerprintScanner.Scanner.StoreAndSync | src/components/FingerprintScanner.js:121-133 | a failed add stores nothing and reports failure; otherwise the record is appended under the next key, posted to the as-written sync address when online and promoted when that sync succeeds |
| FingerprintScanner.Scanner.SendOrStoreImage | src/components/FingerprintScanner.js:209-220 | online posts the photo to the as-written sync address and leaves the table alone; offline appends it, or reports a failed add |
| VacationDialog.PayloadOfSpec | src/components/VacationDialog.js:66-75 | picked dates read back as those dates and picked times as those minutes; a partly typed field gives "Invalid Date"; `date` repeats the first day |
| VacationDialog.PayloadOf | src/components/VacationDialog.js:66-75 | the request body built from the dialog's fields (VacationDialog.PayloadOfSpec) |
| VacationDialog.SaveVacationUrl | src/components/VacationDialog.js:83 | `https://${apiUrl}/api/save-vacation`, a missing address printing as "null" (VacationDialog.Dialog.HandleSubmit) |
| VacationDialog.Dialog.constructor | src/components/VacationDialog.js:23-29 | the dialog starts at today, 08:00 to 16:00, with no remark, types or code |
| VacationDialog.Dialog.OnOpen | src/components/VacationDialog.js:32-62 | opening resets the fields to today, 08:00 to 16:00, an empty remark and no code; types are fetched only when an address is saved; loaded types select the first code; a null list or a failure empties them and reports the server's message or the fixed text |
| VacationDialog.Dialog.OnFromDateChange | src/components/VacationDialog.js:148 | the "from" date takes the picker's value, including null and an invalid date |
| VacationDialog.Dialog.OnToDateChange | src/components/VacationDialog.js:161 | the "to" date takes the picker's value, including null and an invalid date |
| VacationDialog.Dialog.OnTimeFromChange | src/components/VacationDialog.js:174 | the start time takes the picker's value, including null and an invalid time |
| VacationDialog.Dialog.OnTimeToChange | src/components/VacationDialog.js:187 | the end time takes the picker's value, including null and an invalid time |
| VacationDialog.Dialog.HandleSubmit | src/components/VacationDialog.js:64-97 | a cleared picker throws before anything is sent, saved or reported; otherwise, online, it posts the payload with `EmpID` (saved id or 123) and `OperCode` (saved username or "admin"); the payload is handed back exactly when offline or the post failed; the error is reported exactly when the online post failed |
| MyAttPage.FilterValue | src/pages/MyAttPage.js:158-164 | each single-status filter has its own status value; Vacation and Weekend belong to exactly their filters |
| MyAttPage.ApplyFilterSpec | src/pages/MyAttPage.js:166-172 | "all" shows every row; any other filter shows exactly the rows of its status; a filtered total never exceeds the month's total |
| MyAttPage.ApplyFilter | src/pages/MyAttPage.js:166-169 | the rows the chosen filter shows, in calendar order (MyAttPage.ApplyFilterSpec) |
| MyAttPage.VacancyCountByFilter | src/pages/MyAttPage.js:78 | under "vacation" every shown row counts, under other single filters none, under "all" the month's vacation days |
| MyAttPage.VacancyCount | src/pages/MyAttPage.js:78 | the number of shown rows whose status is "Vacation" (MyAttPage.VacancyCountByFilter) |
| MyAttPage.FilterKeepsAll | src/pages/MyAttPage.js:78 | a filter that accepts every row keeps the list |
| MyAttPage.FilterKeepsNone | src/pages/MyAttPage.js:78 | a filter that rejects every row keeps nothing |
| MyAttPage.MonthRows | src/pages/MyAttPage.js:155-156 | the month has one row per day, and row i is dated day i+1 |
| MyAttPage.ShownMonthRows | src/utils/attendanceUtils.js:14-22 | a readable month has one row per day; an invalid month (NaN days) has no rows |
| MyAttPage.RequestDates | src/pages/MyAttPage.js:83 | one date per stored request, in key order |
| MyAttPage.MonthQuery | src/pages/MyAttPage.js:91-101 | the month request: the saved address, the saved number as device id, and month and year, NaN for an unreadable month (MyAttPage.Page.LoadMonth) |
| MyAttPage.RemoveDate | src/pages/MyAttPage.js:504 | the list keeps exactly the dates other than the cancelled one |
| MyAttPage.RequestDatesAfterDelete | src/pages/MyAttPage.js:503-504 | deleting a date's requests from the table and the date from the list keep the two in agreement |
| MyAttPage.RequestDatesAppend | src/pages/MyAttPage.js:590-598 | the dates of a table with a request appended are the old dates followed by that request's date |
| MyAttPage.RowActionOf | src/pages/MyAttPage.js:486-544 | no action exactly on weekends; "cancel" exactly on requested weekdays; "add" otherwise |
| MyAttPage.CancelledRowOffersAdd | src/pages/MyAttPage.js:486-504 | after a cancel the cancelled day offers "add" again and other days keep their action |
| MyAttPage.Page.constructor | src/pages/MyAttPage.js:58-75 | the page starts on today's month with all statuses, loading, no rows and the dialog closed |
| MyAttPage.Page.Recompute | src/pages/MyAttPage.js:154-173 | the shown rows become the filtered month rows and the total becomes their total; nothing else changes |
| MyAttPage.Page.LoadRequestedVacancies | src/pages/MyAttPage.js:80-88 | when the table read succeeds, the requested dates become the dates of the stored requests; when it rejects, they stay as they were |
| MyAttPage.Page.LoadMonth | src/pages/MyAttPage.js:90-152 | queries the month at https://<saved address>/api/attendance with the saved number as the device id; on success shows the server's lists and replaces both caches, or keeps both when the transaction fails; on failure sets the offline warning and leaves both caches alone, then shows the cached lists when reading them back succeeds, or keeps the old rows with the page still loading when a read rejects; loading ends in every other case |
| MyAttPage.Page.StoreMonth | src/pages/MyAttPage.js:107-128 | the caches hold exactly the fetched rows and leaves |
| MyAttPage.Page.SelectMonth | src/pages/MyAttPage.js:251 | a cleared picker changes nothing; any other value, including the invalid date of a partly typed month (queried with NaN month and year), becomes the selected month and is loaded as in LoadMonth, with the same outcomes for a failed fetch and a rejected cache read |
| MyAttPage.Page.SetFilter | src/pages/MyAttPage.js:271 | the filter changes and the shown rows and total follow it |
| MyAttPage.Page.CancelRequest | src/pages/MyAttPage.js:502-504 | a rejected delete changes nothing; otherwise the day's requests leave the table and its date leaves the list, which still agrees with the table |
| MyAttPage.Page.OpenAddDialog | src/pages/MyAttPage.js:525-531 | the clicked date is kept and the page's time fields reset; a closed dialog opens and resets to today, 08:00 to 16:00 and no remark or code, loads the types when an address is saved, and its types failure becomes the page's error; an open dialog and the error stay as they were |
| MyAttPage.Page.OnSave | src/pages/MyAttPage.js:588-602 | the request is stored with the clicked row's date and that date joins the list; a failed add stores nothing and shows an error |
| MyAttPage.Page.SubmitVacation | src/pages/MyAttPage.js:583-603 | a cleared picker changes nothing and leaves the dialog open; otherwise a request is posted exactly when online; a handed-back payload is stored under the next key as the dialog's formatted period and remark with the clicked row's date, and that date joins the list; the error shown follows the failure; the dialog closes |
| MyAttPage.Page.ApplySubmitOutcome | src/pages/MyAttPage.js:583-603 | the dialog's message is shown, or the save error when the handed-back payload could not be stored; a stored payload is appended under the next key with the clicked row's date, and that date joins the list; without a payload or with a failed add nothing is stored; the dialog closes and the dates still agree with the table |
| MyAttPage.Page.CloseDialog | src/pages/MyAttPage.js:585 | only the dialog flag changes |

## Left out

- Network calls are not modelled as requests. The ping, the reverse geocoder, the public-IP
  lookup, the month fetch, the vacation-type fetch and the two posts appear only as their
  outcomes (parameters) and as the request they would send.
- The login screen's recovery and activation requests (`/api/recovery-credential`,
  `/api/generate-android-id`) are left out. They only fill fields from a server answer.
- The one-time certificate download and `clearPWAData` are left out: they are browser side
  effects outside the data model.
- Timers are left out: the 60-second camera fallback timer and the geolocation timeouts
  depend on wall-clock time.
- `isMounted`, `isSubmitting`, `hoveredRow` and the other presentation-only state are left
  out.
- Rendering (tables, chips, dialogs, drawers, the header) is left out.
- The handlers run to completion one after another. Interleaving of asynchronous handlers is
  not modelled.
- `FileReader` is reduced to its outcome, a data URL or a failure.
- `Intl.DateTimeFormat` is reduced to a parameter, so the locale text is not modelled.
- GPS coordinates are reals, with no floating-point rounding.
- `AttendanceUtils.TotalHours` sums hours as exact reals. The source adds JavaScript doubles
  (`sum + diff / 60`) and the page shows the total with `toFixed(2)`; neither the
  floating-point sum nor that rounding is modelled. `AttendanceUtils.TotalHoursAppend`,
  `AttendanceUtils.TotalHoursSnoc` and `AttendanceUtils.TotalHoursPartition` are exact
  identities here. In the program they hold only up to rounding.
- A JSON number and a string are not distinguished except in statuses. `EmpID` defaults to
  the number 123, modelled as its own constructor.
- A month response that lacks `data` or `AcceptedLeave` (which makes `map` throw) is left
  out. The response always carries both lists.
- `AttendanceUtils.RangeHours` does not model dayjs's fallback to `new Date(...)` for a
  clock text its pattern does not accept: such a time contributes 0.
- Server dates are modelled as the calendar dates dayjs reads from them: the `datein` of a
  row and the bounds of an accepted leave. Parsing arbitrary server text is not modelled.
  Neither is a leave whose `FromDate` or `ToDate` is null or unreadable. In the source such
  a bound is an invalid dayjs, `!isBefore` and `!isAfter` against it are both true, so the
  leave covers every day (src/utils/attendanceUtils.js:44-48) and every row of every month
  shows "Vacation".
- `Calendar.FormatDate` covers years 0 to 9999, the years that format as four digits.
- `LoginForm.NormalizeBaseUrlSpec`: for the bare input "http://" the result "http:/" is
  stated only as "scheme once a slash is added back".
- The leave rule relies on dayjs's `isBetween` plugin and the dialog's `dayjs("08:00",
  "HH:mm")` on `customParseFormat`. `attendanceUtils.js` registers neither; the model takes
  both as registered, as importing the date pickers' dayjs adapter does
  (src/pages/MyAttPage.js:34, src/components/VacationDialog.js:16).
- The remark and vacation-type fields' `onChange` handlers are not modelled as methods: the
  submit reads whatever text the dialog holds.
- `MyAttPage.Page.SelectMonth` sets the month and loads it. The effects that follow a month
  change (`MyAttPage.Page.LoadRequestedVacancies`, then `MyAttPage.Page.Recompute` for the
  shown rows and total) are separate methods it does not call itself, and the intermediate
  recompute React performs on the old rows before the fetch answers is not modelled.
- Snack colours are modelled as a severity; MUI styling is left out.
- The history dropdown, drawer, app bar, password field, service-worker registration and the
  development server are not part of this model.

## Findings

| source | as written | input that shows it | evidently intended | confidence | as-written member | corrected member |
|---|---|---|---|---|---|---|
| src/utils/global_functions.js:13-22 | the default server address "http://localhost:5100" is put behind a fixed "https://" | no `saved_sett_api_url` in storage: the post goes to "https://http://localhost:5100/api/location/confirm" | a scheme is added only when the address has none, as `normalizeBaseUrl` does in the login screen | high, not executed | Sync.AsWrittenDefaultDoublesScheme | Sync.ConfirmUrlDefault |

The handlers post where the code posts (`Sync.ConfirmUrlAsWritten`); the corrected address
is `Sync.ConfirmUrl`. `pingServer` (src/utils/global_functions.js:38) builds its address the
same way, but the ping is an input of the model, so only its answer appears.
