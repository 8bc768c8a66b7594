/** The local login screen (src/pages/LoginForm.js): credentials are checked against values
    kept in localStorage, a successful login writes the session keys, and a settings panel
    saves the employee's name, mobile number and server address. */
module LoginForm {
  import opened JsText
  import opened LocalStore

  // ---------------------------------------------------------------------------
  // normalizeBaseUrl

  /** `/^https?:\/\//i` */
  predicate HasHttpScheme(s: string) {
    StartsWithIgnoreCase(s, "http://") || StartsWithIgnoreCase(s, "https://")
  }

  /** `replace(/\/$/, "")`: removes one trailing slash when there is one, and only then. */
  function DropTrailingSlash(s: string): (r: string)
    ensures s != [] && s[|s| - 1] == '/' ==> r + "/" == s
    ensures (s == [] || s[|s| - 1] != '/') ==> r == s
  {
    if s != [] && s[|s| - 1] == '/' then
      assert s[..|s| - 1] + "/" == s;
      s[..|s| - 1]
    else s
  }

  /** `normalizeBaseUrl(val)` */
  function NormalizeBaseUrl(val: Option<string>): string {
    if !Truthy(val) then ""
    else
      var t := Trim(val.value);
      if HasHttpScheme(t) then DropTrailingSlash(t) else "https://" + DropTrailingSlash(t)
  }

  /** An empty or missing address normalises to "". Any other address is the trimmed text
      with its one trailing "/" removed when it has one, behind "https://" exactly when it had no scheme
      of its own; so it carries an http or https scheme, except that a bare "http://" loses
      the scheme's last slash. */
  lemma NormalizeBaseUrlSpec(val: Option<string>)
    ensures !Truthy(val) <==> NormalizeBaseUrl(val) == ""
    ensures Truthy(val) ==> HasHttpScheme(NormalizeBaseUrl(val)) || HasHttpScheme(NormalizeBaseUrl(val) + "/")
    ensures Truthy(val) ==>
      var t, u := Trim(val.value), NormalizeBaseUrl(val);
      var core := if HasHttpScheme(t) then u else u[8..];
      && (!HasHttpScheme(t) ==> StartsWith(u, "https://"))
      && (t != [] && t[|t| - 1] == '/' ==> core + "/" == t)
      && ((t == [] || t[|t| - 1] != '/') ==> core == t)
  {
    if Truthy(val) {
      var t := Trim(val.value);
      if !HasHttpScheme(t) {
        var u := NormalizeBaseUrl(val);
        assert u == "https://" + DropTrailingSlash(t);
        PrefixIgnoringCase("https://", DropTrailingSlash(t));
        assert u[8..] == DropTrailingSlash(t);
      }
    }
  }

  lemma PrefixIgnoringCase(p: string, x: string)
    ensures StartsWithIgnoreCase(p + x, p) && StartsWith(p + x, p)
  {
    assert (p + x)[..|p|] == p;
    forall i | 0 <= i < |p| ensures (p + x)[i] == p[i] { }
  }

  /** Only one trailing slash goes: "https://a//" becomes "https://a/", so normalising is
      not idempotent. */
  lemma NormalizeKeepsSecondSlash()
    ensures NormalizeBaseUrl(Some("https://a//")) == "https://a/"
    ensures NormalizeBaseUrl(Some(NormalizeBaseUrl(Some("https://a//")))) == "https://a"
  {
    var s := "https://a//";
    TrimOfTrimmed(s);
    assert HasHttpScheme(s) by { assert StartsWithIgnoreCase(s, "https://"); }
    var u := "https://a/";
    assert s[..|s| - 1] == u;
    TrimOfTrimmed(u);
    assert HasHttpScheme(u) by { assert StartsWithIgnoreCase(u, "https://"); }
    assert u[..|u| - 1] == "https://a";
  }

  // ---------------------------------------------------------------------------
  // Credentials and session keys

  datatype LoginDecision = NoCredentials | Accept | Reject

  /** What submit decides for the typed credentials, from the stored ones. */
  function Decide(items: map<string, string>, username: string, password: string): LoginDecision {
    var su, sp := Lookup(items, "saved_mobilenumber"), Lookup(items, "saved_password");
    if !Truthy(su) || !Truthy(sp) then NoCredentials
    else if username == su.value && password == sp.value then Accept
    else Reject
  }

  /** The storage after a successful login. */
  function SessionWrites(items: map<string, string>, username: string, password: string, rememberMe: bool): map<string, string> {
    var remembered :=
      if rememberMe then items["saved_mobilenumber" := username]["saved_password" := password]["remember_me" := "1"]
      else items;
    remembered["sessionToken" := "local-auth"]["shared_username" := username]
      ["shared_fullname" := OrElse(Lookup(remembered, "saved_sett_fullname"), "")]["userrole" := "local"]
  }

  /** The storage after saving the settings panel. */
  function SettingsWrites(items: map<string, string>, fullName: string, mobileNumber: string, apiBaseUrl: string): map<string, string> {
    items["saved_sett_fullname" := fullName]["saved_sett_mobilenumber" := mobileNumber]["saved_sett_api_url" := apiBaseUrl]
  }

  /** Submit accepts exactly the stored, non-empty credentials. */
  lemma DecideSpec(items: map<string, string>, username: string, password: string)
    ensures Decide(items, username, password) == Accept <==>
      username != "" && password != ""
      && Lookup(items, "saved_mobilenumber") == Some(username) && Lookup(items, "saved_password") == Some(password)
    ensures Decide(items, username, password) == NoCredentials <==>
      !Truthy(Lookup(items, "saved_mobilenumber")) || !Truthy(Lookup(items, "saved_password"))
  {
  }

  /** A successful login leaves the stored credentials as they were, so logging in again with
      the same credentials succeeds again; "remember me" adds nothing but the flag. */
  lemma LoginRepeatable(items: map<string, string>, username: string, password: string, rememberMe: bool)
    requires Decide(items, username, password) == Accept
    ensures Decide(SessionWrites(items, username, password, rememberMe), username, password) == Accept
    ensures SessionWrites(items, username, password, true) == SessionWrites(items, username, password, false)["remember_me" := "1"]
  {
    var w, v := SessionWrites(items, username, password, true), SessionWrites(items, username, password, false)["remember_me" := "1"];
    assert items["saved_mobilenumber" := username]["saved_password" := password] == items;
    assert Lookup(items["remember_me" := "1"], "saved_sett_fullname") == Lookup(items, "saved_sett_fullname");
    assert w.Keys == v.Keys;
  }

  /** Saving the settings never changes what submit decides: the settings write
      `saved_sett_mobilenumber`, while submit compares against `saved_mobilenumber`. */
  lemma SettingsDoNotAffectLogin(items: map<string, string>, fullName: string, mobileNumber: string, apiBaseUrl: string,
                                 username: string, password: string)
    ensures Decide(SettingsWrites(items, fullName, mobileNumber, apiBaseUrl), username, password) == Decide(items, username, password)
  {
    var w := SettingsWrites(items, fullName, mobileNumber, apiBaseUrl);
    assert Lookup(w, "saved_mobilenumber") == Lookup(items, "saved_mobilenumber");
    assert Lookup(w, "saved_password") == Lookup(items, "saved_password");
  }

  /** `replace(/\D/g, "")` on the mobile-number inputs. */
  function DigitsOnly(input: string): (r: string)
    ensures forall i :: 0 <= i < |r| ==> IsAsciiDigit(r[i])
    ensures (forall i :: 0 <= i < |input| ==> IsAsciiDigit(input[i])) ==> r == input
  {
    KeepDigitsSpec(input);
    KeepDigits(input)
  }

  // ---------------------------------------------------------------------------
  // The screen

  datatype Route = LoginScreen | Home

  class LoginScreenState {
    var username: string
    var password: string
    var rememberMe: bool
    var errorMessage: string
    var settingsOpen: bool
    var fullName: string
    var mobileNumber: string
    var apiBaseUrl: string
    var settingsError: string
    var snack: string
    var route: Route
    const storage: Storage

    constructor(storage: Storage)
      ensures this.storage == storage
      ensures username == "" && password == "" && !rememberMe && errorMessage == "" && !settingsOpen
      ensures fullName == "" && mobileNumber == "" && apiBaseUrl == "" && settingsError == "" && snack == ""
      ensures route == LoginScreen
    {
      this.storage := storage;
      username, password, rememberMe, errorMessage, settingsOpen := "", "", false, "", false;
      fullName, mobileNumber, apiBaseUrl, settingsError, snack := "", "", "", "", "";
      route := LoginScreen;
    }

    /** The mount effect: fills the settings fields from storage, and the login fields when
        both `saved_sett_mobilenumber` and `saved_password` are set, going straight to the
        home page when `remember_me` is set as well. */
    method Prefill()
      modifies this`apiBaseUrl, this`fullName, this`mobileNumber, this`username, this`password, this`route
      ensures var items := storage.items;
        var su, sp := Lookup(items, "saved_sett_mobilenumber"), Lookup(items, "saved_password");
        var api, name := Lookup(items, "saved_sett_api_url"), Lookup(items, "saved_sett_fullname");
        && apiBaseUrl == (if Truthy(api) then api.value else old(apiBaseUrl))
        && fullName == (if Truthy(name) then name.value else old(fullName))
        && mobileNumber == (if Truthy(su) then su.value else old(mobileNumber))
        && (Truthy(su) && Truthy(sp) ==> username == su.value && password == sp.value)
        && (!(Truthy(su) && Truthy(sp)) ==> username == old(username) && password == old(password))
        && route == (if Truthy(su) && Truthy(sp) && Truthy(Lookup(items, "remember_me")) then Home else old(route))
    {
      var savedUsername := storage.Get("saved_sett_mobilenumber");
      var savedPassword := storage.Get("saved_password");
      var savedApiUrl := storage.Get("saved_sett_api_url");
      var savedFullName := storage.Get("saved_sett_fullname");
      if Truthy(savedApiUrl) { apiBaseUrl := savedApiUrl.value; }
      if Truthy(savedFullName) { fullName := savedFullName.value; }
      if Truthy(savedUsername) { mobileNumber := savedUsername.value; }
      if Truthy(savedUsername) && Truthy(savedPassword) {
        username := savedUsername.value;
        password := savedPassword.value;
        if Truthy(storage.Get("remember_me")) {
          route := Home;
        }
      }
    }

    /** Typing into the username field. */
    method OnUsernameInput(input: string)
      modifies this`username
      ensures username == DigitsOnly(input)
      ensures password == old(password) && storage.items == old(storage.items)
    {
      username := DigitsOnly(input);
    }

    /** Typing into the settings' mobile-number field. */
    method OnMobileNumberInput(input: string)
      modifies this`mobileNumber
      ensures mobileNumber == DigitsOnly(input)
      ensures username == old(username) && storage.items == old(storage.items)
    {
      mobileNumber := DigitsOnly(input);
    }

    /** `handleSubmit` */
    method HandleSubmit()
      modifies this`errorMessage, this`settingsOpen, this`route, storage
      ensures var d := Decide(old(storage.items), username, password);
        && (d == NoCredentials ==>
              errorMessage == "No saved credentials. Please configure settings first." && settingsOpen
              && storage.items == old(storage.items) && route == old(route))
        && (d == Accept ==>
              storage.items == SessionWrites(old(storage.items), username, password, rememberMe)
              && route == Home && errorMessage == "" && settingsOpen == old(settingsOpen))
        && (d == Reject ==>
              errorMessage == "Invalid username or password." && storage.items == old(storage.items)
              && route == old(route) && settingsOpen == old(settingsOpen))
    {
      errorMessage := "";
      var storedUsername := storage.Get("saved_mobilenumber");
      var storedPassword := storage.Get("saved_password");
      if !Truthy(storedUsername) || !Truthy(storedPassword) {
        errorMessage := "No saved credentials. Please configure settings first.";
        settingsOpen := true;
        return;
      }
      if username == storedUsername.value && password == storedPassword.value {
        StartSession();
      } else {
        errorMessage := "Invalid username or password.";
      }
    }

    /** The accepted branch of `handleSubmit`: remember the credentials when asked to, write
        the session keys and go home. */
    method StartSession()
      modifies this`route, storage
      ensures storage.items == SessionWrites(old(storage.items), username, password, rememberMe) && route == Home
    {
      if rememberMe {
        storage.Set("saved_mobilenumber", username);
        storage.Set("saved_password", password);
        storage.Set("remember_me", "1");
      }
      storage.Set("sessionToken", "local-auth");
      storage.Set("shared_username", username);
      var savedFullName := storage.Get("saved_sett_fullname");
      storage.Set("shared_fullname", OrElse(savedFullName, ""));
      storage.Set("userrole", "local");
      route := Home;
    }

    /** `handleSaveSettings` */
    method HandleSaveSettings()
      modifies this`settingsError, this`settingsOpen, this`snack, storage
      ensures var missing := fullName == "" || mobileNumber == "" || apiBaseUrl == "";
        && (missing ==>
              settingsError == "Please fill in all required fields." && storage.items == old(storage.items)
              && settingsOpen == old(settingsOpen) && snack == old(snack))
        && (!missing ==>
              settingsError == "" && !settingsOpen && snack == "Settings saved."
              && storage.items == SettingsWrites(old(storage.items), fullName, mobileNumber, apiBaseUrl))
    {
      if fullName == "" || mobileNumber == "" || apiBaseUrl == "" {
        settingsError := "Please fill in all required fields.";
        return;
      }
      settingsError := "";
      storage.Set("saved_sett_fullname", fullName);
      storage.Set("saved_sett_mobilenumber", mobileNumber);
      storage.Set("saved_sett_api_url", apiBaseUrl);
      settingsOpen := false;
      snack := "Settings saved.";
    }
  }

  /** The pre-filled credentials come from `saved_sett_mobilenumber`; when that differs from
      the `saved_mobilenumber` submit compares against, the pre-filled login is rejected. */
  lemma PrefilledLoginRejectedOnKeyMismatch(items: map<string, string>)
    requires Truthy(Lookup(items, "saved_sett_mobilenumber")) && Truthy(Lookup(items, "saved_password"))
    requires Truthy(Lookup(items, "saved_mobilenumber"))
    requires Lookup(items, "saved_mobilenumber") != Lookup(items, "saved_sett_mobilenumber")
    ensures Decide(items, Lookup(items, "saved_sett_mobilenumber").value, Lookup(items, "saved_password").value) == Reject
  {
  }
}
