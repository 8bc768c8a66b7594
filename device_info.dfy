/** The device description stored with every attendance record (`getBrowserAndOS` in
    src/utils/global_functions.js): the browser and the operating system named by the
    first substring test of a fixed ladder that the user-agent string passes. */
module DeviceInfo {
  import opened JsText

  const BrowserNames: set<string> := {"Firefox", "Microsoft Edge", "Chrome", "Safari", "Opera", "Unknown"}
  const OsNames: set<string> :=
    {"Windows 10", "Windows 8.1", "Windows 7", "macOS", "Android", "iOS", "Linux", "Unknown"}

  /** The browser ladder. */
  function Browser(ua: string): (b: string)
    ensures b in BrowserNames
  {
    if Includes(ua, "Firefox/") then "Firefox"
    else if Includes(ua, "Edg/") then "Microsoft Edge"
    else if Includes(ua, "Chrome/") && !Includes(ua, "Edg/") then "Chrome"
    else if Includes(ua, "Safari/") && !Includes(ua, "Chrome/") then "Safari"
    else if Includes(ua, "OPR/") || Includes(ua, "Opera") then "Opera"
    else "Unknown"
  }

  /** The operating-system ladder. */
  function Os(ua: string): (o: string)
    ensures o in OsNames
  {
    if Includes(ua, "Windows NT 10.0") then "Windows 10"
    else if Includes(ua, "Windows NT 6.3") then "Windows 8.1"
    else if Includes(ua, "Windows NT 6.1") then "Windows 7"
    else if Includes(ua, "Mac OS X") then "macOS"
    else if Includes(ua, "Android") then "Android"
    else if Includes(ua, "iPhone") || Includes(ua, "iPad") then "iOS"
    else if Includes(ua, "Linux") then "Linux"
    else "Unknown"
  }

  /** `getBrowserAndOS()` for the browser's user-agent string `ua`. */
  function GetBrowserAndOS(ua: string): string {
    "Browser: " + Browser(ua) + ", OS: " + Os(ua)
  }

  /** The text always has the shape "Browser: B, OS: O" with B and O from the fixed lists. */
  lemma DeviceNameShape(ua: string)
    ensures exists b, o | b in BrowserNames && o in OsNames :: GetBrowserAndOS(ua) == "Browser: " + b + ", OS: " + o
  {
    assert Browser(ua) in BrowserNames && Os(ua) in OsNames;
  }

  // ---------------------------------------------------------------------------
  // The ladders as first-match rule tables

  /** A rule matches when the text contains one of `anyOf` and none of `noneOf`. */
  datatype Rule = Rule(anyOf: seq<string>, noneOf: seq<string>, name: string)

  predicate RuleMatches(r: Rule, ua: string) {
    (exists i | 0 <= i < |r.anyOf| :: Includes(ua, r.anyOf[i]))
    && (forall i | 0 <= i < |r.noneOf| :: !Includes(ua, r.noneOf[i]))
  }

  /** The name of the first rule that matches, or "Unknown". */
  function FirstMatching(rules: seq<Rule>, ua: string): string {
    if rules == [] then "Unknown"
    else if RuleMatches(rules[0], ua) then rules[0].name
    else FirstMatching(rules[1..], ua)
  }

  /** `FirstMatching` names the first matching rule, and "Unknown" only when none matches. */
  lemma {:induction false} FirstMatchingSpec(rules: seq<Rule>, ua: string)
    requires forall i | 0 <= i < |rules| :: rules[i].name != "Unknown"
    ensures FirstMatching(rules, ua) == "Unknown" <==> forall i | 0 <= i < |rules| :: !RuleMatches(rules[i], ua)
    ensures forall k | 0 <= k < |rules| ::
      RuleMatches(rules[k], ua) && (forall i | 0 <= i < k :: !RuleMatches(rules[i], ua))
      ==> FirstMatching(rules, ua) == rules[k].name
  {
    if rules != [] {
      FirstMatchingSpec(rules[1..], ua);
      forall k | 0 < k < |rules| && RuleMatches(rules[k], ua) && (forall i | 0 <= i < k :: !RuleMatches(rules[i], ua))
        ensures FirstMatching(rules, ua) == rules[k].name
      {
        assert !RuleMatches(rules[0], ua);
        assert rules[1..][k - 1] == rules[k];
        forall i | 0 <= i < k - 1 ensures !RuleMatches(rules[1..][i], ua) {
          assert rules[1..][i] == rules[i + 1];
        }
      }
      if FirstMatching(rules, ua) == "Unknown" {
        assert !RuleMatches(rules[0], ua);
        forall i | 0 <= i < |rules| ensures !RuleMatches(rules[i], ua) {
          if i > 0 { assert rules[i] == rules[1..][i - 1]; }
        }
      }
    }
  }

  const BrowserRules: seq<Rule> := [
    Rule(["Firefox/"], [], "Firefox"),
    Rule(["Edg/"], [], "Microsoft Edge"),
    Rule(["Chrome/"], ["Edg/"], "Chrome"),
    Rule(["Safari/"], ["Chrome/"], "Safari"),
    Rule(["OPR/", "Opera"], [], "Opera")
  ]

  const OsRules: seq<Rule> := [
    Rule(["Windows NT 10.0"], [], "Windows 10"),
    Rule(["Windows NT 6.3"], [], "Windows 8.1"),
    Rule(["Windows NT 6.1"], [], "Windows 7"),
    Rule(["Mac OS X"], [], "macOS"),
    Rule(["Android"], [], "Android"),
    Rule(["iPhone", "iPad"], [], "iOS"),
    Rule(["Linux"], [], "Linux")
  ]

  /** The browser ladder is the first-match reading of its rule table. */
  lemma BrowserIsFirstMatch(ua: string)
    ensures Browser(ua) == FirstMatching(BrowserRules, ua)
  {
    var r := BrowserRules;
    OneNeedle(ua, "Firefox/", [], "Firefox");
    OneNeedle(ua, "Edg/", [], "Microsoft Edge");
    OneNeedle(ua, "Chrome/", ["Edg/"], "Chrome");
    OneNeedle(ua, "Safari/", ["Chrome/"], "Safari");
    TwoNeedles(ua, "OPR/", "Opera", "Opera");
    var r1 := r[1..];
    var r2 := r1[1..];
    var r3 := r2[1..];
    var r4 := r3[1..];
    assert r4[1..] == [];
    assert FirstMatching(r4, ua) == if Includes(ua, "OPR/") || Includes(ua, "Opera") then "Opera" else "Unknown";
    assert FirstMatching(r3, ua) ==
      if Includes(ua, "Safari/") && !Includes(ua, "Chrome/") then "Safari" else FirstMatching(r4, ua);
    assert FirstMatching(r2, ua) ==
      if Includes(ua, "Chrome/") && !Includes(ua, "Edg/") then "Chrome" else FirstMatching(r3, ua);
    assert FirstMatching(r1, ua) == if Includes(ua, "Edg/") then "Microsoft Edge" else FirstMatching(r2, ua);
  }

  /** The operating-system ladder is the first-match reading of its rule table. */
  lemma OsIsFirstMatch(ua: string)
    ensures Os(ua) == FirstMatching(OsRules, ua)
  {
    var r := OsRules;
    OneNeedle(ua, "Windows NT 10.0", [], "Windows 10");
    OneNeedle(ua, "Windows NT 6.3", [], "Windows 8.1");
    OneNeedle(ua, "Windows NT 6.1", [], "Windows 7");
    OneNeedle(ua, "Mac OS X", [], "macOS");
    OneNeedle(ua, "Android", [], "Android");
    TwoNeedles(ua, "iPhone", "iPad", "iOS");
    OneNeedle(ua, "Linux", [], "Linux");
    var r1 := r[1..];
    var r2 := r1[1..];
    var r3 := r2[1..];
    var r4 := r3[1..];
    var r5 := r4[1..];
    var r6 := r5[1..];
    assert r6[1..] == [];
    assert FirstMatching(r6, ua) == if Includes(ua, "Linux") then "Linux" else "Unknown";
    assert FirstMatching(r5, ua) ==
      if Includes(ua, "iPhone") || Includes(ua, "iPad") then "iOS" else FirstMatching(r6, ua);
    assert FirstMatching(r4, ua) == if Includes(ua, "Android") then "Android" else FirstMatching(r5, ua);
    assert FirstMatching(r3, ua) == if Includes(ua, "Mac OS X") then "macOS" else FirstMatching(r4, ua);
    assert FirstMatching(r2, ua) == if Includes(ua, "Windows NT 6.1") then "Windows 7" else FirstMatching(r3, ua);
    assert FirstMatching(r1, ua) == if Includes(ua, "Windows NT 6.3") then "Windows 8.1" else FirstMatching(r2, ua);
  }

  lemma OneNeedle(ua: string, n: string, unless: seq<string>, name: string)
    requires |unless| <= 1
    ensures RuleMatches(Rule([n], unless, name), ua) <==>
      Includes(ua, n) && (unless == [] || !Includes(ua, unless[0]))
  {
    if Includes(ua, n) {
      assert [n][0] == n;
    }
  }

  lemma TwoNeedles(ua: string, n: string, m: string, name: string)
    ensures RuleMatches(Rule([n, m], [], name), ua) <==> Includes(ua, n) || Includes(ua, m)
  {
    if Includes(ua, n) {
      assert [n, m][0] == n;
    } else if Includes(ua, m) {
      assert [n, m][1] == m;
    }
  }

  /** Browser precedence: "Firefox/" wins over everything, "Edg/" over "Chrome/", Safari
      needs the absence of "Chrome/", and Opera is reached only when no earlier test passes;
      the `!includes("Edg/")` guard of the Chrome test never decides anything. */
  lemma BrowserPrecedence(ua: string)
    ensures Includes(ua, "Firefox/") ==> Browser(ua) == "Firefox"
    ensures Browser(ua) == "Microsoft Edge" <==> !Includes(ua, "Firefox/") && Includes(ua, "Edg/")
    ensures Browser(ua) == "Chrome" <==> !Includes(ua, "Firefox/") && !Includes(ua, "Edg/") && Includes(ua, "Chrome/")
    ensures Browser(ua) == "Safari" ==> !Includes(ua, "Chrome/") && Includes(ua, "Safari/")
    ensures Browser(ua) == "Opera" <==>
      !Includes(ua, "Firefox/") && !Includes(ua, "Edg/") && !Includes(ua, "Chrome/") && !Includes(ua, "Safari/")
      && (Includes(ua, "OPR/") || Includes(ua, "Opera"))
  {
  }

  /** Operating-system precedence: a user agent that names both Android and Linux (every
      Android browser does) reports Android, and one that names "Mac OS X" reports macOS
      even when it also names an iPhone or iPad. */
  lemma OsPrecedence(ua: string)
    ensures !Includes(ua, "Windows NT") && Includes(ua, "Mac OS X") ==> Os(ua) == "macOS"
    ensures !Includes(ua, "Windows NT") && !Includes(ua, "Mac OS X") && Includes(ua, "Android") ==> Os(ua) == "Android"
    ensures Os(ua) == "iOS" ==> !Includes(ua, "Mac OS X")
    ensures Os(ua) == "Linux" ==> !Includes(ua, "Android")
  {
    if !Includes(ua, "Windows NT") {
      assert "Windows NT" + " 10.0" == "Windows NT 10.0";
      assert "Windows NT" + " 6.3" == "Windows NT 6.3";
      assert "Windows NT" + " 6.1" == "Windows NT 6.1";
      IncludesWidens(ua, "Windows NT", " 10.0");
      IncludesWidens(ua, "Windows NT", " 6.3");
      IncludesWidens(ua, "Windows NT", " 6.1");
    }
  }

  /** A text that contains `a + b` contains `a`. */
  lemma IncludesWidens(s: string, a: string, b: string)
    ensures Includes(s, a + b) ==> Includes(s, a)
  {
    if Includes(s, a + b) {
      var i :| 0 <= i <= |s| - |a + b| && InfixAt(s, a + b, i);
      assert s[i..i + |a|] == (a + b)[..|a|] == a;
      assert InfixAt(s, a, i);
    }
  }
}
