/**
 * inc/functions.php: the session helpers (login test, CSRF token, flash message), the input
 * cleaner and the base-URL computation.
 */
module Functions {
  import opened Wrappers
  import Text
  import opened Php

  // ---------------------------------------------------------------------------------------------
  // isLoggedIn
  // ---------------------------------------------------------------------------------------------

  /** isset($_SESSION['user_id']) && !empty($_SESSION['user_id']). */
  predicate IsLoggedIn(vars: map<string, Value>) {
    IsSet(vars, "user_id") && !IsEmpty(vars["user_id"])
  }

  /** Logged in exactly when user_id holds a value PHP does not call empty: user 0, "", "0" and
      false all count as logged out. */
  lemma LoggedInValues(vars: map<string, Value>)
    ensures IsLoggedIn(vars) <==> "user_id" in vars && match vars["user_id"]
      case Null => false
      case Bool(b) => b
      case Int(i) => i != 0
      case Str(s) => s != "" && s != "0"
  {
  }

  // ---------------------------------------------------------------------------------------------
  // The session and its CSRF token and flash message
  // ---------------------------------------------------------------------------------------------

  /** $_SESSION['csrf_token'] is set and equals the submitted token (hash_equals as equality). */
  predicate VerifyCsrfToken(vars: map<string, Value>, token: string) {
    IsSet(vars, "csrf_token") && vars["csrf_token"] == Str(token)
  }

  /** The flash_type of displayFlashMessage mapped to its Bootstrap class. */
  function AlertClass(flashType: Value): (c: string)
    ensures flashType == Str("success") ==> c == "alert-success"
    ensures flashType == Str("error") ==> c == "alert-danger"
    ensures flashType == Str("warning") ==> c == "alert-warning"
    ensures !(flashType in {Str("success"), Str("error"), Str("warning")}) ==> c == "alert-info"
  {
    match flashType
    case Str(t) =>
      if t == "success" then "alert-success"
      else if t == "error" then "alert-danger"
      else if t == "warning" then "alert-warning"
      else "alert-info"
    case _ => "alert-info"
  }

  /** A flash message that displayFlashMessage prints, with its class. */
  datatype Flash = Flash(message: Value, alertClass: string)

  /** $_SESSION, which these helpers update in place. */
  class Session {
    var vars: map<string, Value>

    constructor (vars: map<string, Value>)
      ensures this.vars == vars
    {
      this.vars := vars;
    }

    /** generateCSRFToken: stores `random` (bin2hex(random_bytes(32))) only when no token is set,
        and returns the stored token. */
    method GenerateCsrfToken(random: string) returns (token: Value)
      modifies this
      ensures IsSet(vars, "csrf_token") && token == vars["csrf_token"]
      ensures IsSet(old(vars), "csrf_token") ==> vars == old(vars)
      ensures !IsSet(old(vars), "csrf_token") ==> vars == old(vars)["csrf_token" := Str(random)]
    {
      if !IsSet(vars, "csrf_token") {
        vars := vars["csrf_token" := Str(random)];
      }
      token := vars["csrf_token"];
    }

    /** displayFlashMessage: with a message set, returns it with its class and removes both
        flash keys; otherwise returns nothing and changes nothing. */
    method DisplayFlashMessage() returns (shown: Option<Flash>)
      modifies this
      ensures "flash_message" !in vars || vars == old(vars)
      ensures IsSet(old(vars), "flash_message") ==>
        && vars == old(vars) - {"flash_message", "flash_type"}
        && shown == Some(Flash(old(vars)["flash_message"],
                               AlertClass(if IsSet(old(vars), "flash_type") then old(vars)["flash_type"] else Str("info"))))
      ensures !IsSet(old(vars), "flash_message") ==> vars == old(vars) && shown == None
    {
      if !IsSet(vars, "flash_message") {
        return None;
      }
      var message := vars["flash_message"];
      var flashType := if IsSet(vars, "flash_type") then vars["flash_type"] else Str("info");
      vars := vars - {"flash_message", "flash_type"};
      shown := Some(Flash(message, AlertClass(flashType)));
    }
  }

  /** The token generateCSRFToken returns is the one verifyCSRFToken accepts, and a second call
      returns the same token. */
  method GenerateTwice(s: Session, random1: string, random2: string) returns (t1: Value, t2: Value)
    modifies s
    ensures t1 == t2
    ensures IsSet(old(s.vars), "csrf_token") ==> t1 == old(s.vars)["csrf_token"]
    ensures !IsSet(old(s.vars), "csrf_token") ==> t1 == Str(random1) && VerifyCsrfToken(s.vars, random1)
  {
    t1 := s.GenerateCsrfToken(random1);
    t2 := s.GenerateCsrfToken(random2);
  }
  /** A second displayFlashMessage right after the first prints nothing. */
  method DisplayTwice(s: Session) returns (first: Option<Flash>, second: Option<Flash>)
    modifies s
    ensures first.Some? <==> IsSet(old(s.vars), "flash_message")
    ensures second == None
  {
    first := s.DisplayFlashMessage();
    second := s.DisplayFlashMessage();
  }

  // ---------------------------------------------------------------------------------------------
  // cleanInput
  // ---------------------------------------------------------------------------------------------

  /** cleanInput on a string: htmlspecialchars(strip_tags(trim($data))). */
  function CleanString(php: Builtins, s: string): string {
    php.escape(php.stripTags(Text.Trim(s)))
  }

  /** A request value: a string, or an array of keyed values (nested arrays allowed). */
  datatype Input = Scalar(s: string) | Arr(entries: seq<Entry>)
  datatype Entry = Entry(key: string, value: Input)

  /** cleanInput: array_map over an array keeps its keys and cleans each value. */
  function CleanInput(php: Builtins, v: Input): (r: Input)
    ensures v.Scalar? ==> r == Scalar(CleanString(php, v.s))
    ensures v.Arr? <==> r.Arr?
    ensures v.Arr? ==> (|r.entries| == |v.entries|
      && forall i :: 0 <= i < |v.entries| ==> r.entries[i].key == v.entries[i].key)
    ensures v.Arr? ==> forall i :: 0 <= i < |v.entries| ==> r.entries[i].value == CleanInput(php, v.entries[i].value)
  {
    match v
    case Scalar(s) => Scalar(CleanString(php, s))
    case Arr(es) => Arr(seq(|es|, i requires 0 <= i < |es| => Entry(es[i].key, CleanInput(php, es[i].value))))
  }

  /** Two inputs with the same array structure and keys at every depth. */
  predicate SameShape(a: Input, b: Input) {
    match a
    case Scalar(_) => b.Scalar?
    case Arr(es) =>
      b.Arr? && |b.entries| == |es|
      && forall i :: 0 <= i < |es| ==> b.entries[i].key == es[i].key && SameShape(es[i].value, b.entries[i].value)
  }

  /** cleanInput preserves the shape of nested arrays, not only the top level. */
  lemma {:induction false} CleanInputShape(php: Builtins, v: Input)
    ensures SameShape(v, CleanInput(php, v))
  {
    match v
    case Scalar(_) =>
    case Arr(es) =>
      forall i | 0 <= i < |es|
        ensures SameShape(es[i].value, CleanInput(php, v).entries[i].value)
      {
        CleanInputShape(php, es[i].value);
      }
  }

  // ---------------------------------------------------------------------------------------------
  // getBaseUrl
  // ---------------------------------------------------------------------------------------------

  /** The directories getBaseUrl removes from the end of the script's directory. */
  const Sections: seq<string> := ["payment", "user", "auth", "admin", "organizer"]

  /** PHP's dirname on a '/'-separated path. */
  function Dirname(p: string): (r: string)
    ensures |r| <= |p| || r == "." || r == "/"
  {
    var q := Text.TrimRight(p, {'/'});
    if q == "" then (if p == "" then "" else "/")
    else
      var i := LastSlash(q);
      if i < 0 then "."
      else
        var d := Text.TrimRight(q[..i], {'/'});
        if d == "" then "/" else d
  }

  /** The index of the last '/' in `s`, or -1. */
  function LastSlash(s: string): (i: int)
    ensures -1 <= i < |s|
    ensures i >= 0 ==> s[i] == '/'
    ensures forall k :: i < k < |s| ==> s[k] != '/'
    ensures i == -1 ==> forall k :: 0 <= k < |s| ==> s[k] != '/'
  {
    if s == [] then -1
    else if s[|s| - 1] == '/' then |s| - 1
    else LastSlash(s[..|s| - 1])
  }

  /** preg_replace('#/(payment|user|auth|admin|organizer)/?$#', '', $path). At most one
      alternative can match at the end of a path, so they are tried in list order. */
  function StripSection(path: string): string {
    StripFrom(path, 0)
  }

  function StripFrom(path: string, k: nat): string
    requires k <= |Sections|
    decreases |Sections| - k
  {
    if k == |Sections| then path
    else if Text.EndsWith(path, "/" + Sections[k]) then path[..|path| - |Sections[k]| - 1]
    else if Text.EndsWith(path, "/" + Sections[k] + "/") then path[..|path| - |Sections[k]| - 2]
    else StripFrom(path, k + 1)
  }

  /** `path` is `r` followed by `/section`, optionally with a trailing slash. */
  predicate Suffixed(path: string, r: string, section: string) {
    path == r + "/" + section || path == r + "/" + section + "/"
  }

  /** The path ends in `/section` or `/section/` for one of the sections from index k on. */
  predicate EndsInSectionFrom(path: string, k: nat) {
    exists j :: k <= j < |Sections| && (Text.EndsWith(path, "/" + Sections[j]) || Text.EndsWith(path, "/" + Sections[j] + "/"))
  }

  lemma {:induction false} StripFromSpec(path: string, k: nat)
    requires k <= |Sections|
    ensures !EndsInSectionFrom(path, k) ==> StripFrom(path, k) == path
    ensures EndsInSectionFrom(path, k) ==> exists j :: k <= j < |Sections| && Suffixed(path, StripFrom(path, k), Sections[j])
    decreases |Sections| - k
  {
    if k < |Sections| {
      var sec := Sections[k];
      var r := StripFrom(path, k);
      if Text.EndsWith(path, "/" + sec) {
        assert path == r + "/" + sec;
        assert Suffixed(path, r, Sections[k]);
      } else if Text.EndsWith(path, "/" + sec + "/") {
        assert path == r + "/" + sec + "/";
        assert Suffixed(path, r, Sections[k]);
      } else {
        StripFromSpec(path, k + 1);
        assert r == StripFrom(path, k + 1);
        if EndsInSectionFrom(path, k) {
          var j :| k <= j < |Sections| && (Text.EndsWith(path, "/" + Sections[j]) || Text.EndsWith(path, "/" + Sections[j] + "/"));
          assert j != k;
          assert EndsInSectionFrom(path, k + 1);
        }
      }
    }
  }

  /** StripSection removes exactly one trailing section segment, with its optional slash, and
      leaves any other path alone. */
  lemma StripSectionSpec(path: string)
    ensures !EndsInSectionFrom(path, 0) ==> StripSection(path) == path
    ensures EndsInSectionFrom(path, 0) ==>
      exists k :: 0 <= k < |Sections| && Suffixed(path, StripSection(path), Sections[k])
  {
    StripFromSpec(path, 0);
  }

  /** getBaseUrl: the scheme from $_SERVER['HTTPS'] (None when unset), the host and the
      script's directory with a trailing section removed. */
  function GetBaseUrl(https: Option<string>, host: string, script: string): string {
    var protocol := if https.Some? && !Text.IsEmptyString(https.value) && https.value != "off"
      then "https://" else "http://";
    protocol + host + StripSection(Dirname(script))
  }

  /** HTTPS is used exactly when the server variable is set, non-empty and not "off". */
  lemma BaseUrlScheme(https: Option<string>, host: string, script: string)
    ensures Text.StartsWith(GetBaseUrl(https, host, script), "https://") <==>
      (https.Some? && !Text.IsEmptyString(https.value) && https.value != "off")
  {
    var url := GetBaseUrl(https, host, script);
    if !(https.Some? && !Text.IsEmptyString(https.value) && https.value != "off") {
      assert url[4] == ':';
    }
  }

  /** The last '/' is found wherever it is. */
  lemma {:induction false} LastSlashAt(s: string, i: nat)
    requires i < |s| && s[i] == '/'
    requires forall k :: i < k < |s| ==> s[k] != '/'
    ensures LastSlash(s) == i
    decreases |s|
  {
    if i < |s| - 1 {
      LastSlashAt(s[..|s| - 1], i);
    }
  }

  /** The directory of a page in /t/user is /t/user, and removing the section gives /t. */
  lemma SectionPage()
    ensures Dirname("/t/user/a.php") == "/t/user"
    ensures StripSection("/t/user") == "/t"
  {
    var p := "/t/user/a.php";
    assert Text.TrimRight(p, {'/'}) == p;
    LastSlashAt(p, 7);
    assert p[..7] == "/t/user";
    assert Text.TrimRight("/t/user", {'/'}) == "/t/user";
    assert Text.EndsWith("/t/user", "/" + Sections[1]);
    assert !Text.EndsWith("/t/user", "/" + Sections[0]) && !Text.EndsWith("/t/user", "/" + Sections[0] + "/");
  }

  /** The directory of a page at the root is "/", which no section pattern changes. */
  lemma RootPage()
    ensures Dirname("/a.php") == "/"
    ensures StripSection("/") == "/"
  {
    var q := "/a.php";
    assert Text.TrimRight(q, {'/'}) == q;
    LastSlashAt(q, 0);
    assert Text.TrimRight(q[..0], {'/'}) == "";
  }

  /** Pages one directory down link to the application root; pages at the root keep it. */
  lemma BaseUrlExamples()
    ensures GetBaseUrl(Some("on"), "h", "/t/user/a.php") == "https://h/t"
    ensures GetBaseUrl(None, "h", "/a.php") == "http://h/"
  {
    SectionPage();
    RootPage();
  }
}
