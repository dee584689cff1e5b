/**
 * auth/Login.php: the sign-in form. A logged-in visitor is sent on at once; a failed CSRF check
 * or a bad field gives an error without looking anyone up; an unknown address and a wrong
 * password give the same error; a match writes five session keys and sends the user to the
 * requested page or to the dashboard of their role.
 */
module Login {
  import opened Wrappers
  import Text
  import opened Php
  import Functions
  import Security
  import opened Accounts

  const SecurityError := "Security error. Please refresh the page and try again."
  const FillError := "Please fill in all fields"
  const EmailError := "Please enter a valid email address"
  const InvalidError := "Invalid email or password"
  const AdminDashboard := "../admin/admin_dashboard.php"
  const OrganizerDashboard := "../organizer/Organizer_Dashboard.php"
  const Home := "../index.php"

  /** `switch` compares loosely: a value matches a non-numeric word when it is that string, or
      when it is `true` (any non-empty string is truthy). */
  predicate LooselyIs(v: Value, word: string) {
    match v
    case Str(s) => s == word
    case Bool(b) => b
    case _ => false
  }

  /** The dashboard of a role: admin, organizer, or else the home page. */
  function RoleDashboard(role: Value): (location: string)
    ensures role == Str("admin") ==> location == AdminDashboard
    ensures role == Str("organizer") ==> location == OrganizerDashboard
    ensures role.Str? && role.s != "admin" && role.s != "organizer" ==> location == Home
  {
    if LooselyIs(role, "admin") then AdminDashboard
    else if LooselyIs(role, "organizer") then OrganizerDashboard
    else Home
  }

  /** $_POST[$key] ?? '' */
  function PostField(post: map<string, string>, key: string): string {
    if key in post then post[key] else ""
  }

  /** The session after a successful login as row `id`. */
  function SignedIn(vars: map<string, Value>, id: int, u: User): map<string, Value> {
    vars["user_id" := Int(id)]["name" := Str(u.name)]["user_name" := Str(u.name)]
        ["user_role" := Str(u.role)]["role" := Str(u.role)]
  }

  /** The five keys a login writes make the session logged in as that user, with that role. */
  lemma SignedInSession(vars: map<string, Value>, id: int, u: User)
    requires id >= 1
    ensures Functions.IsLoggedIn(SignedIn(vars, id, u))
    ensures Security.HasRole(SignedIn(vars, id, u), u.role)
    ensures forall k :: k in vars && k !in {"user_id", "name", "user_name", "user_role", "role"} ==>
      k in SignedIn(vars, id, u) && SignedIn(vars, id, u)[k] == vars[k]
  {
  }

  /** The page: a redirect, or the form with its error ("" for none). */
  datatype Page = Redirect(location: string) | Form(error: string)

  /** The e-mail and password fields pass: both non-empty and the address valid. */
  predicate FieldsOk(php: Builtins, email: string, password: string) {
    !Text.IsEmptyString(email) && !Text.IsEmptyString(password) && php.validEmail(email)
  }

  /** A form submission from a visitor who is not logged in. */
  predicate Posted(vars: map<string, Value>, isPost: bool) {
    !Functions.IsLoggedIn(vars) && isPost
  }

  /** verifyCSRFToken($_POST['csrf_token'] ?? ''). */
  predicate TokenOk(vars: map<string, Value>, post: map<string, string>) {
    Functions.VerifyCsrfToken(vars, PostField(post, "csrf_token"))
  }

  /** Row `id` holds the address and the password verifies against its hash. */
  predicate Credentials(php: Builtins, users: map<int, User>, email: string, password: string, id: int) {
    id in users && users[id].email == email && php.passwordVerify(password, users[id].passwordHash)
  }

  /** `redirect` is $_GET['redirect'] when set. */
  method Login(table: UserTable, session: Functions.Session, redirect: Option<string>, isPost: bool,
               post: map<string, string>, php: Builtins) returns (page: Page)
    requires table.Valid()
    modifies session
    // the handler itself (lines 11-90) writes no key on an error; the form template's token write is outside
    ensures page.Form? ==> session.vars == old(session.vars)
    // a visitor already logged in is sent on with no session key written
    ensures Functions.IsLoggedIn(old(session.vars)) ==> session.vars == old(session.vars)
    ensures Functions.IsLoggedIn(old(session.vars)) ==>
      var role := if IsSet(old(session.vars), "role") then old(session.vars)["role"] else Str("user");
      page == Redirect(redirect.GetOr(RoleDashboard(role)))
    ensures !Functions.IsLoggedIn(old(session.vars)) && !isPost ==> page == Form("")
    ensures Posted(old(session.vars), isPost) && !TokenOk(old(session.vars), post) ==> page == Form(SecurityError)
    ensures Posted(old(session.vars), isPost) && TokenOk(old(session.vars), post) ==>
      var email := Functions.CleanString(php, PostField(post, "email"));
      var password := PostField(post, "password");
      && (!(!Text.IsEmptyString(email) && !Text.IsEmptyString(password)) ==> page == Form(FillError))
      && (!Text.IsEmptyString(email) && !Text.IsEmptyString(password) && !php.validEmail(email) ==> page == Form(EmailError))
      // an unknown address and a wrong password are told apart by nothing
      && (FieldsOk(php, email, password) &&
          (forall id :: id in table.users && table.users[id].email == email ==> !php.passwordVerify(password, table.users[id].passwordHash))
          ==> page == Form(InvalidError))
      && (forall id :: FieldsOk(php, email, password) && Credentials(php, table.users, email, password, id) ==>
          && session.vars == SignedIn(old(session.vars), id, table.users[id])
          && page == Redirect(redirect.GetOr(RoleDashboard(Str(table.users[id].role))))
          && Functions.IsLoggedIn(session.vars) && Security.HasRole(session.vars, table.users[id].role))
  {
    if Functions.IsLoggedIn(session.vars) {
      var role := if IsSet(session.vars, "role") then session.vars["role"] else Str("user");
      return Redirect(redirect.GetOr(RoleDashboard(role)));
    }
    if !isPost {
      return Form("");
    }
    if !Functions.VerifyCsrfToken(session.vars, PostField(post, "csrf_token")) {
      return Form(SecurityError);
    }
    var email := Functions.CleanString(php, PostField(post, "email"));
    var password := PostField(post, "password");
    if Text.IsEmptyString(email) || Text.IsEmptyString(password) {
      return Form(FillError);
    }
    if !php.validEmail(email) {
      return Form(EmailError);
    }
    if id :| id in table.users && table.users[id].email == email {
      var u := table.users[id];
      if php.passwordVerify(password, u.passwordHash) {
        SignedInSession(session.vars, id, u);
        session.vars := SignedIn(session.vars, id, u);
        return Redirect(redirect.GetOr(RoleDashboard(Str(u.role))));
      }
    }
    page := Form(InvalidError);
  }
}
