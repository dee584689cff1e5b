/**
 * auth/register.php: the sign-up form. A failed CSRF check skips every other check; otherwise
 * the first failing field check gives the one error shown; an e-mail already on file is
 * refused; and only then is one user with role 'user' inserted.
 */
module Register {
  import opened Wrappers
  import Text
  import opened Php
  import Functions
  import opened Accounts

  const SecurityError := "Security error. Please refresh the page and try again."
  const FillError := "Please fill in all fields"
  const NameError := "Name must be at least 2 characters long"
  const EmailError := "Please enter a valid email address"
  const PasswordError := "Password must be at least 6 characters long"
  const MismatchError := "Passwords do not match"
  const DuplicateError := "An account with this email already exists"
  const FailedError := "Registration failed. Please try again."
  const SuccessMessage := "Registration successful! You can now login."
  const Home := "../index.php"

  /** $_POST[$key] ?? '' */
  function PostField(post: map<string, string>, key: string): string {
    if key in post then post[key] else ""
  }

  /** The three required fields are non-empty in PHP's sense ("0" counts as empty). */
  predicate Filled(name: string, email: string, password: string) {
    !Text.IsEmptyString(name) && !Text.IsEmptyString(email) && !Text.IsEmptyString(password)
  }

  /** The if/elseif chain of field checks: the first failing one gives the only error. */
  function FieldError(php: Builtins, name: string, email: string, password: string, confirm: string): (r: Option<string>)
    ensures r == Some(FillError) <==> !Filled(name, email, password)
    ensures r == Some(NameError) <==> Filled(name, email, password) && |name| < 2
    ensures r == Some(EmailError) <==> Filled(name, email, password) && |name| >= 2 && !php.validEmail(email)
    ensures r == Some(PasswordError) <==>
      Filled(name, email, password) && |name| >= 2 && php.validEmail(email) && |password| < 6
    ensures r == Some(MismatchError) <==>
      Filled(name, email, password) && |name| >= 2 && php.validEmail(email) && |password| >= 6 && password != confirm
    ensures r.None? <==>
      Filled(name, email, password) && |name| >= 2 && php.validEmail(email) && |password| >= 6 && password == confirm
  {
    if !Filled(name, email, password) then Some(FillError)
    else if |name| < 2 then Some(NameError)
    else if !php.validEmail(email) then Some(EmailError)
    else if |password| < 6 then Some(PasswordError)
    else if password != confirm then Some(MismatchError)
    else None
  }

  /** The page: a redirect for a logged-in visitor, else the form with its error and success
      messages ("" for none). */
  datatype Page = Redirect(location: string) | Form(error: string, success: string)

  method Register(table: UserTable, vars: map<string, Value>, isPost: bool, post: map<string, string>,
                  php: Builtins, insertOk: bool) returns (page: Page)
    requires table.Valid()
    modifies table
    ensures table.Valid()
    ensures page.Form? && page.success == "" ==> table.users == old(table.users) && table.nextUser == old(table.nextUser)
    // only a successful registration writes the table: the logged-in redirect writes nothing
    ensures page != Form("", SuccessMessage) ==> table.users == old(table.users) && table.nextUser == old(table.nextUser)
    ensures Functions.IsLoggedIn(vars) ==> page == Redirect(Home)
    ensures !Functions.IsLoggedIn(vars) && !isPost ==> page == Form("", "")
    ensures !Functions.IsLoggedIn(vars) && isPost && !Functions.VerifyCsrfToken(vars, PostField(post, "csrf_token"))
      ==> page == Form(SecurityError, "")
    ensures !Functions.IsLoggedIn(vars) && isPost && Functions.VerifyCsrfToken(vars, PostField(post, "csrf_token")) ==>
      var name := Functions.CleanString(php, PostField(post, "name"));
      var email := Functions.CleanString(php, PostField(post, "email"));
      var password := PostField(post, "password");
      var err := FieldError(php, name, email, password, PostField(post, "confirm_password"));
      && (err.Some? ==> page == Form(err.value, ""))
      && (err.None? && HasEmail(old(table.users), email) ==> page == Form(DuplicateError, ""))
      && (err.None? && !HasEmail(old(table.users), email) && !insertOk ==> page == Form(FailedError, ""))
      && (err.None? && !HasEmail(old(table.users), email) && insertOk ==>
            && page == Form("", SuccessMessage)
            && old(table.nextUser) !in old(table.users)
            && table.users == old(table.users)[old(table.nextUser) := User(name, email, php.passwordHash(password), "user")]
            && table.nextUser == old(table.nextUser) + 1)
  {
    if Functions.IsLoggedIn(vars) {
      return Redirect(Home);
    }
    if !isPost {
      return Form("", "");
    }
    if !Functions.VerifyCsrfToken(vars, PostField(post, "csrf_token")) {
      return Form(SecurityError, "");
    }
    var name := Functions.CleanString(php, PostField(post, "name"));
    var email := Functions.CleanString(php, PostField(post, "email"));
    var password := PostField(post, "password");
    var err := FieldError(php, name, email, password, PostField(post, "confirm_password"));
    if err.Some? {
      return Form(err.value, "");
    }
    if exists id :: id in table.users && table.users[id].email == email {
      return Form(DuplicateError, "");
    }
    if !insertOk {
      return Form(FailedError, "");
    }
    var u := User(name, email, php.passwordHash(password), "user");
    InsertKeepsUnique(table.users, table.nextUser, u);
    table.users := table.users[table.nextUser := u];
    table.nextUser := table.nextUser + 1;
    page := Form("", SuccessMessage);
  }

  /** Registering twice with the same e-mail: the second attempt is refused and changes nothing. */
  method RegisterTwice(table: UserTable, vars: map<string, Value>, post: map<string, string>, php: Builtins)
    returns (first: Page, second: Page)
    requires table.Valid()
    modifies table
    ensures first == Form("", SuccessMessage) ==> second == Form(DuplicateError, "")
    // after both attempts the table holds exactly the one account the first one added
    ensures first == Form("", SuccessMessage) ==>
      && table.users == old(table.users)[old(table.nextUser) :=
           User(Functions.CleanString(php, PostField(post, "name")), Functions.CleanString(php, PostField(post, "email")),
                php.passwordHash(PostField(post, "password")), "user")]
      && table.nextUser == old(table.nextUser) + 1
  {
    ghost var id := table.nextUser;
    first := Register(table, vars, true, post, php, true);
    ghost var email := Functions.CleanString(php, PostField(post, "email"));
    if first == Form("", SuccessMessage) {
      assert id in table.users && table.users[id].email == email;
    }
    second := Register(table, vars, true, post, php, true);
  }
}
