/** The login form and the session flag it sets: an ordered chain of
    validations, a lookup of a stored user matching both e-mail and password,
    and the two session keys written on success. Also the logout handler and
    the guard that reads the session flag. */
module Login {
  import opened Base
  import opened Storage
  import opened Alerts
  import Email
  import SignUp

  datatype Form = Form(email: string, password: string)

  const FieldsRequired := "Email and Password are required."
  const EmailInvalid := "Enter a valid email address."
  const PasswordTooShort := "Password must be at least 8 characters long."
  const LoggedIn := "Login successful! Redirecting..."
  const BadCredentials := "Invalid email or password."

  /** The value stored under `isLoggedIn` for an open session. */
  const SessionFlag := "true"

  /** The form passes the three checks that precede the lookup. */
  ghost predicate WellFormed(f: Form)
  {
    f.email != "" && f.password != "" && Email.Matches(f.email) && |f.password| >= SignUp.MinPasswordLength
  }

  /** `user.email === email && user.password === password`. */
  function Credentials(email: string, password: string): User -> bool
  {
    (u: User) => u.email == email && u.password == password
  }

  /** `users[i]` is the first stored user matching both fields, the one
      `users.find` returns. */
  ghost predicate FirstMatch(users: seq<User>, f: Form, i: int)
  {
    && 0 <= i < |users|
    && users[i].email == f.email && users[i].password == f.password
    && forall j :: 0 <= j < i ==> !(users[j].email == f.email && users[j].password == f.password)
  }

  /** The store after a successful login as `user`. */
  function SignedIn(store: Store, user: User): Store
  {
    store[LoggedInKey := Text(SessionFlag)][CurrentUserKey := UserRecord(user)]
  }

  /** What a submission produces: the banner and the store afterwards. */
  datatype LoginResult = LoginResult(alert: Alert, store: Store)

  /** `handleLogin`. */
  function HandleLogin(f: Form, store: Store): (r: LoginResult)
    ensures f.email == "" || f.password == "" ==> r == LoginResult(Alert(Danger, FieldsRequired), store)
    ensures f.email != "" && f.password != "" && !Email.Matches(f.email) ==>
              r == LoginResult(Alert(Danger, EmailInvalid), store)
    ensures f.email != "" && f.password != "" && Email.Matches(f.email) && |f.password| < SignUp.MinPasswordLength ==>
              r == LoginResult(Alert(Danger, PasswordTooShort), store)
    ensures r.alert.kind == Success <==>
              WellFormed(f) && exists i :: 0 <= i < |StoredUsers(store)| && Credentials(f.email, f.password)(StoredUsers(store)[i])
    ensures WellFormed(f) && r.alert.kind == Danger ==> r.alert.message == BadCredentials
    ensures r.alert.kind == Success ==>
              && r.alert.message == LoggedIn
              && exists i :: FirstMatch(StoredUsers(store), f, i) && r.store == SignedIn(store, StoredUsers(store)[i])
    ensures r.alert.kind == Danger ==> r.store == store
  {
    Email.IsValidIffMatches(f.email);
    if f.email == "" || f.password == "" then LoginResult(Alert(Danger, FieldsRequired), store)
    else if !Email.IsValid(f.email) then LoginResult(Alert(Danger, EmailInvalid), store)
    else if |f.password| < SignUp.MinPasswordLength then LoginResult(Alert(Danger, PasswordTooShort), store)
    else
      var users := StoredUsers(store);
      match FindFirst(users, Credentials(f.email, f.password))
      case Some(i) =>
        assert FirstMatch(users, f, i);
        LoginResult(Alert(Success, LoggedIn), SignedIn(store, users[i]))
      case None => LoginResult(Alert(Danger, BadCredentials), store)
  }

  /** The session guard of the product page and of the protected routes:
      `localStorage.getItem("isLoggedIn") === "true"`. */
  predicate SessionActive(store: Store): (b: bool)
    ensures b ==> LoggedInKey in store
    ensures b <==> LoggedInKey in store && store[LoggedInKey].Text? && store[LoggedInKey].text == "true"
  {
    LoggedInKey in store && store[LoggedInKey] == Text(SessionFlag)
  }

  /** The guard reads the `isLoggedIn` entry and nothing else. */
  lemma SessionReadsOnlyFlag(store: Store, store': Store)
    requires LoggedInKey in store <==> LoggedInKey in store'
    requires LoggedInKey in store ==> store[LoggedInKey] == store'[LoggedInKey]
    ensures SessionActive(store) == SessionActive(store')
  {
  }

  /** `handleLogout`: removes the two session keys and nothing else. */
  function HandleLogout(store: Store): (store': Store)
    ensures LoggedInKey !in store' && CurrentUserKey !in store'
    ensures AgreeOutside(store, store', {LoggedInKey, CurrentUserKey})
  {
    store - {LoggedInKey, CurrentUserKey}
  }

  /** A successful login opens the session; a failed one leaves it as it was. */
  lemma LoginOpensSession(f: Form, store: Store)
    ensures HandleLogin(f, store).alert.kind == Success ==> SessionActive(HandleLogin(f, store).store)
    ensures HandleLogin(f, store).alert.kind == Danger ==>
              SessionActive(HandleLogin(f, store).store) == SessionActive(store)
  {
  }

  /** After logout the guard turns the visitor away. */
  lemma LogoutClosesSession(store: Store)
    ensures !SessionActive(HandleLogout(store))
  {
  }

  /** Logging out after a login attempt, successful or not, leaves the same
      store as logging out without it: login touches only the session keys. */
  lemma LogoutUndoesLogin(f: Form, store: Store)
    ensures HandleLogout(HandleLogin(f, store).store) == HandleLogout(store)
  {
    var r := HandleLogin(f, store);
    if r.alert.kind == Success {
      var i :| FirstMatch(StoredUsers(store), f, i) && r.store == SignedIn(store, StoredUsers(store)[i]);
      assert HandleLogout(r.store).Keys == HandleLogout(store).Keys;
    }
  }

  /** A fresh sign-up can log in straight away with the same e-mail and
      password, and the session then belongs to the new account: no earlier
      user can match, because the e-mail was not registered. */
  lemma SignUpThenLogIn(f: SignUp.Form, store: Store)
    requires SignUp.HandleSignup(f, store).alert.kind == Success
    ensures var after := SignUp.HandleSignup(f, store).store;
            HandleLogin(Form(f.email, f.password), after)
            == LoginResult(Alert(Success, LoggedIn), SignedIn(after, User(f.name, f.email, f.password)))
  {
    var after := SignUp.HandleSignup(f, store).store;
    var users := StoredUsers(store);
    var users' := StoredUsers(after);
    var u := User(f.name, f.email, f.password);
    assert users' == users + [u];
    assert users'[|users|] == u;
    var g := Form(f.email, f.password);
    assert Credentials(g.email, g.password)(users'[|users|]);
    assert forall j :: 0 <= j < |users| ==> users'[j] == users[j];
  }
}
