/** The sign-up form: an ordered chain of field checks, then a duplicate
    e-mail check against the stored users, then an append to that list. */
module SignUp {
  import opened Base
  import opened Storage
  import opened Alerts
  import Email

  datatype Form = Form(name: string, email: string, password: string, confirmPassword: string)

  const MinPasswordLength := 8

  const NameRequired := "Name is required."
  const EmailRequired := "Email is required."
  const EmailInvalid := "Enter a valid email."
  const PasswordTooShort := "Password must be at least 8 characters."
  const PasswordMismatch := "Passwords do not match."
  const AlreadyRegistered := "Email already registered."
  const SignedUp := "Signup successful! Redirecting..."

  /** `validateForm` returns true, or shows the message of the first failed check. */
  datatype Validation = Valid | Invalid(message: string)

  /** All five conditions of the form hold. */
  ghost predicate Acceptable(f: Form)
  {
    && f.name != ""
    && f.email != ""
    && Email.Matches(f.email)
    && |f.password| >= MinPasswordLength
    && f.password == f.confirmPassword
  }

  /** `validateForm`: the checks run in a fixed order and the first one that
      fails decides the single message shown. */
  function ValidateForm(f: Form): (v: Validation)
    ensures v == Valid <==> Acceptable(f)
    ensures v == Invalid(NameRequired) <==> f.name == ""
    ensures v == Invalid(EmailRequired) <==> f.name != "" && f.email == ""
    ensures v == Invalid(EmailInvalid) <==> f.name != "" && f.email != "" && !Email.Matches(f.email)
    ensures v == Invalid(PasswordTooShort) <==>
              f.name != "" && Email.Matches(f.email) && |f.password| < MinPasswordLength
    ensures v == Invalid(PasswordMismatch) <==>
              && f.name != "" && Email.Matches(f.email) && |f.password| >= MinPasswordLength
              && f.password != f.confirmPassword
  {
    Email.IsValidIffMatches(f.email);
    if f.name == "" then Invalid(NameRequired)
    else if f.email == "" then Invalid(EmailRequired)
    else if !Email.IsValid(f.email) then Invalid(EmailInvalid)
    else if |f.password| < MinPasswordLength then Invalid(PasswordTooShort)
    else if f.password != f.confirmPassword then Invalid(PasswordMismatch)
    else Valid
  }

  /** The length check is exact: 8 characters pass it, 7 do not. */
  lemma PasswordLengthBoundary(name: string, email: string, password: string)
    requires name != "" && Email.Matches(email)
    ensures |password| == 8 ==> ValidateForm(Form(name, email, password, password)) == Valid
    ensures |password| == 7 ==> ValidateForm(Form(name, email, password, password)) == Invalid(PasswordTooShort)
  {
  }

  /** What a submission produces: the banner and the store afterwards. */
  datatype SignUpResult = SignUpResult(alert: Alert, store: Store)

  /** `u.email === email`. */
  function SameEmail(email: string): User -> bool
  {
    (u: User) => u.email == email
  }

  /** Some stored user has exactly this e-mail (case-sensitive). */
  ghost predicate Registered(users: seq<User>, email: string)
  {
    exists i :: 0 <= i < |users| && users[i].email == email
  }

  /** `handleSignup`: validate; reject an e-mail that is already registered;
      otherwise append `{name, email, password}` to the stored users. */
  function HandleSignup(f: Form, store: Store): (r: SignUpResult)
    ensures !Acceptable(f) ==> r == SignUpResult(Alert(Danger, ValidateForm(f).message), store)
    ensures Acceptable(f) && Registered(StoredUsers(store), f.email) ==>
              r == SignUpResult(Alert(Danger, AlreadyRegistered), store)
    ensures r.alert.kind == Success <==> Acceptable(f) && !Registered(StoredUsers(store), f.email)
    ensures r.alert.kind == Success ==>
              && r.alert.message == SignedUp
              && UsersKey in r.store
              && r.store[UsersKey] == UserList(StoredUsers(store) + [User(f.name, f.email, f.password)])
              && AgreeOutside(store, r.store, {UsersKey})
    ensures r.alert.kind == Danger ==> r.store == store
  {
    var v := ValidateForm(f);
    if v.Invalid? then SignUpResult(Alert(Danger, v.message), store)
    else
      var users := StoredUsers(store);
      if FindFirst(users, SameEmail(f.email)).Some? then
        SignUpResult(Alert(Danger, AlreadyRegistered), store)
      else
        var users' := users + [User(f.name, f.email, f.password)];
        SignUpResult(Alert(Success, SignedUp), store[UsersKey := UserList(users')])
  }

  /** No two stored users share an e-mail. */
  ghost predicate UniqueEmails(users: seq<User>)
  {
    forall i, j :: 0 <= i < j < |users| ==> users[i].email != users[j].email
  }

  /** Sign-up never introduces a second account for an e-mail: if the stored
      e-mails were distinct before, they are distinct afterwards. */
  lemma SignupKeepsEmailsUnique(f: Form, store: Store)
    requires UniqueEmails(StoredUsers(store))
    ensures UniqueEmails(StoredUsers(HandleSignup(f, store).store))
  {
    var r := HandleSignup(f, store);
    if r.alert.kind == Success {
      var users := StoredUsers(store);
      var users' := StoredUsers(r.store);
      assert users' == users + [User(f.name, f.email, f.password)];
      forall i, j | 0 <= i < j < |users'|
        ensures users'[i].email != users'[j].email
      {
        if j == |users| {
          assert users'[i] == users[i];
        } else {
          assert users'[i] == users[i] && users'[j] == users[j];
        }
      }
    }
  }
}
