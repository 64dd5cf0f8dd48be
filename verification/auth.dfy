/** The credential gate of the sign-in page: the sign-up form validator, the e-mail
    shape test, the table of demo accounts, and the sign-in and sign-up decisions
    over the in-memory list of registered users. */
module Auth {
  import opened Options
  import opened Strings
  import opened Sessions

  datatype User = User(
    id: int,
    firstName: string,
    lastName: string,
    email: string,
    password: string,
    role: string,
    createdAt: string)

  /** The fields of the sign-up form. */
  datatype SignUpForm = SignUpForm(
    firstName: string,
    lastName: string,
    email: string,
    password: string,
    confirmPassword: string,
    role: string,
    termsAccepted: bool)

  datatype Validation = Valid | Invalid(message: string)

  const FirstNameRequired := "First name is required."
  const LastNameRequired := "Last name is required."
  const InvalidEmail := "Please enter a valid email address."
  const PasswordTooShort := "Password must be at least 8 characters long."
  const PasswordMismatch := "Passwords do not match."
  const TermsNotAccepted := "Please accept the terms of service."
  const DuplicateEmail := "An account with this email already exists."

  // ---------------------------------------------------------------------------
  // E-mail shape

  /** A character the pattern's runs `[^\s@]` admit. */
  predicate EmailChar(c: char) {
    !IsSpace(c) && c != '@'
  }

  /** `s` reads as `local@domain.tld` with the '@' at `at` and the '.' at `dot`: the
      three parts are non-empty and every character but the '@' is an `EmailChar`
      (the '.' itself is one). This is the pattern `^[^\s@]+@[^\s@]+\.[^\s@]+$`. */
  ghost predicate EmailSplit(s: string, at: int, dot: int) {
    && 0 < at && at + 1 < dot && dot + 1 < |s|
    && s[at] == '@' && s[dot] == '.'
    && forall k :: 0 <= k < |s| && k != at ==> EmailChar(s[k])
  }

  ghost predicate MatchesEmailPattern(s: string) {
    exists at, dot :: EmailSplit(s, at, dot)
  }

  /** `isValidEmail`: no white space, exactly one '@' with text before it, and after it
      a '.' that is neither the first nor the last character. */
  function IsValidEmail(s: string): (r: bool)
    ensures r <==> MatchesEmailPattern(s)
  {
    var at := IndexOfChar(s, '@');
    var r := && (forall k :: 0 <= k < |s| ==> !IsSpace(s[k]))
             && at > 0
             && '@' !in s[at + 1..]
             && exists dot :: at + 1 < dot < |s| - 1 && s[dot] == '.';
    assert r ==> MatchesEmailPattern(s) by {
      if r {
        var dot :| at + 1 < dot < |s| - 1 && s[dot] == '.';
        forall k | 0 <= k < |s| && k != at ensures EmailChar(s[k]) {
          if k < at {
            assert s[..at][k] == s[k];
          } else {
            assert s[at + 1..][k - at - 1] == s[k];
          }
        }
        assert EmailSplit(s, at, dot);
      }
    }
    assert MatchesEmailPattern(s) ==> r by {
      if MatchesEmailPattern(s) {
        var a, dot :| EmailSplit(s, a, dot);
        assert forall k :: 0 <= k < |s| ==> !IsSpace(s[k]);
        assert '@' !in s[..a];
        assert at == a;
        assert '@' !in s[at + 1..];
      }
    }
    r
  }

  // ---------------------------------------------------------------------------
  // Sign-up validation

  /** `validateSignUpForm`: the first failing check decides the message, in the order
      first name, last name, e-mail, password length, confirmation, terms. The role
      is not checked. */
  function ValidateSignUpForm(f: SignUpForm): (r: Validation)
    ensures r == Valid <==>
      && !AllSpace(f.firstName) && !AllSpace(f.lastName) && MatchesEmailPattern(f.email)
      && |f.password| >= 8 && f.password == f.confirmPassword && f.termsAccepted
    ensures r == Invalid(FirstNameRequired) <==> AllSpace(f.firstName)
    ensures r == Invalid(LastNameRequired) <==> !AllSpace(f.firstName) && AllSpace(f.lastName)
    ensures r == Invalid(InvalidEmail) <==>
      !AllSpace(f.firstName) && !AllSpace(f.lastName) && !MatchesEmailPattern(f.email)
    ensures r == Invalid(PasswordTooShort) <==>
      && !AllSpace(f.firstName) && !AllSpace(f.lastName) && MatchesEmailPattern(f.email)
      && |f.password| < 8
    ensures r == Invalid(PasswordMismatch) <==>
      && !AllSpace(f.firstName) && !AllSpace(f.lastName) && MatchesEmailPattern(f.email)
      && |f.password| >= 8 && f.password != f.confirmPassword
    ensures r == Invalid(TermsNotAccepted) <==>
      && !AllSpace(f.firstName) && !AllSpace(f.lastName) && MatchesEmailPattern(f.email)
      && |f.password| >= 8 && f.password == f.confirmPassword && !f.termsAccepted
  {
    TrimEmptyIffAllSpace(f.firstName);
    TrimEmptyIffAllSpace(f.lastName);
    if Trim(f.firstName) == "" then Invalid(FirstNameRequired)
    else if Trim(f.lastName) == "" then Invalid(LastNameRequired)
    else if !IsValidEmail(f.email) then Invalid(InvalidEmail)
    else if |f.password| < 8 then Invalid(PasswordTooShort)
    else if f.password != f.confirmPassword then Invalid(PasswordMismatch)
    else if !f.termsAccepted then Invalid(TermsNotAccepted)
    else Valid
  }

  // ---------------------------------------------------------------------------
  // Sign-in

  datatype Credential = Credential(email: string, password: string)

  /** The fixed demo accounts, by role. Other roles have none. */
  function DemoCredential(role: string): Option<Credential> {
    if role == "admin" then Some(Credential("admin@smartreads.com", "admin123"))
    else if role == "user" then Some(Credential("user@smartreads.com", "user123"))
    else None
  }

  /** `validateDemoCredentials`: the role has a demo account and both e-mail and
      password are that account's. */
  function ValidateDemoCredentials(email: string, password: string, role: string): (r: bool)
    ensures r <==>
      || (role == "admin" && email == "admin@smartreads.com" && password == "admin123")
      || (role == "user" && email == "user@smartreads.com" && password == "user123")
  {
    var c := DemoCredential(role);
    c.Some? && c.value.email == email && c.value.password == password
  }

  /** The user `u` is registered with exactly this e-mail, password and role. */
  predicate Registered(u: User, email: string, password: string, role: string) {
    u.email == email && u.password == password && u.role == role
  }

  /** `users.find(...)` for an exact match on e-mail, password and role. */
  function FindUser(users: seq<User>, email: string, password: string, role: string): (r: Option<User>)
    ensures r.None? <==> forall u :: u in users ==> !Registered(u, email, password, role)
    ensures r.Some? ==> r.value in users && Registered(r.value, email, password, role)
  {
    if |users| == 0 then None
    else if Registered(users[0], email, password, role) then Some(users[0])
    else FindUser(users[1..], email, password, role)
  }

  /** The decision of `handleSignIn`: the demo table first, then the registered users.
      On success the session for `role` with login time `now` is stored. */
  function SignIn(users: seq<User>, email: string, password: string, role: string, now: int): (r: Option<Session>)
    ensures r.Some? <==>
      || ValidateDemoCredentials(email, password, role)
      || exists u :: u in users && Registered(u, email, password, role)
    ensures r.Some? ==> r.value == Session(role, now)
  {
    if ValidateDemoCredentials(email, password, role) then Some(Session(role, now))
    else if FindUser(users, email, password, role).Some? then Some(Session(role, now))
    else None
  }

  // ---------------------------------------------------------------------------
  // Sign-up

  /** What a sign-up attempt reports, and the user list afterwards. */
  datatype SignUpResult = SignUpResult(outcome: Validation, users: seq<User>)

  /** Some registered user has this e-mail. */
  predicate EmailTaken(users: seq<User>, email: string)
    ensures EmailTaken(users, email) <==> exists u :: u in users && u.email == email
  {
    if |users| == 0 then false
    else users[0].email == email || EmailTaken(users[1..], email)
  }

  /** The decision of `handleSignUp`: validation first, then the duplicate e-mail check,
      then one new user appended with the fresh `id` and `createdAt` stamp. */
  function SignUp(users: seq<User>, f: SignUpForm, id: int, createdAt: string): (r: SignUpResult)
    ensures ValidateSignUpForm(f).Invalid? ==> r == SignUpResult(ValidateSignUpForm(f), users)
    ensures ValidateSignUpForm(f) == Valid && EmailTaken(users, f.email) ==>
      r == SignUpResult(Invalid(DuplicateEmail), users)
    ensures r.outcome == Valid <==> ValidateSignUpForm(f) == Valid && !EmailTaken(users, f.email)
    ensures r.outcome == Valid ==>
      r.users == users + [User(id, f.firstName, f.lastName, f.email, f.password, f.role, createdAt)]
  {
    var v := ValidateSignUpForm(f);
    if v.Invalid? then SignUpResult(v, users)
    else if EmailTaken(users, f.email) then SignUpResult(Invalid(DuplicateEmail), users)
    else SignUpResult(Valid, users + [User(id, f.firstName, f.lastName, f.email, f.password, f.role, createdAt)])
  }

  // ---------------------------------------------------------------------------
  // Properties

  /** A successful sign-up makes the same e-mail, password and role sign in, at any time. */
  lemma SignUpThenSignIn(users: seq<User>, f: SignUpForm, id: int, createdAt: string, now: int)
    requires SignUp(users, f, id, createdAt).outcome == Valid
    ensures SignIn(SignUp(users, f, id, createdAt).users, f.email, f.password, f.role, now)
            == Some(Session(f.role, now))
  {
    var u := User(id, f.firstName, f.lastName, f.email, f.password, f.role, createdAt);
    assert u in SignUp(users, f, id, createdAt).users;
  }

  /** A sign-up with an e-mail already registered never adds a user, whatever the other fields. */
  lemma DuplicateEmailRejected(users: seq<User>, f: SignUpForm, id: int, createdAt: string)
    requires EmailTaken(users, f.email)
    ensures SignUp(users, f, id, createdAt).outcome != Valid
    ensures SignUp(users, f, id, createdAt).users == users
  {
  }

  /** Distinct e-mails among the registered users. */
  ghost predicate UniqueEmails(users: seq<User>) {
    forall i, j :: 0 <= i < j < |users| ==> users[i].email != users[j].email
  }

  /** Sign-up keeps the users unique by e-mail. */
  lemma SignUpKeepsUniqueEmails(users: seq<User>, f: SignUpForm, id: int, createdAt: string)
    requires UniqueEmails(users)
    ensures UniqueEmails(SignUp(users, f, id, createdAt).users)
  {
    var r := SignUp(users, f, id, createdAt);
    if r.outcome == Valid {
      var u := User(id, f.firstName, f.lastName, f.email, f.password, f.role, createdAt);
      assert !EmailTaken(users, f.email);
      AppendFreshEmail(users, u);
    }
  }

  lemma AppendFreshEmail(users: seq<User>, u: User)
    requires UniqueEmails(users)
    requires !EmailTaken(users, u.email)
    ensures UniqueEmails(users + [u])
  {
    var us := users + [u];
    forall i, j | 0 <= i < j < |us| ensures us[i].email != us[j].email {
      if j == |users| {
        assert us[i] in users;
      }
    }
  }

  /** The demo accounts sign in whatever the registered users are. */
  lemma DemoAlwaysSignsIn(users: seq<User>, role: string, now: int)
    requires DemoCredential(role).Some?
    ensures SignIn(users, DemoCredential(role).value.email, DemoCredential(role).value.password, role, now)
            == Some(Session(role, now))
  {
  }

  /** The session a sign-in stores redirects at once from the sign-in page, and stops
      doing so 24 hours later. */
  lemma FreshSessionRedirects(users: seq<User>, email: string, password: string, role: string, now: int)
    requires SignIn(users, email, password, role, now).Some?
    ensures ShouldAutoRedirect(SignIn(users, email, password, role, now), true, now)
    ensures !ShouldAutoRedirect(SignIn(users, email, password, role, now), true, now + DayMillis)
  {
  }

  /** The validator never looks at the role. */
  lemma ValidationIgnoresRole(f: SignUpForm, role: string)
    ensures ValidateSignUpForm(f.(role := role)) == ValidateSignUpForm(f)
  {
  }
}
