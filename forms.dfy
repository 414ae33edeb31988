/** The WTForms forms: the reset-password policy and the login validators.
    Each field runs its validator chain in order; `DataRequired` stops the
    chain, every other validator adds its message and lets the chain go on. */
module Forms {
  import opened Seqs
  import opened Text
  import opened Records

  const RequiredMessage := "This field is required."
  const InvalidEmailMessage := "Invalid email address."
  const LengthMessage := "Password must be at least 8 characters."
  const PolicyMessage := "Password must contain at least one uppercase letter and one digit."
  const MatchMessage := "Passwords must match."
  const NotRegisteredMessage := "The email you entered is not registered."
  const WrongPasswordMessage := "Incorrect password. Please try again."

  /** `Length(min=8)` on the new password. */
  const MinPasswordLength := 8

  /** `DataRequired` fails on missing data and on text that is blank once stripped. */
  predicate Blank(data: string)
  {
    Strip(data) == ""
  }

  predicate IsUpper(c: char)
  {
    'A' <= c <= 'Z'
  }

  /** The text `.` and `$` can span: the whole input less one final newline. */
  function FirstLine(s: string): (line: string)
    ensures line == s || (s == line + "\n")
  {
    if |s| > 0 && s[|s| - 1] == '\n' then s[..|s| - 1] else s
  }

  /** `re.match(r'^(?=.*[A-Z])(?=.*\d).+$', data)`: one or more characters other than a
      newline (optionally followed by one final newline), among them an upper-case letter
      and a digit. */
  predicate MatchesPolicy(s: string)
  {
    var line := FirstLine(s);
    && |line| > 0
    && '\n' !in line
    && (exists i :: 0 <= i < |line| && IsUpper(line[i]))
    && (exists i :: 0 <= i < |line| && IsDigit(line[i]))
  }

  /** The errors of `ResetPasswordForm.password`: DataRequired, Length, Regexp. */
  function PasswordErrors(password: string): (errs: seq<string>)
    ensures Blank(password) ==> errs == [RequiredMessage]
    ensures !Blank(password) ==> RequiredMessage !in errs
    ensures !Blank(password) ==> (LengthMessage in errs <==> |password| < MinPasswordLength)
    ensures !Blank(password) ==> (PolicyMessage in errs <==> !MatchesPolicy(password))
    ensures errs == [] <==> !Blank(password) && |password| >= MinPasswordLength && MatchesPolicy(password)
  {
    if Blank(password) then [RequiredMessage]
    else
      (if |password| < MinPasswordLength then [LengthMessage] else []) +
      (if MatchesPolicy(password) then [] else [PolicyMessage])
  }

  /** The errors of `ResetPasswordForm.confirm_password`: DataRequired, EqualTo('password'). */
  function ConfirmErrors(confirm: string, password: string): (errs: seq<string>)
    ensures errs == [] <==> !Blank(confirm) && confirm == password
    ensures !Blank(confirm) && confirm != password ==> errs == [MatchMessage]
  {
    if Blank(confirm) then [RequiredMessage]
    else if confirm != password then [MatchMessage]
    else []
  }

  /** `ResetPasswordForm.validate()` accepts the submission. */
  predicate ResetPasswordAccepted(password: string, confirm: string)
  {
    PasswordErrors(password) == [] && ConfirmErrors(confirm, password) == []
  }

  /** A text with a non-space character is not blank. */
  lemma NotBlank(s: string, i: nat)
    requires i < |s| && !IsSpace(s[i])
    ensures !Blank(s)
  {
    StripEmpty(s);
  }

  /** The reset-password policy: an accepted password has at least 8 characters, an
      upper-case letter and a digit, and the confirmation repeats it. */
  lemma ResetPasswordNeeds(password: string, confirm: string)
    requires ResetPasswordAccepted(password, confirm)
    ensures |password| >= MinPasswordLength
    ensures exists i :: 0 <= i < |password| && IsUpper(password[i])
    ensures exists i :: 0 <= i < |password| && IsDigit(password[i])
    ensures confirm == password
  {
    var line := FirstLine(password);
    var i :| 0 <= i < |line| && IsUpper(line[i]);
    var j :| 0 <= j < |line| && IsDigit(line[j]);
    assert password[i] == line[i] && password[j] == line[j];
  }

  /** Conversely, a one-line password of at least 8 characters with an upper-case letter
      and a digit, confirmed by the same text, is accepted. */
  lemma ResetPasswordSuffices(password: string, confirm: string, i: nat, j: nat)
    requires |password| >= MinPasswordLength && '\n' !in password
    requires i < |password| && IsUpper(password[i])
    requires j < |password| && IsDigit(password[j])
    requires confirm == password
    ensures ResetPasswordAccepted(password, confirm)
  {
    assert FirstLine(password) == password;
    NotBlank(password, i);
  }

  /** `ForgotPasswordForm.email`: DataRequired, Email(); `isEmail` stands for the
      email-syntax check WTForms delegates to the `email_validator` package. */
  function ForgotPasswordErrors(email: string, isEmail: string -> bool): (errs: seq<string>)
    ensures errs == [] <==> !Blank(email) && isEmail(email)
    ensures |errs| <= 1
  {
    if Blank(email) then [RequiredMessage]
    else if !isEmail(email) then [InvalidEmailMessage]
    else []
  }

  /** `User.query.filter_by(email=email).first()`. */
  function UserByEmail(users: seq<User>, email: string): (r: Option<nat>)
    ensures r.Some? ==> r.value < |users| && users[r.value].email == email
    ensures r.Some? ==> forall j :: 0 <= j < r.value ==> users[j].email != email
    ensures r.None? <==> forall j :: 0 <= j < |users| ==> users[j].email != email
  {
    FindFirst(users, (u: User) => u.email == email)
  }

  /** The errors of `LoginForm.email`: DataRequired, Email(), then `validate_email`. */
  function LoginEmailErrors(users: seq<User>, email: string, isEmail: string -> bool): (errs: seq<string>)
    ensures Blank(email) ==> errs == [RequiredMessage]
    ensures !Blank(email) ==> (NotRegisteredMessage in errs <==> forall j :: 0 <= j < |users| ==> users[j].email != email)
    ensures !Blank(email) ==> (InvalidEmailMessage in errs <==> !isEmail(email))
    ensures errs == [] ==> exists j :: 0 <= j < |users| && users[j].email == email
  {
    if Blank(email) then [RequiredMessage]
    else
      (if isEmail(email) then [] else [InvalidEmailMessage]) +
      (if UserByEmail(users, email).None? then [NotRegisteredMessage] else [])
  }

  /** The errors of `LoginForm.password`: DataRequired, then `validate_password`, which
      checks the password only when an account has the submitted email. */
  function LoginPasswordErrors(users: seq<User>, email: string, password: string): (errs: seq<string>)
    ensures Blank(password) ==> errs == [RequiredMessage]
    ensures !Blank(password) ==> (WrongPasswordMessage in errs <==>
      UserByEmail(users, email).Some? && !CheckPassword(users[UserByEmail(users, email).value], password))
    ensures UserByEmail(users, email).None? ==> errs == [] || errs == [RequiredMessage]
  {
    if Blank(password) then [RequiredMessage]
    else match UserByEmail(users, email)
      case None => []
      case Some(k) => if CheckPassword(users[k], password) then [] else [WrongPasswordMessage]
  }

  /** `LoginForm.validate_on_submit()` accepts the submission. */
  predicate LoginAccepted(users: seq<User>, email: string, password: string, isEmail: string -> bool)
  {
    LoginEmailErrors(users, email, isEmail) == [] && LoginPasswordErrors(users, email, password) == []
  }

  /** A login is accepted exactly when the email is well formed and the first account
      with that email accepts the (non-blank) password. */
  lemma LoginAcceptedIff(users: seq<User>, email: string, password: string, isEmail: string -> bool)
    ensures LoginAccepted(users, email, password, isEmail) <==>
      && !Blank(email) && isEmail(email) && !Blank(password)
      && UserByEmail(users, email).Some?
      && CheckPassword(users[UserByEmail(users, email).value], password)
  {
    var k := UserByEmail(users, email);
    if !Blank(email) && isEmail(email) && k.Some? {
      assert LoginEmailErrors(users, email, isEmail) == [] + [];
    }
  }
}
