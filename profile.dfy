/** The account handlers: the upload filename check, `create_account` (an
    admin adds a staff account) and `update_profile` (a user edits their own
    account, toggles two-factor login and uploads a picture). */
module Profile {
  import opened Seqs
  import opened Text
  import opened Records

  /** `ALLOWED_EXTENSIONS`. */
  const AllowedExtensions: set<string> := {"png", "jpg", "jpeg", "gif"}

  /** `allowed_file`: the text after the last '.', lower-cased, is an allowed extension. */
  predicate AllowedFile(filename: string)
  {
    '.' in filename && Lower(LastSegment(filename, '.')) in AllowedExtensions
  }

  /** A separator at `i` with none after it marks where the last segment starts. */
  lemma LastSegmentAt(s: string, sep: char, i: nat)
    requires i < |s| && s[i] == sep && sep !in s[i + 1..]
    ensures LastSegment(s, sep) == s[i + 1..]
  {
  }

  /** An accepted filename's last '.' is followed by an allowed extension. */
  lemma AllowedFileWitness(filename: string) returns (i: nat)
    requires AllowedFile(filename)
    ensures i < |filename| && filename[i] == '.' && '.' !in filename[i + 1..]
    ensures Lower(filename[i + 1..]) in AllowedExtensions
  {
    var r := LastSegment(filename, '.');
    LastSegmentSep(filename, '.');
    i := |filename| - |r| - 1;
    assert filename[i + 1..] == r;
  }

  /** A filename is accepted exactly when it has a '.' followed by an allowed extension,
      in any letter case, with no further '.' after it. */
  lemma AllowedFileIff(filename: string)
    ensures AllowedFile(filename) <==>
      exists i :: 0 <= i < |filename| && filename[i] == '.' && '.' !in filename[i + 1..] &&
        Lower(filename[i + 1..]) in AllowedExtensions
  {
    if AllowedFile(filename) {
      var i := AllowedFileWitness(filename);
    } else {
      forall i | 0 <= i < |filename| && filename[i] == '.' && '.' !in filename[i + 1..]
        ensures Lower(filename[i + 1..]) !in AllowedExtensions
      {
        LastSegmentAt(filename, '.', i);
      }
    }
  }

  /** The `unique=True` constraints on `User.email` and `User.username`. */
  ghost predicate UsersUnique(users: seq<User>)
  {
    forall i, j :: 0 <= i < j < |users| ==>
      users[i].email != users[j].email && users[i].username != users[j].username
  }

  /** `User.query.filter_by(email=email).first()` finds someone. */
  predicate EmailTaken(users: seq<User>, email: string)
  {
    FindFirst(users, (u: User) => u.email == email).Some?
  }

  /** `User.query.filter_by(username=username).first()` finds someone. */
  predicate UsernameTaken(users: seq<User>, username: string)
  {
    FindFirst(users, (u: User) => u.username == username).Some?
  }

  /** What the two handlers report (their flash messages, or the 2FA setup page). */
  datatype Outcome =
    | Unauthorized        // "Unauthorized access."
    | FieldsRequired      // "All fields are required."
    | NotLoggedIn         // "You must be logged in to update your profile."
    | EmailExists         // "Email already exists."
    | UsernameExists      // "Username already exists."
    | PasswordsDiffer     // "Passwords do not match."
    | AccountCreated      // "Account created successfully!"
    | TwoFactorSetup(secret: string)  // the page with the authenticator QR code
    | ProfileUpdated      // "Profile updated successfully!"

  /** The fields `create_account` reads; `role` is None when the form has no "role". */
  datatype AccountForm = AccountForm(
    newUsername: string,
    newEmail: string,
    newPassword: string,
    confirmPassword: string,
    role: Option<string>,
    gateRole: string)

  predicate IsAdmin(caller: Option<User>)
  {
    caller.Some? && caller.value.role == "admin"
  }

  /** The account `create_account` adds; its id is the next autoincrement value. */
  function CreatedUser(users: seq<User>, f: AccountForm): User
  {
    var gate := Strip(f.gateRole);
    User(|users| + 1, Strip(f.newUsername), Strip(f.newEmail), Hashed(f.newPassword),
      if f.role.Some? then f.role.value else "user",
      if gate == "" then None else Some(gate), None, false, None)
  }

  /** `create_account` on the user table. The caller is `current_user` (None when anonymous).
      Checks run in order: admin, all fields filled, passwords equal, email free, username
      free; a rejection changes nothing, a success appends one account. */
  function CreateAccountSpec(users: seq<User>, caller: Option<User>, f: AccountForm): (r: (seq<User>, Outcome))
    ensures r.1 == Unauthorized <==> !IsAdmin(caller)
    ensures r.1 == FieldsRequired <==> (IsAdmin(caller) &&
      (Strip(f.newUsername) == "" || Strip(f.newEmail) == "" || f.newPassword == "" || f.confirmPassword == ""))
    ensures r.1 == PasswordsDiffer <==> (IsAdmin(caller) &&
      Strip(f.newUsername) != "" && Strip(f.newEmail) != "" && f.newPassword != "" && f.confirmPassword != "" &&
      f.newPassword != f.confirmPassword)
    ensures r.1 == EmailExists ==> exists j :: 0 <= j < |users| && users[j].email == Strip(f.newEmail)
    ensures r.1 == UsernameExists ==> exists j :: 0 <= j < |users| && users[j].username == Strip(f.newUsername)
    ensures r.1 in {Unauthorized, FieldsRequired, PasswordsDiffer, EmailExists, UsernameExists, AccountCreated}
    ensures r.1 != AccountCreated ==> r.0 == users
    ensures r.1 == AccountCreated ==>
      && |r.0| == |users| + 1 && r.0[..|users|] == users
      && f.newPassword == f.confirmPassword && f.newPassword != ""
      && (forall j :: 0 <= j < |users| ==>
            users[j].email != Strip(f.newEmail) && users[j].username != Strip(f.newUsername))
      && r.0[|users|].username == Strip(f.newUsername) != ""
      && r.0[|users|].email == Strip(f.newEmail) != ""
      && CheckPassword(r.0[|users|], f.newPassword)
      && r.0[|users|].role == (if f.role.Some? then f.role.value else "user")
      && (r.0[|users|].gateRole.None? <==> Strip(f.gateRole) == "")
      && (Strip(f.gateRole) != "" ==> r.0[|users|].gateRole == Some(Strip(f.gateRole)))
      && !r.0[|users|].twoFactorEnabled && r.0[|users|].totpSecret.None?
      && r.0[|users|].profilePicture.None?
  {
    var username := Strip(f.newUsername);
    var email := Strip(f.newEmail);
    if !IsAdmin(caller) then (users, Unauthorized)
    else if username == "" || email == "" || f.newPassword == "" || f.confirmPassword == "" then (users, FieldsRequired)
    else if f.newPassword != f.confirmPassword then (users, PasswordsDiffer)
    else if EmailTaken(users, email) then (users, EmailExists)
    else if UsernameTaken(users, username) then (users, UsernameExists)
    else (users + [CreatedUser(users, f)], AccountCreated)
  }

  /** Creating an account keeps emails and usernames unique. */
  lemma CreateKeepsUnique(users: seq<User>, caller: Option<User>, f: AccountForm)
    ensures UsersUnique(users) ==> UsersUnique(CreateAccountSpec(users, caller, f).0)
  {
    var r := CreateAccountSpec(users, caller, f);
    if UsersUnique(users) && r.1 == AccountCreated {
      forall i, j | 0 <= i < j < |r.0|
        ensures r.0[i].email != r.0[j].email && r.0[i].username != r.0[j].username
      {
        assert r.0[i] == users[i];
      }
    }
  }

  /** The fields `update_profile` reads; `twoFactor` is the "two-factor" checkbox (None when
      unticked) and `pictureFilename` the uploaded file's name ("" when none). */
  datatype ProfileForm = ProfileForm(
    name: string,
    email: string,
    password: string,
    confirmPassword: string,
    gateRole: string,
    twoFactor: Option<string>,
    pictureFilename: string)

  predicate EnablesTwoFactor(f: ProfileForm)
  {
    f.twoFactor == Some("on")
  }

  /** `update_profile` for the account at position `me` (None when not logged in).
      `secret` stands for `generate_totp_secret()` and `secure` for `secure_filename`.
      Enabling two-factor login commits the gate role and the new secret and returns the
      setup page at once, so the other edits of that submission are not applied. */
  function UpdateProfileSpec(users: seq<User>, me: Option<nat>, f: ProfileForm, secret: string,
                             secure: string -> string): (r: (seq<User>, Outcome))
    requires me.Some? ==> me.value < |users|
    ensures r.1 == NotLoggedIn <==> me.None?
    ensures r.1 == EmailExists <==> (me.Some? && Strip(f.email) != users[me.value].email &&
      exists j :: 0 <= j < |users| && users[j].email == Strip(f.email))
    ensures r.1 == UsernameExists ==> (me.Some? && Strip(f.name) != users[me.value].username &&
      exists j :: 0 <= j < |users| && users[j].username == Strip(f.name))
    ensures r.1 in {NotLoggedIn, EmailExists, UsernameExists, PasswordsDiffer, ProfileUpdated} || r.1.TwoFactorSetup?
    ensures r.1 == PasswordsDiffer ==> f.password != "" && f.password != f.confirmPassword
    ensures !(r.1.TwoFactorSetup? || r.1 == ProfileUpdated) ==> r.0 == users
    ensures |r.0| == |users|
    ensures forall j :: 0 <= j < |users| && Some(j) != me ==> r.0[j] == users[j]
  {
    if me.None? then (users, NotLoggedIn)
    else
      var u := users[me.value];
      var name := Strip(f.name);
      var email := Strip(f.email);
      var gate := Strip(f.gateRole);
      if email != u.email && EmailTaken(users, email) then (users, EmailExists)
      else if name != u.username && UsernameTaken(users, name) then (users, UsernameExists)
      else if f.password != "" && f.password != f.confirmPassword then (users, PasswordsDiffer)
      else
        var u1 := if gate != "" then u.(gateRole := Some(gate)) else u;
        if EnablesTwoFactor(f) && !u.twoFactorEnabled then
          (users[me.value := u1.(totpSecret := Some(secret), twoFactorEnabled := true)], TwoFactorSetup(secret))
        else
          var u2 := if !EnablesTwoFactor(f) && u.twoFactorEnabled then u1.(totpSecret := None, twoFactorEnabled := false) else u1;
          var u3 := if f.pictureFilename != "" then u2.(profilePicture := Some(secure(f.pictureFilename))) else u2;
          var u4 := u3.(username := name, email := email,
                        passwordHash := if f.password != "" then Hashed(f.password) else u3.passwordHash);
          (users[me.value := u4], ProfileUpdated)
  }

  /** A full update stores the stripped name and email on the caller's account, and the
      uploaded picture's secured filename when a file was sent; the id and role stay. */
  lemma UpdateProfileFields(users: seq<User>, me: nat, f: ProfileForm, secret: string, secure: string -> string)
    requires me < |users|
    ensures var r := UpdateProfileSpec(users, Some(me), f, secret, secure);
      r.1 == ProfileUpdated ==>
        && r.0[me].username == Strip(f.name) && r.0[me].email == Strip(f.email)
        && (f.pictureFilename != "" ==> r.0[me].profilePicture == Some(secure(f.pictureFilename)))
        && (f.pictureFilename == "" ==> r.0[me].profilePicture == users[me].profilePicture)
        && r.0[me].role == users[me].role && r.0[me].id == users[me].id
  {
  }

  /** The password hash changes only on a full update with a non-empty new password, which
      then equals its confirmation and is the one the account now accepts. */
  lemma UpdateProfilePassword(users: seq<User>, me: nat, f: ProfileForm, secret: string, secure: string -> string)
    requires me < |users|
    ensures var r := UpdateProfileSpec(users, Some(me), f, secret, secure);
      && (r.0[me].passwordHash != users[me].passwordHash ==>
            r.1 == ProfileUpdated && f.password != "" && f.password == f.confirmPassword)
      && (r.1 == ProfileUpdated && f.password != "" ==> CheckPassword(r.0[me], f.password))
      && (r.1 == ProfileUpdated && f.password == "" ==> r.0[me].passwordHash == users[me].passwordHash)
  {
  }

  /** Ticking the box when two-factor login is off sets the secret and the flag and leaves
      name, email, password and picture as they were; unticking it when on clears both. */
  lemma UpdateProfileTwoFactor(users: seq<User>, me: nat, f: ProfileForm, secret: string, secure: string -> string)
    requires me < |users|
    ensures var r := UpdateProfileSpec(users, Some(me), f, secret, secure);
      && (r.1.TwoFactorSetup? <==>
            r.1 !in {EmailExists, UsernameExists, PasswordsDiffer} && EnablesTwoFactor(f) && !users[me].twoFactorEnabled)
      && (r.1.TwoFactorSetup? ==>
            && r.0[me].totpSecret == Some(secret) && r.0[me].twoFactorEnabled
            && r.0[me].username == users[me].username && r.0[me].email == users[me].email
            && r.0[me].passwordHash == users[me].passwordHash
            && r.0[me].profilePicture == users[me].profilePicture)
      && (r.1 == ProfileUpdated && !EnablesTwoFactor(f) ==>
            !r.0[me].twoFactorEnabled && (users[me].twoFactorEnabled ==> r.0[me].totpSecret.None?))
      && (r.1 == ProfileUpdated && EnablesTwoFactor(f) ==>
            r.0[me].twoFactorEnabled && r.0[me].totpSecret == users[me].totpSecret)
  {
  }

  /** The gate role is replaced only by a non-empty (stripped) value, and an accepted
      submission (a full update or the two-factor setup) with one stores it. */
  lemma UpdateProfileGateRole(users: seq<User>, me: nat, f: ProfileForm, secret: string, secure: string -> string)
    requires me < |users|
    ensures var r := UpdateProfileSpec(users, Some(me), f, secret, secure);
      && (r.0[me].gateRole != users[me].gateRole ==> r.0[me].gateRole == Some(Strip(f.gateRole)) != Some(""))
      && (Strip(f.gateRole) == "" ==> r.0[me].gateRole == users[me].gateRole)
      && ((r.1 == ProfileUpdated || r.1.TwoFactorSetup?) && Strip(f.gateRole) != "" ==>
            r.0[me].gateRole == Some(Strip(f.gateRole)))
  {
  }

  /** Updating a profile keeps emails and usernames unique: a changed value is only
      stored when no account holds it. */
  lemma UpdateKeepsUnique(users: seq<User>, me: Option<nat>, f: ProfileForm, secret: string, secure: string -> string)
    requires me.Some? ==> me.value < |users|
    ensures UsersUnique(users) ==> UsersUnique(UpdateProfileSpec(users, me, f, secret, secure).0)
  {
    var r := UpdateProfileSpec(users, me, f, secret, secure);
    if UsersUnique(users) && me.Some? && r.0 != users {
      var m := me.value;
      var u := r.0[m];
      assert u.email == users[m].email || !EmailTaken(users, u.email);
      assert u.username == users[m].username || !UsernameTaken(users, u.username);
      forall i, j | 0 <= i < j < |r.0|
        ensures r.0[i].email != r.0[j].email && r.0[i].username != r.0[j].username
      {
        if i != m && j != m {
          assert r.0[i] == users[i] && r.0[j] == users[j];
        }
      }
    }
  }

  /** The user table, updated in place by the two handlers. */
  class Accounts {
    var users: seq<User>

    ghost predicate Valid()
      reads this
    {
      UsersUnique(users)
    }

    constructor ()
      ensures Valid() && users == []
    {
      users := [];
    }

    /** `create_account`. */
    method CreateAccount(caller: Option<User>, f: AccountForm) returns (outcome: Outcome)
      modifies this
      ensures (users, outcome) == CreateAccountSpec(old(users), caller, f)
      ensures old(Valid()) ==> Valid()
    {
      CreateKeepsUnique(users, caller, f);
      if caller.None? || caller.value.role != "admin" {
        return Unauthorized;
      }
      var username := Strip(f.newUsername);
      var email := Strip(f.newEmail);
      var password := f.newPassword;
      var confirm := f.confirmPassword;
      var role := if f.role.Some? then f.role.value else "user";
      var gateRole := Strip(f.gateRole);
      if username == "" || email == "" || password == "" || confirm == "" {
        return FieldsRequired;
      }
      if password != confirm {
        return PasswordsDiffer;
      }
      if EmailTaken(users, email) {
        return EmailExists;
      }
      if UsernameTaken(users, username) {
        return UsernameExists;
      }
      var newUser := User(|users| + 1, username, email, Hashed(password), role,
        if gateRole != "" then Some(gateRole) else None, None, false, None);
      users := users + [newUser];
      return AccountCreated;
    }

    /** `update_profile` for the account at position `me`. */
    method UpdateProfile(me: Option<nat>, f: ProfileForm, secret: string, secure: string -> string)
      returns (outcome: Outcome)
      requires me.Some? ==> me.value < |users|
      modifies this
      ensures (users, outcome) == UpdateProfileSpec(old(users), me, f, secret, secure)
      ensures old(Valid()) ==> Valid()
    {
      UpdateKeepsUnique(users, me, f, secret, secure);
      if me.None? {
        return NotLoggedIn;
      }
      var i := me.value;
      ghost var table := users;
      var user := users[i];
      var newUsername := Strip(f.name);
      var newEmail := Strip(f.email);
      var newGateRole := Strip(f.gateRole);
      if newEmail != user.email && EmailTaken(users, newEmail) {
        return EmailExists;
      }
      if newUsername != user.username && UsernameTaken(users, newUsername) {
        return UsernameExists;
      }
      if f.password != "" && f.password != f.confirmPassword {
        return PasswordsDiffer;
      }
      if newGateRole != "" {
        user := user.(gateRole := Some(newGateRole));
      }
      var enable := f.twoFactor == Some("on");
      if enable && !user.twoFactorEnabled {
        user := user.(totpSecret := Some(secret), twoFactorEnabled := true);
        users := users[i := user];
        return TwoFactorSetup(secret);
      } else if !enable && user.twoFactorEnabled {
        user := user.(totpSecret := None, twoFactorEnabled := false);
        users := users[i := user];
      }
      if f.pictureFilename != "" {
        user := user.(profilePicture := Some(secure(f.pictureFilename)));
      }
      user := user.(username := newUsername, email := newEmail);
      if f.password != "" {
        user := user.(passwordHash := Hashed(f.password));
      }
      assert users[i := user] == table[i := user];
      users := users[i := user];
      return ProfileUpdated;
    }
  }
}
