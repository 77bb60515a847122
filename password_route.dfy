/** app/api/users/password/route.ts: the checks before a password change, and the change.
    `compare` and `hash` stand for bcrypt's comparison and hashing. */
module PasswordRoute {
  import opened Wrappers
  import opened Store

  datatype PasswordBody = PasswordBody(currentPassword: Option<string>, newPassword: Option<string>)

  /** A JavaScript string value that is truthy: present and not empty. */
  predicate Truthy(s: Option<string>)
  {
    s.Some? && s.value != []
  }

  datatype Verdict =
    | NotSignedIn
    | MissingPasswords
    | NewPasswordTooShort
    | UserMissing
    | NoStoredPassword
    | CurrentPasswordWrong
    | ChangePassword

  /** The handler's checks, in their order; `user` is the document found for the session's e-mail. */
  function Decide(session: Option<Session>, body: PasswordBody, user: Option<UserRecord>,
                  compare: (string, string) -> bool): (v: Verdict)
  {
    if !Authenticated(session) then NotSignedIn
    else if !Truthy(body.currentPassword) || !Truthy(body.newPassword) then MissingPasswords
    else if |body.newPassword.value| < 6 then NewPasswordTooShort
    else if user.None? then UserMissing
    else if !Truthy(user.value.password) then NoStoredPassword
    else if !compare(body.currentPassword.value, user.value.password.value) then CurrentPasswordWrong
    else ChangePassword
  }

  /** The status code of each outcome. */
  function StatusOf(v: Verdict): (status: int)
    ensures v == NotSignedIn <==> status == Unauthorized
    ensures v == UserMissing <==> status == NotFound
    ensures v == ChangePassword <==> status == Ok
    ensures v in {MissingPasswords, NewPasswordTooShort, NoStoredPassword, CurrentPasswordWrong} <==> status == BadRequest
  {
    match v
    case NotSignedIn => Unauthorized
    case UserMissing => NotFound
    case ChangePassword => Ok
    case _ => BadRequest
  }

  /** A change goes through exactly when the caller is signed in, both passwords are given, the
      new one has 6 characters, the account has a stored password and the current one matches it;
      and each earlier check wins over every later one. */
  lemma DecideLadder(session: Option<Session>, body: PasswordBody, user: Option<UserRecord>, compare: (string, string) -> bool)
    ensures Decide(session, body, user, compare) == ChangePassword <==>
      && Authenticated(session) && Truthy(body.currentPassword) && Truthy(body.newPassword)
      && |body.newPassword.value| >= 6 && user.Some? && Truthy(user.value.password)
      && compare(body.currentPassword.value, user.value.password.value)
    ensures !Authenticated(session) ==> Decide(session, body, user, compare) == NotSignedIn
    ensures Authenticated(session) && (!Truthy(body.currentPassword) || !Truthy(body.newPassword)) ==>
      Decide(session, body, user, compare) == MissingPasswords
    ensures Authenticated(session) && Truthy(body.currentPassword) && Truthy(body.newPassword) && |body.newPassword.value| < 6 ==>
      Decide(session, body, user, compare) == NewPasswordTooShort
    ensures (Authenticated(session) && Truthy(body.currentPassword) && Truthy(body.newPassword) && |body.newPassword.value| >= 6
             && user.Some? && !Truthy(user.value.password)) ==>
      Decide(session, body, user, compare) == NoStoredPassword
    ensures (Authenticated(session) && Truthy(body.currentPassword) && Truthy(body.newPassword) && |body.newPassword.value| >= 6
             && user.Some? && Truthy(user.value.password) && !compare(body.currentPassword.value, user.value.password.value)) ==>
      Decide(session, body, user, compare) == CurrentPasswordWrong
    ensures Decide(session, body, user, compare) == UserMissing ==> Truthy(body.newPassword) && |body.newPassword.value| >= 6
    ensures user.None? && Authenticated(session) ==> Decide(session, body, user, compare) in {MissingPasswords, NewPasswordTooShort, UserMissing}
  {
  }

  function Lookup(users: map<string, UserRecord>, email: string): Option<UserRecord>
  {
    if email in users then Some(users[email]) else None
  }

  /** `PATCH /api/users/password`: every refusal leaves the users as they were; a change replaces
      the stored password by the hash of the new one and nothing else. */
  method Patch(db: Database, session: Option<Session>, body: PasswordBody,
               compare: (string, string) -> bool, hash: string -> string) returns (status: int, verdict: Verdict)
    requires db.Valid()
    modifies db`users
    ensures db.Valid()
    ensures verdict == Decide(session, body,
      if Authenticated(session) then Lookup(old(db.users), session.value.email) else None, compare)
    ensures status == StatusOf(verdict)
    ensures verdict != ChangePassword ==> db.users == old(db.users)
    ensures verdict == ChangePassword ==>
      var email := session.value.email;
      db.users == old(db.users)[email := old(db.users)[email].(password := Some(hash(body.newPassword.value)))]
  {
    if !Authenticated(session) {
      verdict := NotSignedIn;
    } else if !Truthy(body.currentPassword) || !Truthy(body.newPassword) {
      verdict := MissingPasswords;
    } else if |body.newPassword.value| < 6 {
      verdict := NewPasswordTooShort;
    } else if session.value.email !in db.users {
      verdict := UserMissing;
    } else {
      var user := db.users[session.value.email];
      if !Truthy(user.password) {
        verdict := NoStoredPassword;
      } else if !compare(body.currentPassword.value, user.password.value) {
        verdict := CurrentPasswordWrong;
      } else {
        var hashed := hash(body.newPassword.value);
        db.users := db.users[session.value.email := user.(password := Some(hashed))];
        verdict := ChangePassword;
      }
    }
    status := StatusOf(verdict);
  }
}
