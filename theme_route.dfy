/** app/api/users/theme/route.ts: reading and setting the user's theme preference. */
module ThemeRoute {
  import opened Wrappers
  import opened Store

  /** The themes the PATCH accepts. */
  predicate IsTheme(t: string)
  {
    t == "light" || t == "dark" || t == "system"
  }

  /** The theme GET answers with: the stored one, or 'system' when none is stored. */
  function EffectiveTheme(user: UserRecord): (t: string)
    ensures user.theme.Some? && user.theme.value != [] ==> t == user.theme.value
    ensures user.theme.None? || user.theme.value == [] ==> t == "system"
  {
    if user.theme.Some? && user.theme.value != [] then user.theme.value else "system"
  }

  /** `GET /api/users/theme`; it changes nothing. */
  method Get(db: Database, session: Option<Session>) returns (status: int, theme: Option<string>)
    ensures !Authenticated(session) ==> status == Unauthorized && theme == None
    ensures Authenticated(session) && session.value.email !in db.users ==> status == NotFound && theme == None
    ensures Authenticated(session) && session.value.email in db.users ==>
      status == Ok && theme == Some(EffectiveTheme(db.users[session.value.email]))
  {
    if !Authenticated(session) {
      return Unauthorized, None;
    }
    if session.value.email !in db.users {
      return NotFound, None;
    }
    status, theme := Ok, Some(EffectiveTheme(db.users[session.value.email]));
  }

  datatype ThemeVerdict = ThemeNotSignedIn | InvalidTheme | ThemeUserMissing | SetTheme

  /** The PATCH checks in order: the session, then the value (before any lookup), then the user. */
  function DecideTheme(session: Option<Session>, theme: Option<string>, userExists: bool): (v: ThemeVerdict)
    ensures v == SetTheme <==> Authenticated(session) && theme.Some? && IsTheme(theme.value) && userExists
    ensures v == InvalidTheme <==> Authenticated(session) && (theme.None? || !IsTheme(theme.value))
  {
    if !Authenticated(session) then ThemeNotSignedIn
    else if theme.None? || theme.value == [] || !IsTheme(theme.value) then InvalidTheme
    else if !userExists then ThemeUserMissing
    else SetTheme
  }

  /** `PATCH /api/users/theme`: only the `theme` field of the user is written, and it is echoed. */
  method Patch(db: Database, session: Option<Session>, theme: Option<string>) returns (status: int, echoed: Option<string>)
    requires db.Valid()
    modifies db`users
    ensures db.Valid()
    ensures var v := DecideTheme(session, theme, Authenticated(session) && session.value.email in old(db.users));
      && (v == ThemeNotSignedIn ==> status == Unauthorized)
      && (v == InvalidTheme ==> status == BadRequest)
      && (v == ThemeUserMissing ==> status == NotFound)
      && (v != SetTheme ==> echoed == None && db.users == old(db.users))
      && (v == SetTheme ==>
            && status == Ok && echoed == theme
            && db.users == old(db.users)[session.value.email := old(db.users)[session.value.email].(theme := theme)])
  {
    if !Authenticated(session) {
      return Unauthorized, None;
    }
    if theme.None? || theme.value == [] || !IsTheme(theme.value) {
      return BadRequest, None;
    }
    if session.value.email !in db.users {
      return NotFound, None;
    }
    var email := session.value.email;
    db.users := db.users[email := db.users[email].(theme := theme)];
    status, echoed := Ok, theme;
  }
}
