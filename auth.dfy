/** The session store and the authentication gate of `lib/auth.ts`.

    The process-wide token map is a `SessionStore` object whose methods
    change its `sessions` field. The clock (`Date.now()`) and the random
    token (`crypto.randomBytes`) are parameters. Every method is specified
    by a function on the map value (`LookupSession`, `Admit`, ...), and
    the lemmas at the end are stated over those functions. */
module Auth {
  import opened Wrappers
  import opened UsersDb
  import opened Http

  type Token = string

  /** 24 hours, in milliseconds. */
  const SessionDuration: int := 24 * 60 * 60 * 1000

  const UnauthorizedMessage: string := "Unauthorized"
  const ForbiddenMessage: string := "Forbidden: Admin access required"

  /** A session: whose it is, the role copied at login, when it expires. */
  datatype Session = Session(userId: int, role: string, expiresAt: int)

  function NewSession(userId: int, role: string, now: int): Session
  {
    Session(userId, role, now + SessionDuration)
  }

  /** A session is served up to and including its expiry instant. */
  predicate Live(s: Session, now: int)
  {
    now <= s.expiresAt
  }

  /** What a look-up returns, and the map it leaves behind. */
  datatype Lookup = Lookup(found: Option<Session>, sessions: map<Token, Session>)

  /** `getSession` on the map value: an expired entry is removed when it is looked up. */
  function LookupSession(sessions: map<Token, Session>, token: Token, now: int): (l: Lookup)
    ensures l.found.Some? ==> token in sessions && l.found.value == sessions[token] && Live(l.found.value, now)
    ensures l.sessions == if token in sessions && !Live(sessions[token], now) then sessions - {token} else sessions
  {
    if token !in sessions then Lookup(None, sessions)
    else if now > sessions[token].expiresAt then Lookup(None, sessions - {token})
    else Lookup(Some(sessions[token]), sessions)
  }

  /** The cookie's token, when it is truthy; an empty cookie counts as none. */
  function CookieToken(cookie: Option<string>): (t: Option<Token>)
    ensures t.Some? <==> Truthy(cookie)
  {
    if Truthy(cookie) then cookie else None
  }

  /** Reading the cookie and then calling `getSession` when it holds a token. */
  function LookupCookie(sessions: map<Token, Session>, cookie: Option<string>, now: int): (l: Lookup)
    ensures !Truthy(cookie) ==> l == Lookup(None, sessions)
    ensures Truthy(cookie) ==> l == LookupSession(sessions, cookie.value, now)
  {
    match CookieToken(cookie)
    case Some(t) => LookupSession(sessions, t, now)
    case None => Lookup(None, sessions)
  }

  /** What `authMiddleware` returns. */
  datatype AuthState = AuthState(user: Option<UserPublic>, isAuthenticated: bool, isAdmin: bool)

  const Anonymous: AuthState := AuthState(None, false, false)

  /** The user a live session belongs to, as `getUserById` returns it. */
  function SessionUser(found: Option<Session>, users: seq<UserRecord>): (u: Option<UserPublic>)
    ensures u.Some? ==> found.Some? && u.value.id == found.value.userId
  {
    match found
    case Some(s) => GetUserById(users, s.userId)
    case None => None
  }

  /** `authMiddleware` once the session has been looked up: only an active
      user passes, and only an admin among them is flagged as one. */
  function Admit(found: Option<Session>, users: seq<UserRecord>): (a: AuthState)
    ensures a.isAuthenticated <==> SessionUser(found, users).Some? && SessionUser(found, users).value.status == Active
    ensures a.isAuthenticated ==> a.user == SessionUser(found, users)
    ensures a.isAdmin <==> a.isAuthenticated && a.user.value.role == AdminRole
    ensures !a.isAuthenticated ==> a == Anonymous
  {
    match SessionUser(found, users)
    case None => Anonymous
    case Some(u) =>
      if u.status != Active then Anonymous
      else AuthState(Some(u), true, u.role == AdminRole)
  }

  /** The outcome of `requireAuth` / `requireAdmin`: the user, or the message thrown. */
  datatype Guard = Allowed(user: UserPublic) | Thrown(message: string)

  /** `requireAuth` once `getCurrentUser` has answered. */
  function RequireAuthOf(user: Option<UserPublic>): (g: Guard)
    ensures g.Thrown? <==> user.None?
    ensures g.Thrown? ==> g.message == UnauthorizedMessage
    ensures g.Allowed? ==> g.user == user.value
  {
    match user
    case None => Thrown(UnauthorizedMessage)
    case Some(u) => Allowed(u)
  }

  /** `requireAdmin` once `getCurrentUser` has answered. The user's status is
      not consulted. */
  function RequireAdminOf(user: Option<UserPublic>): (g: Guard)
    ensures g.Allowed? <==> user.Some? && user.value.role == AdminRole
    ensures g.Allowed? ==> g.user == user.value
    ensures user.None? ==> g == Thrown(UnauthorizedMessage)
    ensures user.Some? && user.value.role != AdminRole ==> g == Thrown(ForbiddenMessage)
  {
    match RequireAuthOf(user)
    case Thrown(m) => Thrown(m)
    case Allowed(u) => if u.role != AdminRole then Thrown(ForbiddenMessage) else Allowed(u)
  }

  /** The credential check of `login`: the row found by e-mail, provided it
      is active and the password verifies against its hash. */
  function Credentials(users: seq<UserRecord>, verify: (string, string) -> bool,
                       email: string, password: string): (r: Option<UserRecord>)
    ensures r.Some? ==> r.value in users && r.value.email == email && r.value.status == Active
    ensures r.Some? ==> verify(password, r.value.passwordHash)
    ensures r.None? <==> FindByEmail(users, email).None?
                          || FindByEmail(users, email).value.status != Active
                          || !verify(password, FindByEmail(users, email).value.passwordHash)
  {
    match FindByEmail(users, email)
    case None => None
    case Some(u) =>
      if u.status != Active then None
      else if !verify(password, u.passwordHash) then None
      else Some(u)
  }

  /** What a successful `login` returns: the public projection and the token. */
  datatype LoginResult = LoginResult(user: UserPublic, token: Token)

  /** The process-wide session map. */
  class SessionStore {
    var sessions: map<Token, Session>

    constructor ()
      ensures sessions == map[]
    {
      sessions := map[];
    }

    /** `createSession`: `token` is the fresh random token. */
    method CreateSession(userId: int, role: string, now: int, token: Token) returns (t: Token)
      modifies this
      ensures t == token
      ensures sessions == old(sessions)[token := NewSession(userId, role, now)]
    {
      var expiresAt := now + SessionDuration;
      sessions := sessions[token := Session(userId, role, expiresAt)];
      t := token;
    }

    /** `getSession`. */
    method GetSession(token: Token, now: int) returns (s: Option<Session>)
      modifies this
      ensures Lookup(s, sessions) == LookupSession(old(sessions), token, now)
    {
      if token !in sessions {
        return None;
      }
      var session := sessions[token];
      if now > session.expiresAt {
        sessions := sessions - {token};
        return None;
      }
      return Some(session);
    }

    /** `deleteSession`. */
    method DeleteSession(token: Token)
      modifies this
      ensures sessions == old(sessions) - {token}
    {
      sessions := sessions - {token};
    }

    /** `getCurrentUser`: cookie, session, then `getUserById`; no status check. */
    method GetCurrentUser(cookie: Option<string>, now: int, users: seq<UserRecord>) returns (u: Option<UserPublic>)
      modifies this
      ensures var l := LookupCookie(old(sessions), cookie, now);
              u == SessionUser(l.found, users) && sessions == l.sessions
    {
      if !Truthy(cookie) {
        return None;
      }
      var session := GetSession(cookie.value, now);
      if session.None? {
        return None;
      }
      u := GetUserById(users, session.value.userId);
    }

    /** `requireAuth`. */
    method RequireAuth(cookie: Option<string>, now: int, users: seq<UserRecord>) returns (g: Guard)
      modifies this
      ensures var l := LookupCookie(old(sessions), cookie, now);
              g == RequireAuthOf(SessionUser(l.found, users)) && sessions == l.sessions
    {
      var user := GetCurrentUser(cookie, now, users);
      if user.None? {
        return Thrown(UnauthorizedMessage);
      }
      return Allowed(user.value);
    }

    /** `requireAdmin`. */
    method RequireAdmin(cookie: Option<string>, now: int, users: seq<UserRecord>) returns (g: Guard)
      modifies this
      ensures var l := LookupCookie(old(sessions), cookie, now);
              g == RequireAdminOf(SessionUser(l.found, users)) && sessions == l.sessions
    {
      g := RequireAuth(cookie, now, users);
      if g.Allowed? && g.user.role != AdminRole {
        g := Thrown(ForbiddenMessage);
      }
    }

    /** `login`: `verify` is `verifyPassword`, `token` the fresh random token. */
    method Login(users: seq<UserRecord>, verify: (string, string) -> bool, email: string, password: string,
                 now: int, token: Token) returns (r: Option<LoginResult>)
      modifies this
      ensures match Credentials(users, verify, email, password)
              case None => r == None && sessions == old(sessions)
              case Some(u) =>
                r == Some(LoginResult(Public(u), token))
                && sessions == old(sessions)[token := NewSession(u.id, u.role, now)]
    {
      var user := FindByEmail(users, email);
      if user.None? || user.value.status != Active {
        return None;
      }
      if !verify(password, user.value.passwordHash) {
        return None;
      }
      var t := CreateSession(user.value.id, user.value.role, now, token);
      return Some(LoginResult(Public(user.value), t));
    }

    /** `logout`: the cookie's session is deleted when there is one. */
    method Logout(cookie: Option<string>)
      modifies this
      ensures sessions == if Truthy(cookie) then old(sessions) - {cookie.value} else old(sessions)
    {
      if Truthy(cookie) {
        DeleteSession(cookie.value);
      }
    }

    /** `authMiddleware`. */
    method AuthMiddleware(cookie: Option<string>, now: int, users: seq<UserRecord>) returns (a: AuthState)
      modifies this
      ensures var l := LookupCookie(old(sessions), cookie, now);
              a == Admit(l.found, users) && sessions == l.sessions
    {
      if !Truthy(cookie) {
        return Anonymous;
      }
      var session := GetSession(cookie.value, now);
      if session.None? {
        return Anonymous;
      }
      var user := GetUserById(users, session.value.userId);
      if user.None? || user.value.status != Active {
        return Anonymous;
      }
      return AuthState(user, true, user.value.role == AdminRole);
    }
  }

  // ---------------------------------------------------------------------
  // The session map

  /** A look-up never serves an expired session, and a live one is served
      exactly as stored, leaving the map as it was. */
  lemma LookupServesOnlyLive(sessions: map<Token, Session>, token: Token, now: int)
    ensures var l := LookupSession(sessions, token, now);
            (l.found.Some? <==> token in sessions && Live(sessions[token], now))
            && (l.found.Some? ==> l.found.value == sessions[token] && l.sessions == sessions)
  {
  }

  /** An unknown token is absent and the map is unchanged. */
  lemma LookupUnknown(sessions: map<Token, Session>, token: Token, now: int)
    requires token !in sessions
    ensures LookupSession(sessions, token, now) == Lookup(None, sessions)
  {
  }

  /** Lazy expiry: strictly past its expiry instant a session is absent and
      its entry is removed; at the instant itself it is still served. */
  lemma LookupExpiry(sessions: map<Token, Session>, token: Token)
    requires token in sessions
    ensures LookupSession(sessions, token, sessions[token].expiresAt).found == Some(sessions[token])
    ensures LookupSession(sessions, token, sessions[token].expiresAt + 1) == Lookup(None, sessions - {token})
  {
  }

  /** A look-up changes no entry but its own. */
  lemma LookupKeepsOthers(sessions: map<Token, Session>, token: Token, now: int, other: Token)
    requires other != token
    ensures var l := LookupSession(sessions, token, now);
            (other in l.sessions <==> other in sessions)
            && (other in sessions ==> l.sessions[other] == sessions[other])
  {
  }

  /** Looking the same token up twice at one instant answers the same and
      changes nothing more. */
  lemma LookupRepeatable(sessions: map<Token, Session>, token: Token, now: int)
    ensures var l := LookupSession(sessions, token, now);
            LookupSession(l.sessions, token, now) == l
  {
  }

  /** A session created at `now` is served, with its user and role, at every
      instant of the next 24 hours, and gone after that. */
  lemma CreateThenLookup(sessions: map<Token, Session>, userId: int, role: string, now: int, token: Token, later: int)
    requires now <= later
    ensures var m := sessions[token := NewSession(userId, role, now)];
            var l := LookupSession(m, token, later);
            (later <= now + SessionDuration ==> l.found == Some(Session(userId, role, now + SessionDuration)))
            && (later > now + SessionDuration ==> l.found == None && token !in l.sessions)
  {
  }

  /** Creating a session leaves every other token's entry as it was. */
  lemma CreateKeepsOthers(sessions: map<Token, Session>, userId: int, role: string, now: int, token: Token, other: Token)
    requires other != token
    ensures var m := sessions[token := NewSession(userId, role, now)];
            (other in m <==> other in sessions) && (other in sessions ==> m[other] == sessions[other])
  {
  }

  /** Deleting is idempotent, touches no other token, and a deleted token is
      never found again. */
  lemma DeleteProperties(sessions: map<Token, Session>, token: Token, now: int)
    ensures (sessions - {token}) - {token} == sessions - {token}
    ensures token !in sessions ==> sessions - {token} == sessions
    ensures forall t :: t != token ==> (t in sessions - {token} <==> t in sessions)
    ensures LookupSession(sessions - {token}, token, now).found == None
  {
  }

  // ---------------------------------------------------------------------
  // The gate

  /** `authMiddleware` end to end: authenticated exactly when the cookie
      holds a token whose session is live and whose user exists and is
      active; an admin only among those. */
  lemma MiddlewareChain(sessions: map<Token, Session>, cookie: Option<string>, now: int, users: seq<UserRecord>)
    ensures var a := Admit(LookupCookie(sessions, cookie, now).found, users);
            && (a.isAuthenticated <==>
                  Truthy(cookie) && cookie.value in sessions && Live(sessions[cookie.value], now)
                  && FindById(users, sessions[cookie.value].userId).Some?
                  && FindById(users, sessions[cookie.value].userId).value.status == Active)
            && (a.isAdmin ==> a.isAuthenticated && a.user.value.role == AdminRole)
  {
  }

  /** `requireAdmin` does not look at the status: a live session of an
      inactive admin passes it, while `authMiddleware` turns it away. */
  lemma InactiveAdminPassesRequireAdmin(found: Session, users: seq<UserRecord>)
    requires FindById(users, found.userId).Some?
    requires FindById(users, found.userId).value.role == AdminRole
    requires FindById(users, found.userId).value.status == Inactive
    ensures RequireAdminOf(SessionUser(Some(found), users)).Allowed?
    ensures !Admit(Some(found), users).isAuthenticated
  {
  }

  /** The three ways `login` can fail give the caller the same answer and
      create no session. */
  lemma LoginFailuresAlike(users: seq<UserRecord>, verify: (string, string) -> bool, email: string, password: string)
    requires || FindByEmail(users, email).None?
             || FindByEmail(users, email).value.status != Active
             || !verify(password, FindByEmail(users, email).value.passwordHash)
    ensures Credentials(users, verify, email, password) == None
  {
  }

  /** Logging in and then presenting the token: at any instant within the
      next 24 hours `authMiddleware` authenticates the user who logged in,
      as long as the user row is still there and active; an admin is
      flagged as one. */
  lemma LoginThenMiddleware(users: seq<UserRecord>, verify: (string, string) -> bool, email: string, password: string,
                            sessions: map<Token, Session>, now: int, token: Token, later: int, usersLater: seq<UserRecord>)
    requires Credentials(users, verify, email, password).Some?
    requires token != ""
    requires now <= later <= now + SessionDuration
    ensures var u := Credentials(users, verify, email, password).value;
            var m := sessions[token := NewSession(u.id, u.role, now)];
            var a := Admit(LookupCookie(m, Some(token), later).found, usersLater);
            (a.isAuthenticated <==> FindById(usersLater, u.id).Some? && FindById(usersLater, u.id).value.status == Active)
            && (a.isAuthenticated ==> a.user.value.id == u.id)
            && (a.isAdmin <==> a.isAuthenticated && FindById(usersLater, u.id).value.role == AdminRole)
  {
  }

  /** After logout, the token's session is gone: the gate refuses it. */
  lemma LogoutThenMiddleware(sessions: map<Token, Session>, token: Token, now: int, users: seq<UserRecord>)
    requires token != ""
    ensures Admit(LookupCookie(sessions - {token}, Some(token), now).found, users) == Anonymous
  {
  }
}
