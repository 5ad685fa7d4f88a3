/** The user-administration handlers of `app/api/admin/users/route.ts`.

    Each handler is a function from the gate's verdict (what
    `authMiddleware` returned), the request's fields and the user table to
    the reply and the table afterwards. A request field is `None` when the
    JSON body or the query string does not carry it. */
module AdminUsers {
  import opened Wrappers
  import opened Text
  import opened Http
  import opened UsersDb
  import opened Auth

  const UniqueEmailMessage: string := "UNIQUE constraint failed: users.email"

  /** Only an authenticated admin gets past any of the four handlers. */
  predicate Admitted(auth: AuthState)
  {
    auth.isAuthenticated && auth.isAdmin
  }

  /** The caller's own id, compared with `===` against the parsed id. */
  predicate IsCaller(userId: Option<int>, auth: AuthState)
  {
    userId.Some? && auth.user.Some? && userId.value == auth.user.value.id
  }

  /** The `catch` arm of POST and PUT: a UNIQUE violation on the e-mail
      column is a conflict, anything else a server error. */
  function CatchStatus(message: string): (status: int)
    ensures status == StatusConflict <==> Includes(message, UniqueEmailMessage)
    ensures status != StatusConflict ==> status == StatusServerError
  {
    if Includes(message, UniqueEmailMessage) then StatusConflict else StatusServerError
  }

  /** The e-mail as stored: trimmed and lower-cased. */
  function NormalizeEmail(email: string): (r: string)
    ensures |r| <= |email| && Clean(r)
    ensures forall i :: 0 <= i < |r| ==> !IsAsciiUpper(r[i])
  {
    ToLowerKeepsClean(Trim(email));
    ToLower(Trim(email))
  }

  // ---------------------------------------------------------------------
  // GET

  datatype ListParams = ListParams(search: Option<string>, role: Option<string>, status: Option<string>,
                                   limit: Option<string>, offset: Option<string>)

  /** The filters and page `getUsers` is asked for; `None` in `limit` or
      `offset` is `NaN`. */
  datatype UserQuery = UserQuery(search: Option<string>, role: Option<string>, status: Option<string>,
                                 limit: Option<int>, offset: Option<int>)

  function ListQuery(p: ListParams): (q: UserQuery)
    ensures q.search.Some? <==> Truthy(p.search)
    ensures q.search.Some? ==> q.search == p.search
    ensures !Truthy(p.limit) ==> q.limit == Some(100)
    ensures Truthy(p.limit) ==> q.limit == ParseInt(p.limit.value)
    ensures !Truthy(p.offset) ==> q.offset == Some(0)
    ensures Truthy(p.offset) ==> q.offset == ParseInt(p.offset.value)
    ensures q.role == p.role && q.status == p.status
  {
    var limit := if Truthy(p.limit) then p.limit.value else "100";
    var offset := if Truthy(p.offset) then p.offset.value else "0";
    assert DecimalString(100) == "100" && DecimalString(0) == "0";
    ParseIntDecimal(100);
    ParseIntDecimal(0);
    UserQuery(OrUndefined(p.search), p.role, p.status, ParseInt(limit), ParseInt(offset))
  }

  /** GET: the query handed to `getUsers`, behind the gate. */
  function List(auth: AuthState, p: ListParams): (r: Response<UserQuery>)
    ensures r.Fail? <==> !Admitted(auth)
    ensures r.Fail? ==> r.status == StatusUnauthorized
    ensures r.Json? ==> r.status == StatusOk && r.value == ListQuery(p)
  {
    if !Admitted(auth) then Fail(StatusUnauthorized, "Unauthorized")
    else Json(StatusOk, ListQuery(p))
  }

  // ---------------------------------------------------------------------
  // POST

  datatype CreateBody = CreateBody(name: Option<string>, email: Option<string>, password: Option<string>,
                                   role: Option<string>, status: Option<string>)

  /** Why POST rejects a body before touching the table, if it does. */
  function CreateProblem(b: CreateBody): (m: Option<string>)
    ensures m.None? <==> Truthy(b.name) && Truthy(b.email) && Truthy(b.password)
                         && '@' in b.email.value && |b.password.value| >= 6
  {
    IncludesChar(b.email.GetOr(""), '@');
    if !Truthy(b.name) || !Truthy(b.email) || !Truthy(b.password) then Some("Name, email and password are required")
    else if !Includes(b.email.value, "@") then Some("Invalid email format")
    else if |b.password.value| < 6 then Some("Password must be at least 6 characters")
    else None
  }

  /** The normalised input POST hands to `createUser`. */
  function CreateInput(b: CreateBody): (input: NewUser)
    requires CreateProblem(b).None?
    ensures input.name == Trim(b.name.value) && input.email == NormalizeEmail(b.email.value)
    ensures input.password == b.password.value
    ensures input.role == (if b.role == Some(AdminRole) then AdminRole else UserRole)
    ensures input.status == (if b.status == Some(Inactive) then Inactive else Active)
  {
    NewUser(Trim(b.name.value), NormalizeEmail(b.email.value), b.password.value,
            if Is(b.role, "admin") then AdminRole else UserRole,
            if Is(b.status, "inactive") then Inactive else Active)
  }

  /** POST: validate, normalise, insert. */
  function Create(auth: AuthState, b: CreateBody, rows: seq<UserRecord>, hash: string -> string, stamp: string)
    : (r: Outcome<UserPublic, seq<UserRecord>>)
    ensures !Admitted(auth) ==> r == Outcome(Fail(StatusUnauthorized, "Unauthorized"), rows)
    ensures Admitted(auth) && CreateProblem(b).Some? ==> r == Outcome(Fail(StatusBadRequest, CreateProblem(b).value), rows)
    ensures r.response.Fail? ==> r.state == rows
    ensures r.response.status == StatusConflict <==>
              Admitted(auth) && CreateProblem(b).None? && EmailTaken(rows, NormalizeEmail(b.email.value), None)
    ensures Admitted(auth) && CreateProblem(b).None? && !EmailTaken(rows, NormalizeEmail(b.email.value), None) ==>
              r.response.Json?
    ensures r.response.Json? ==>
              && Admitted(auth) && CreateProblem(b).None? && r.response.status == StatusOk
              && |r.state| == |rows| + 1 && r.state[..|rows|] == rows
              && r.response.value == Public(r.state[|rows|])
              && var u := r.state[|rows|];
                 var input := CreateInput(b);
                 u.name == input.name && u.email == input.email && u.role == input.role
                 && u.status == input.status && u.passwordHash == hash(b.password.value)
  {
    if !Admitted(auth) then Outcome(Fail(StatusUnauthorized, "Unauthorized"), rows)
    else match CreateProblem(b)
    case Some(m) => Outcome(Fail(StatusBadRequest, m), rows)
    case None =>
      match CreateUser(rows, CreateInput(b), hash, stamp)
      case Written(u, rows') =>
        assert rows'[..|rows|] == rows;
        Outcome(Json(StatusOk, Public(u)), rows')
      case _ =>
        CatchIsConflict();
        Outcome(Fail(CatchStatus(UniqueEmailMessage), "Email already exists"), rows)
  }

  lemma CatchIsConflict()
    ensures CatchStatus(UniqueEmailMessage) == StatusConflict
  {
    IncludesAt(UniqueEmailMessage, UniqueEmailMessage, 0);
  }

  // ---------------------------------------------------------------------
  // PUT

  /** The PUT body's `id` as JSON carries it. The admin page sends the
      row's numeric id; a string is read by `parseInt` just the same. */
  datatype JsonId = NumberId(n: int) | StringId(s: string)

  /** JavaScript truthiness of the `id` field: `0` and `""` are falsy. */
  predicate IdTruthy(id: Option<JsonId>)
  {
    id.Some? && match id.value
                case NumberId(n) => n != 0
                case StringId(s) => s != ""
  }

  /** `parseInt(id)`: a number is first rendered in decimal, so an integer
      id comes back as itself. */
  function ParseId(id: JsonId): (r: Option<int>)
    ensures id.NumberId? ==> r == Some(id.n)
    ensures id.StringId? ==> r == ParseInt(id.s)
  {
    match id
    case NumberId(n) => ParseIntDecimal(n); ParseInt(DecimalString(n))
    case StringId(s) => ParseInt(s)
  }

  /** `{ id, password, ...updates }` of the PUT body. */
  datatype UpdateBody = UpdateBody(id: Option<JsonId>, password: Option<string>,
                                   name: Option<string>, email: Option<string>,
                                   role: Option<string>, status: Option<string>)

  /** `updateData`: each field present in the body is copied, the name
      trimmed and the e-mail normalised; role and status go through as sent. */
  function UpdateData(b: UpdateBody): (d: UserUpdate)
    ensures d.name.Some? <==> b.name.Some?
    ensures d.email.Some? <==> b.email.Some?
    ensures b.name.Some? ==> d.name.value == Trim(b.name.value)
    ensures b.email.Some? ==> d.email.value == NormalizeEmail(b.email.value)
    ensures d.role == b.role && d.status == b.status
  {
    UserUpdate(
      if b.name.Some? then Some(Trim(b.name.value)) else None,
      if b.email.Some? then Some(NormalizeEmail(b.email.value)) else None,
      b.role,
      b.status)
  }

  /** Why PUT rejects a body before touching the table, if it does. */
  function UpdateProblem(auth: AuthState, b: UpdateBody): (m: Option<string>)
    ensures m == Some("User ID is required") <==> !IdTruthy(b.id)
    ensures m.None? <==>
              && IdTruthy(b.id)
              && !(b.status == Some(Inactive) && IsCaller(ParseId(b.id.value), auth))
              && (Truthy(b.email) ==> '@' in b.email.value)
  {
    IncludesChar(b.email.GetOr(""), '@');
    if !IdTruthy(b.id) then Some("User ID is required")
    else if Is(b.status, "inactive") && IsCaller(ParseId(b.id.value), auth) then Some("Cannot deactivate your own account")
    else if Truthy(b.email) && !Includes(b.email.value, "@") then Some("Invalid email format")
    else None
  }

  /** A new password PUT refuses for its length. */
  predicate ShortPassword(b: UpdateBody)
  {
    Truthy(b.password) && |b.password.value| < 6
  }

  /** The body passed the checks and names an existing row: `updateUser`
      is reached with that row's id. */
  predicate UpdateReaches(auth: AuthState, b: UpdateBody, rows: seq<UserRecord>)
  {
    && Admitted(auth) && UpdateProblem(auth, b).None?
    && ParseId(b.id.value).Some? && FindById(rows, ParseId(b.id.value).value).Some?
  }

  /** What `updateUser` does for a request that reaches it. */
  function UpdateWrite(auth: AuthState, b: UpdateBody, rows: seq<UserRecord>): (w: Write)
    requires UpdateReaches(auth, b, rows)
    ensures !w.NoSuchUser?
  {
    UpdateUser(rows, ParseId(b.id.value).value, UpdateData(b))
  }

  /** PUT: validate, update the present fields, then set the password. The
      password's length is checked only after the other fields are written. */
  function Update(auth: AuthState, b: UpdateBody, rows: seq<UserRecord>, hash: string -> string)
    : (r: Outcome<UserPublic, seq<UserRecord>>)
    ensures !Admitted(auth) ==> r == Outcome(Fail(StatusUnauthorized, "Unauthorized"), rows)
    ensures Admitted(auth) && UpdateProblem(auth, b).Some? ==> r == Outcome(Fail(StatusBadRequest, UpdateProblem(auth, b).value), rows)
    ensures r.response.status == StatusNotFound <==>
              Admitted(auth) && UpdateProblem(auth, b).None? && !UpdateReaches(auth, b, rows)
    ensures r.response.status == StatusConflict <==>
              UpdateReaches(auth, b, rows) && UpdateWrite(auth, b, rows).EmailExists?
    ensures r.response.status == StatusBadRequest <==>
              Admitted(auth) &&
              (UpdateProblem(auth, b).Some? ||
               (UpdateReaches(auth, b, rows) && UpdateWrite(auth, b, rows).Written? && ShortPassword(b)))
    ensures r.response.status in {StatusNotFound, StatusConflict} ==> r.state == rows
    ensures UpdateReaches(auth, b, rows) && UpdateWrite(auth, b, rows).Written? && !ShortPassword(b) ==>
              r.response.Json?
    ensures r.response.Json? ==>
              && r.response.status == StatusOk
              && UpdateReaches(auth, b, rows)
              && var id := ParseId(b.id.value).value;
                 var w := UpdateWrite(auth, b, rows);
                 && w.Written? && r.response.value == Public(w.user) && r.response.value.id == id
                 && r.state == if Truthy(b.password) then UpdateUserPassword(w.rows, id, b.password.value, hash)
                               else w.rows
    ensures r.state != rows ==>
              && UpdateReaches(auth, b, rows) && UpdateWrite(auth, b, rows).Written?
              && var id := ParseId(b.id.value).value;
                 var w := UpdateWrite(auth, b, rows);
                 r.state == if Truthy(b.password) && |b.password.value| >= 6
                            then UpdateUserPassword(w.rows, id, b.password.value, hash)
                            else w.rows
  {
    if !Admitted(auth) then Outcome(Fail(StatusUnauthorized, "Unauthorized"), rows)
    else match UpdateProblem(auth, b)
    case Some(m) => Outcome(Fail(StatusBadRequest, m), rows)
    case None =>
      match ParseId(b.id.value)
      case None => Outcome(Fail(StatusNotFound, "User not found"), rows)
      case Some(id) =>
        match UpdateUser(rows, id, UpdateData(b))
        case NoSuchUser => Outcome(Fail(StatusNotFound, "User not found"), rows)
        case EmailExists =>
          CatchIsConflict();
          Outcome(Fail(CatchStatus(UniqueEmailMessage), "Email already exists"), rows)
        case Written(u, rows') =>
          if Truthy(b.password) then
            if |b.password.value| < 6 then
              Outcome(Fail(StatusBadRequest, "Password must be at least 6 characters"), rows')
            else
              Outcome(Json(StatusOk, Public(u)), UpdateUserPassword(rows', id, b.password.value, hash))
          else Outcome(Json(StatusOk, Public(u)), rows')
  }

  /** PUT as evidently intended: the password's length is checked with the
      other fields, before anything is written; otherwise as `Update`. */
  function UpdateChecked(auth: AuthState, b: UpdateBody, rows: seq<UserRecord>, hash: string -> string)
    : (r: Outcome<UserPublic, seq<UserRecord>>)
    ensures r.response.Fail? ==> r.state == rows
    ensures Admitted(auth) && UpdateProblem(auth, b).None? && ShortPassword(b) ==>
              r == Outcome(Fail(StatusBadRequest, "Password must be at least 6 characters"), rows)
    ensures r.response.Json? ==> r == Update(auth, b, rows, hash)
    ensures !(Admitted(auth) && UpdateProblem(auth, b).None? && ShortPassword(b)) ==> r == Update(auth, b, rows, hash)
  {
    if Admitted(auth) && UpdateProblem(auth, b).None? && ShortPassword(b) then
      Outcome(Fail(StatusBadRequest, "Password must be at least 6 characters"), rows)
    else Update(auth, b, rows, hash)
  }

  // ---------------------------------------------------------------------
  // DELETE

  datatype RemoveParams = RemoveParams(id: Option<string>, hard: Option<string>)

  /** DELETE: hard delete when `hard=true`, deactivation otherwise; never
      the caller's own account. */
  function Remove(auth: AuthState, p: RemoveParams, rows: seq<UserRecord>): (r: Outcome<string, seq<UserRecord>>)
    ensures !Admitted(auth) ==> r == Outcome(Fail(StatusUnauthorized, "Unauthorized"), rows)
    ensures Admitted(auth) && !Truthy(p.id) ==> r == Outcome(Fail(StatusBadRequest, "User ID is required"), rows)
    ensures Admitted(auth) && Truthy(p.id) && IsCaller(ParseInt(p.id.value), auth) ==>
              r == Outcome(Fail(StatusBadRequest, "Cannot delete your own account"), rows)
    ensures r.response.Fail? ==> r.state == rows
    ensures r.response.status == StatusNotFound <==>
              Admitted(auth) && Truthy(p.id) && !IsCaller(ParseInt(p.id.value), auth)
              && (ParseInt(p.id.value).None? || FindById(rows, ParseInt(p.id.value).value).None?)
    ensures Admitted(auth) && Truthy(p.id) && !IsCaller(ParseInt(p.id.value), auth)
            && ParseInt(p.id.value).Some? && FindById(rows, ParseInt(p.id.value).value).Some? ==>
              r.response.Json?
    ensures r.response.Json? ==>
              Admitted(auth) && Truthy(p.id) && ParseInt(p.id.value).Some? &&
              var id := ParseInt(p.id.value).value;
              && FindById(rows, id).Some? && !IsCaller(Some(id), auth)
              && r.response == Json(StatusOk, if p.hard == Some("true") then "User deleted permanently" else "User deactivated")
              && r.state == if p.hard == Some("true") then DeleteUser(rows, id).1 else DeactivateUser(rows, id).1
  {
    if !Admitted(auth) then Outcome(Fail(StatusUnauthorized, "Unauthorized"), rows)
    else
      var hard := Is(p.hard, "true");
      if !Truthy(p.id) then Outcome(Fail(StatusBadRequest, "User ID is required"), rows)
      else
        var userId := ParseInt(p.id.value);
        if IsCaller(userId, auth) then Outcome(Fail(StatusBadRequest, "Cannot delete your own account"), rows)
        else match userId
        case None => Outcome(Fail(StatusNotFound, "User not found"), rows)
        case Some(id) =>
          if hard then
            var (ok, rows') := DeleteUser(rows, id);
            if !ok then Outcome(Fail(StatusNotFound, "User not found"), rows)
            else Outcome(Json(StatusOk, "User deleted permanently"), rows')
          else
            var (ok, rows') := DeactivateUser(rows, id);
            if !ok then Outcome(Fail(StatusNotFound, "User not found"), rows)
            else Outcome(Json(StatusOk, "User deactivated"), rows')
  }

  // ---------------------------------------------------------------------
  // Properties across the handlers

  /** No handler lets anyone but an authenticated admin through, and the
      refusal is always 401: this route has no 403. */
  lemma GateIsUnauthorizedOnly(auth: AuthState, p: ListParams, cb: CreateBody, ub: UpdateBody, rp: RemoveParams,
                               rows: seq<UserRecord>, hash: string -> string, stamp: string)
    requires !Admitted(auth)
    ensures List(auth, p).status == StatusUnauthorized
    ensures Create(auth, cb, rows, hash, stamp) == Outcome(Fail(StatusUnauthorized, "Unauthorized"), rows)
    ensures Update(auth, ub, rows, hash) == Outcome(Fail(StatusUnauthorized, "Unauthorized"), rows)
    ensures Remove(auth, rp, rows) == Outcome(Fail(StatusUnauthorized, "Unauthorized"), rows)
  {
  }

  /** No handler breaks the table's unique ids and e-mails: neither POST, */
  lemma CreateKeepsWellFormed(auth: AuthState, b: CreateBody, rows: seq<UserRecord>, hash: string -> string, stamp: string)
    requires WellFormed(rows)
    ensures WellFormed(Create(auth, b, rows, hash, stamp).state)
  {
    if Admitted(auth) && CreateProblem(b).None? && CreateUser(rows, CreateInput(b), hash, stamp).Written? {
      CreateUserKeepsWellFormed(rows, CreateInput(b), hash, stamp);
    }
  }

  /** nor PUT, */
  lemma UpdateKeepsWellFormed(auth: AuthState, b: UpdateBody, rows: seq<UserRecord>, hash: string -> string)
    requires WellFormed(rows)
    ensures WellFormed(Update(auth, b, rows, hash).state)
  {
    var r := Update(auth, b, rows, hash);
    if r.state != rows {
      UpdateUserKeepsWellFormed(rows, ParseId(b.id.value).value, UpdateData(b));
    }
  }

  /** nor DELETE. */
  lemma RemoveKeepsWellFormed(auth: AuthState, p: RemoveParams, rows: seq<UserRecord>)
    requires WellFormed(rows)
    ensures WellFormed(Remove(auth, p, rows).state)
  {
  }

  /** An admin cannot deactivate their own account through PUT, whether
      they send their id as a number or written in decimal. */
  lemma NoSelfDeactivation(auth: AuthState, b: UpdateBody, rows: seq<UserRecord>, hash: string -> string)
    requires Admitted(auth) && auth.user.Some? && auth.user.value.id != 0
    requires b.id == Some(NumberId(auth.user.value.id)) || b.id == Some(StringId(DecimalString(auth.user.value.id)))
    requires b.status == Some(Inactive)
    ensures Update(auth, b, rows, hash) == Outcome(Fail(StatusBadRequest, "Cannot deactivate your own account"), rows)
  {
    var id := auth.user.value.id;
    ParseIntDecimal(id);
    assert IdTruthy(b.id) by {
      assert |DecimalString(id)| > 0;
    }
    assert IsCaller(ParseId(b.id.value), auth);
    assert UpdateProblem(auth, b) == Some("Cannot deactivate your own account");
  }

  /** A numeric id of 0 is falsy: PUT asks for an id, whatever else the
      body holds. */
  lemma ZeroIdRequired(auth: AuthState, b: UpdateBody, rows: seq<UserRecord>, hash: string -> string)
    requires Admitted(auth) && b.id == Some(NumberId(0))
    ensures Update(auth, b, rows, hash) == Outcome(Fail(StatusBadRequest, "User ID is required"), rows)
  {
  }

  /** Nor delete it, hard or soft. */
  lemma NoSelfDeletion(auth: AuthState, hard: Option<string>, rows: seq<UserRecord>)
    requires Admitted(auth) && auth.user.Some?
    ensures Remove(auth, RemoveParams(Some(DecimalString(auth.user.value.id)), hard), rows)
            == Outcome(Fail(StatusBadRequest, "Cannot delete your own account"), rows)
  {
    var id := auth.user.value.id;
    ParseIntDecimal(id);
    assert |DecimalString(id)| > 0;
  }

  /** A too-short new password is refused with 400, yet the other fields
      of the same request have already been written. */
  lemma ShortPasswordAfterUpdate(auth: AuthState, b: UpdateBody, rows: seq<UserRecord>, hash: string -> string)
    requires Admitted(auth) && UpdateProblem(auth, b).None?
    requires ParseId(b.id.value).Some?
    requires UpdateUser(rows, ParseId(b.id.value).value, UpdateData(b)).Written?
    requires Truthy(b.password) && |b.password.value| < 6
    ensures Update(auth, b, rows, hash).response.status == StatusBadRequest
    ensures Update(auth, b, rows, hash).state == UpdateUser(rows, ParseId(b.id.value).value, UpdateData(b)).rows
    ensures b.name.Some? && FindById(rows, ParseId(b.id.value).value).value.name != Trim(b.name.value) ==>
              Update(auth, b, rows, hash).state != rows
  {
    var id := ParseId(b.id.value).value;
    var u := FindById(rows, id).value;
    if b.name.Some? && u.name != Trim(b.name.value) {
      var i :| 0 <= i < |rows| && rows[i] == u;
      var w := UpdateUser(rows, id, UpdateData(b));
      assert w.rows[i] == Patch(u, UpdateData(b));
      assert w.rows[i].name != rows[i].name;
    }
  }

  /** An empty e-mail passes PUT's format check (it is falsy) and is still
      copied into the update, since it is not `undefined`. */
  lemma EmptyEmailPassesUpdate(auth: AuthState, b: UpdateBody)
    requires b.email == Some("")
    ensures UpdateData(b).email == Some("")
    ensures UpdateProblem(auth, b) != Some("Invalid email format")
  {
    assert Trim("") == "";
  }

  /** Normalising an e-mail twice changes nothing more, and keeps its `@`. */
  lemma NormalizeEmailProperties(email: string)
    ensures NormalizeEmail(NormalizeEmail(email)) == NormalizeEmail(email)
    ensures '@' in email ==> '@' in NormalizeEmail(email)
  {
    var t := Trim(email);
    var n := ToLower(t);
    if n != [] {
      assert n[0] == LowerChar(t[0]) && n[|n| - 1] == LowerChar(t[|t| - 1]);
    }
    assert Trim(n) == n;
    ToLowerIdempotent(t);
    if '@' in email {
      TrimKeeps(email, '@');
      var k :| 0 <= k < |t| && t[k] == '@';
      assert n[k] == '@';
    }
  }
}
