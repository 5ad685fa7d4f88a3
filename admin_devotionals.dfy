/** The devotional-administration handlers of
    `app/api/admin/devotionals/route.ts`, over a devotional table keyed by id.

    Each handler runs `requireAdmin` first inside its `try`; here it
    receives that call's outcome (`Auth.Guard`) and maps a thrown message
    to a status the way the `catch` arm does. The table helpers of the
    storage layer are not part of this model; they are given the meaning
    the handlers rely on (see each one). */
module AdminDevotionals {
  import opened Wrappers
  import opened Text
  import opened Http
  import opened UsersDb
  import opened Auth

  const Draft: string := "draft"
  const Published: string := "published"

  /** A devotional post; `deleted` is the soft-delete mark. */
  datatype Devotional = Devotional(id: int, title: string, content: string, date: string,
                                   status: string, deleted: bool)

  type Table = map<int, Devotional>

  /** The `catch` arm: the thrown message decides between 401, 403 and 500. */
  function CatchStatus(message: string): (status: int)
    ensures Includes(message, "Unauthorized") ==> status == StatusUnauthorized
    ensures !Includes(message, "Unauthorized") && Includes(message, "Forbidden") ==> status == StatusForbidden
    ensures !Includes(message, "Unauthorized") && !Includes(message, "Forbidden") ==> status == StatusServerError
  {
    if Includes(message, "Unauthorized") then StatusUnauthorized
    else if Includes(message, "Forbidden") then StatusForbidden
    else StatusServerError
  }

  /** The reply of the `catch` arm; `fallback` is the handler's own 500 text. */
  function Caught<T>(message: string, fallback: string): (r: Response<T>)
    ensures r.Fail? && r.status == CatchStatus(message)
  {
    var status := CatchStatus(message);
    if status == StatusUnauthorized then Fail(status, "Unauthorized")
    else if status == StatusForbidden then Fail(status, "Forbidden")
    else Fail(status, fallback)
  }

  /** A message that starts with `pat` includes it. */
  lemma IncludesPrefix(m: string, pat: string)
    requires |pat| <= |m| && m[..|pat|] == pat
    ensures Includes(m, pat)
  {
    IncludesAt(m, pat, 0);
  }

  /** Any message that starts with "Forbidden" and has no 'U' lands on 403. */
  lemma ForbiddenLike(m: string)
    requires 9 <= |m| && m[..9] == "Forbidden" && 'U' !in m
    ensures CatchStatus(m) == StatusForbidden
  {
    ExcludesByFirst(m, "Unauthorized");
    IncludesPrefix(m, "Forbidden");
  }

  /** The message `requireAdmin` throws without a session lands on 401. */
  lemma UnauthorizedStatus()
    ensures CatchStatus(UnauthorizedMessage) == StatusUnauthorized
  {
    IncludesPrefix(UnauthorizedMessage, "Unauthorized");
  }

  /** The message it throws for a non-admin lands on 403: it does not
      mention "Unauthorized", and it starts with "Forbidden". */
  lemma ForbiddenStatus()
    ensures CatchStatus(ForbiddenMessage) == StatusForbidden
  {
    ForbiddenLike(ForbiddenMessage);
  }

  /** Whoever `requireAdmin` turns away gets 401 when there is no user
      behind the cookie and 403 when the user is not an admin. */
  lemma RefusalStatus(user: Option<UserPublic>)
    requires RequireAdminOf(user).Thrown?
    ensures user.None? ==> CatchStatus(RequireAdminOf(user).message) == StatusUnauthorized
    ensures user.Some? ==> CatchStatus(RequireAdminOf(user).message) == StatusForbidden
  {
    UnauthorizedStatus();
    ForbiddenStatus();
  }

  // ---------------------------------------------------------------------
  // GET

  datatype ListParams = ListParams(status: Option<string>, search: Option<string>, includeDeleted: Option<string>)

  /** The filters handed to `listDevotionals`. */
  datatype DevotionalQuery = DevotionalQuery(status: Option<string>, search: Option<string>, includeDeleted: bool)

  function ListQuery(p: ListParams): (q: DevotionalQuery)
    ensures q.includeDeleted <==> p.includeDeleted == Some("true")
    ensures q.status.Some? <==> Truthy(p.status)
    ensures q.status.Some? ==> q.status == p.status
    ensures q.search.Some? <==> Truthy(p.search)
    ensures q.search.Some? ==> q.search == p.search
  {
    DevotionalQuery(OrUndefined(p.status), OrUndefined(p.search), Is(p.includeDeleted, "true"))
  }

  function List(guard: Guard, p: ListParams): (r: Response<DevotionalQuery>)
    ensures guard.Thrown? ==> r.Fail? && r.status == CatchStatus(guard.message)
    ensures guard.Allowed? ==> r == Json(StatusOk, ListQuery(p))
  {
    match guard
    case Thrown(m) => Caught(m, "Failed to fetch devotionals")
    case Allowed(_) => Json(StatusOk, ListQuery(p))
  }

  // ---------------------------------------------------------------------
  // POST

  datatype CreateBody = CreateBody(title: Option<string>, content: Option<string>,
                                   date: Option<string>, status: Option<string>)

  /** POST: `freshId` is the id the table assigns to the new row. */
  function Create(guard: Guard, b: CreateBody, table: Table, freshId: int): (r: Outcome<Devotional, Table>)
    requires freshId !in table
    ensures guard.Thrown? ==> r.response.Fail? && r.response.status == CatchStatus(guard.message) && r.state == table
    ensures guard.Allowed? ==>
              (r.response.status == StatusBadRequest <==> !Truthy(b.title) || !Truthy(b.content) || !Truthy(b.date))
    ensures guard.Allowed? && Truthy(b.title) && Truthy(b.content) && Truthy(b.date) ==> r.response.Json?
    ensures r.response.Fail? ==> r.state == table
    ensures r.response.Json? ==>
              && guard.Allowed? && r.response.status == StatusCreated
              && var d := r.response.value;
                 && d.id == freshId && r.state == table[freshId := d]
                 && d.title == Trim(b.title.value) && d.content == b.content.value && d.date == b.date.value
                 && d.status == (if b.status == Some(Published) then Published else Draft)
                 && !d.deleted
  {
    match guard
    case Thrown(m) => Outcome(Caught(m, "Failed to create devotional"), table)
    case Allowed(_) =>
      if !Truthy(b.title) || !Truthy(b.content) || !Truthy(b.date) then
        Outcome(Fail(StatusBadRequest, "Missing required fields: title, content, devotional_date"), table)
      else
        var d := Devotional(freshId, Trim(b.title.value), b.content.value, b.date.value,
                            if Is(b.status, "published") then Published else Draft, false);
        Outcome(Json(StatusCreated, d), table[freshId := d])
  }

  // ---------------------------------------------------------------------
  // PATCH

  /** The PATCH body; `id` is the JSON number sent, falsy when 0. */
  datatype UpdateBody = UpdateBody(id: Option<int>, title: Option<string>, content: Option<string>,
                                   date: Option<string>, status: Option<string>)

  /** `Partial<DevotionalInput>`: a present field replaces the column. */
  datatype DevotionalUpdate = DevotionalUpdate(title: Option<string>, content: Option<string>,
                                               date: Option<string>, status: Option<string>)

  function UpdateData(b: UpdateBody): (u: DevotionalUpdate)
    ensures u.title.Some? <==> b.title.Some?
    ensures b.title.Some? ==> u.title.value == Trim(b.title.value)
    ensures u.content == b.content && u.date == b.date && u.status == b.status
  {
    DevotionalUpdate(if b.title.Some? then Some(Trim(b.title.value)) else None, b.content, b.date, b.status)
  }

  /** `updateDevotional` on one row: a present field replaces its column,
      an absent one leaves it; the id and the deleted mark are kept. */
  function Apply(d: Devotional, u: DevotionalUpdate): (r: Devotional)
    ensures r.id == d.id && r.deleted == d.deleted
    ensures r.title == (if u.title.Some? then u.title.value else d.title)
    ensures r.content == (if u.content.Some? then u.content.value else d.content)
    ensures r.date == (if u.date.Some? then u.date.value else d.date)
    ensures r.status == (if u.status.Some? then u.status.value else d.status)
  {
    d.(title := u.title.GetOr(d.title), content := u.content.GetOr(d.content),
       date := u.date.GetOr(d.date), status := u.status.GetOr(d.status))
  }

  function Update(guard: Guard, b: UpdateBody, table: Table): (r: Outcome<Devotional, Table>)
    ensures guard.Thrown? ==> r.response.Fail? && r.response.status == CatchStatus(guard.message) && r.state == table
    ensures guard.Allowed? && (b.id.None? || b.id == Some(0)) ==> r.response.status == StatusBadRequest && r.state == table
    ensures guard.Allowed? && b.id.Some? && b.id.value != 0 && b.id.value !in table ==>
              r.response.status == StatusNotFound && r.state == table
    ensures guard.Allowed? && b.id.Some? && b.id.value != 0 && b.id.value in table ==> r.response.Json?
    ensures r.response.Json? ==>
              && guard.Allowed? && b.id.Some? && b.id.value in table && r.response.status == StatusOk
              && r.response.value == Apply(table[b.id.value], UpdateData(b))
              && r.state == table[b.id.value := r.response.value]
  {
    match guard
    case Thrown(m) => Outcome(Caught(m, "Failed to update devotional"), table)
    case Allowed(_) =>
      if b.id.None? || b.id.value == 0 then Outcome(Fail(StatusBadRequest, "Devotional ID is required"), table)
      else if b.id.value !in table then Outcome(Fail(StatusNotFound, "Devotional not found"), table)
      else
        var d := Apply(table[b.id.value], UpdateData(b));
        Outcome(Json(StatusOk, d), table[b.id.value := d])
  }

  /** A PATCH changes only the fields its body carries, and only in the
      row it names. */
  lemma UpdateTouchesOnlyPresentFields(guard: Guard, b: UpdateBody, table: Table, other: int)
    requires Update(guard, b, table).response.Json?
    ensures var d := Update(guard, b, table).response.value;
            var old_ := table[b.id.value];
            && (b.title.None? ==> d.title == old_.title)
            && (b.content.None? ==> d.content == old_.content)
            && (b.date.None? ==> d.date == old_.date)
            && (b.status.None? ==> d.status == old_.status)
            && d.id == old_.id && d.deleted == old_.deleted
    ensures other != b.id.value ==>
              var t := Update(guard, b, table).state;
              (other in t <==> other in table) && (other in table ==> t[other] == table[other])
  {
  }

  // ---------------------------------------------------------------------
  // DELETE

  datatype RemoveParams = RemoveParams(id: Option<string>, action: Option<string>)

  /** `softDeleteDevotional`: succeeds on a row not already deleted. */
  function SoftDelete(table: Table, id: int): (r: (bool, Table))
    ensures r.0 <==> id in table && !table[id].deleted
    ensures r.1.Keys == table.Keys
    ensures forall k :: k in table ==> r.1[k] == table[k].(deleted := r.1[k].deleted)
    ensures forall k :: k in table ==> (r.1[k].deleted <==> k == id || table[k].deleted)
  {
    if id in table && !table[id].deleted then (true, table[id := table[id].(deleted := true)])
    else (false, table)
  }

  /** `restoreDevotional`: succeeds on a deleted row. */
  function Restore(table: Table, id: int): (r: (bool, Table))
    ensures r.0 <==> id in table && table[id].deleted
    ensures r.1.Keys == table.Keys
    ensures forall k :: k in table ==> r.1[k] == table[k].(deleted := r.1[k].deleted)
    ensures forall k :: k in table ==> (r.1[k].deleted <==> k != id && table[k].deleted)
  {
    if id in table && table[id].deleted then (true, table[id := table[id].(deleted := false)])
    else (false, table)
  }

  /** DELETE: restore when `action=restore`, soft delete for any other action. */
  function Remove(guard: Guard, p: RemoveParams, table: Table): (r: Outcome<bool, Table>)
    ensures guard.Thrown? ==> r.response.Fail? && r.response.status == CatchStatus(guard.message) && r.state == table
    ensures guard.Allowed? && !Truthy(p.id) ==> r.response.status == StatusBadRequest
    ensures guard.Allowed? && Truthy(p.id) && ParseInt(p.id.value).None? ==> r.response.status == StatusBadRequest
    ensures guard.Allowed? && Truthy(p.id) && ParseInt(p.id.value).Some? && ParseInt(p.id.value).value !in table ==>
              r.response.status == StatusNotFound
    ensures guard.Allowed? && Truthy(p.id) && ParseInt(p.id.value).Some? && ParseInt(p.id.value).value in table ==>
              var id := ParseInt(p.id.value).value;
              && (p.action == Some("restore") && !table[id].deleted ==>
                    r.response == Fail(StatusBadRequest, "Failed to restore devotional"))
              && (p.action != Some("restore") && table[id].deleted ==>
                    r.response == Fail(StatusNotFound, "Devotional not found or already deleted"))
              && ((p.action == Some("restore") <==> table[id].deleted) ==> r.response == Json(StatusOk, true))
    ensures r.response.Fail? ==> r.state == table
    ensures r.response.Json? ==>
              && guard.Allowed? && Truthy(p.id) && ParseInt(p.id.value).Some?
              && var id := ParseInt(p.id.value).value;
                 && id in table
                 && (p.action == Some("restore") ==> table[id].deleted && r.state == table[id := table[id].(deleted := false)])
                 && (p.action != Some("restore") ==> !table[id].deleted && r.state == table[id := table[id].(deleted := true)])
  {
    match guard
    case Thrown(m) => Outcome(Caught(m, "Failed to delete devotional"), table)
    case Allowed(_) =>
      var action := if Truthy(p.action) then p.action.value else "soft";
      if !Truthy(p.id) then Outcome(Fail(StatusBadRequest, "Devotional ID is required"), table)
      else match ParseInt(p.id.value)
      case None => Outcome(Fail(StatusBadRequest, "Invalid devotional ID"), table)
      case Some(id) =>
        if id !in table then Outcome(Fail(StatusNotFound, "Devotional not found"), table)
        else if action == "restore" then
          var (ok, table') := Restore(table, id);
          if !ok then Outcome(Fail(StatusBadRequest, "Failed to restore devotional"), table)
          else Outcome(Json(StatusOk, true), table')
        else
          var (ok, table') := SoftDelete(table, id);
          if !ok then Outcome(Fail(StatusNotFound, "Devotional not found or already deleted"), table)
          else Outcome(Json(StatusOk, true), table')
  }

  /** `action=hard` is not honoured: it soft-deletes like the default. */
  lemma HardActionSoftDeletes(guard: Guard, id: string, table: Table)
    requires guard.Allowed?
    ensures Remove(guard, RemoveParams(Some(id), Some("hard")), table)
            == Remove(guard, RemoveParams(Some(id), None), table)
  {
  }

  /** Soft delete and restore undo each other. */
  lemma RestoreUndoesSoftDelete(table: Table, id: int)
    requires id in table && !table[id].deleted
    ensures SoftDelete(table, id).0
    ensures Restore(SoftDelete(table, id).1, id) == (true, table)
  {
    var t := SoftDelete(table, id).1;
    assert t[id := t[id].(deleted := false)] == table;
  }
}
