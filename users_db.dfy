/** The user table the authentication layer and the admin handlers consult.
    Its query helpers are not part of this model; here the table is its
    rows in storage order, and each helper is given the meaning its callers
    rely on: look-ups by id and by e-mail, an e-mail column under a UNIQUE
    constraint, and writes that report "not found" by their result. */
module UsersDb {
  import opened Wrappers

  const AdminRole: string := "admin"
  const UserRole: string := "user"
  const Active: string := "active"
  const Inactive: string := "inactive"

  /** A row of the user table, password hash included. */
  datatype UserRecord = UserRecord(
    id: int, name: string, email: string, role: string, status: string,
    passwordHash: string, createdAt: string, updatedAt: string)

  /** The public projection of a user: every column but the password hash. */
  datatype UserPublic = UserPublic(
    id: int, name: string, email: string, role: string, status: string,
    createdAt: string, updatedAt: string)

  function Public(u: UserRecord): UserPublic
  {
    UserPublic(u.id, u.name, u.email, u.role, u.status, u.createdAt, u.updatedAt)
  }

  /** Primary key and UNIQUE e-mail: no two rows share an id or an e-mail. */
  predicate WellFormed(rows: seq<UserRecord>)
  {
    forall i, j :: 0 <= i < j < |rows| ==> rows[i].id != rows[j].id && rows[i].email != rows[j].email
  }

  /** `getUserById` without the projection: the row with that id. */
  function FindById(rows: seq<UserRecord>, id: int): (r: Option<UserRecord>)
    ensures r.Some? ==> r.value in rows && r.value.id == id
    ensures r.None? <==> forall i :: 0 <= i < |rows| ==> rows[i].id != id
  {
    if |rows| == 0 then None
    else if rows[0].id == id then Some(rows[0])
    else
      var r := FindById(rows[1..], id);
      assert forall i :: 1 <= i < |rows| ==> rows[i] == rows[1..][i - 1];
      r
  }

  /** `getUserByEmailWithPassword`: the row with that e-mail, hash included. */
  function FindByEmail(rows: seq<UserRecord>, email: string): (r: Option<UserRecord>)
    ensures r.Some? ==> r.value in rows && r.value.email == email
    ensures r.None? <==> forall i :: 0 <= i < |rows| ==> rows[i].email != email
  {
    if |rows| == 0 then None
    else if rows[0].email == email then Some(rows[0])
    else
      var r := FindByEmail(rows[1..], email);
      assert forall i :: 1 <= i < |rows| ==> rows[i] == rows[1..][i - 1];
      r
  }

  /** `getUserById`: the public projection of the row with that id. */
  function GetUserById(rows: seq<UserRecord>, id: int): (r: Option<UserPublic>)
    ensures r.Some? <==> FindById(rows, id).Some?
    ensures r.Some? ==> r.value == Public(FindById(rows, id).value) && r.value.id == id
  {
    match FindById(rows, id)
    case Some(u) => Some(Public(u))
    case None => None
  }

  /** Some row other than the one with id `except` already has `email`. */
  predicate EmailTaken(rows: seq<UserRecord>, email: string, except: Option<int>)
  {
    exists i :: 0 <= i < |rows| && rows[i].email == email && Some(rows[i].id) != except
  }

  /** The id the table hands to the next inserted row: one past the largest. */
  function NextId(rows: seq<UserRecord>): (r: int)
    ensures forall i :: 0 <= i < |rows| ==> rows[i].id < r
  {
    if |rows| == 0 then 1
    else
      var rest := NextId(rows[1..]);
      assert forall i :: 1 <= i < |rows| ==> rows[i] == rows[1..][i - 1];
      if rows[0].id < rest then rest else rows[0].id + 1
  }

  /** The fields `createUser` receives, already validated and normalised. */
  datatype NewUser = NewUser(name: string, email: string, password: string, role: string, status: string)

  /** The partial update `updateUser` receives: a present field replaces the column. */
  datatype UserUpdate = UserUpdate(name: Option<string>, email: Option<string>, role: Option<string>, status: Option<string>)

  /** The row after a partial update: a present field replaces its column,
      an absent one leaves it; id, hash and timestamps are kept. */
  function Patch(u: UserRecord, d: UserUpdate): (r: UserRecord)
    ensures r.id == u.id && r.passwordHash == u.passwordHash
    ensures r.createdAt == u.createdAt && r.updatedAt == u.updatedAt
    ensures r.name == (if d.name.Some? then d.name.value else u.name)
    ensures r.email == (if d.email.Some? then d.email.value else u.email)
    ensures r.role == (if d.role.Some? then d.role.value else u.role)
    ensures r.status == (if d.status.Some? then d.status.value else u.status)
  {
    u.(name := d.name.GetOr(u.name), email := d.email.GetOr(u.email),
       role := d.role.GetOr(u.role), status := d.status.GetOr(u.status))
  }

  /** The outcome of a write that can miss its row or break the e-mail constraint. */
  datatype Write = Written(user: UserRecord, rows: seq<UserRecord>) | NoSuchUser | EmailExists

  /** `createUser`: a new row at the next id, with the password stored as `hash` of it. */
  function CreateUser(rows: seq<UserRecord>, input: NewUser, hash: string -> string, stamp: string): (w: Write)
    ensures !w.NoSuchUser?
    ensures w.EmailExists? <==> EmailTaken(rows, input.email, None)
    ensures w.Written? ==> w.rows == rows + [w.user] && w.user.id !in set i | 0 <= i < |rows| :: rows[i].id
    ensures w.Written? ==> w.user.email == input.email && w.user.passwordHash == hash(input.password)
  {
    if EmailTaken(rows, input.email, None) then EmailExists
    else
      var u := UserRecord(NextId(rows), input.name, input.email, input.role, input.status,
                          hash(input.password), stamp, stamp);
      Written(u, rows + [u])
  }

  /** Every row with id `id` replaced by `f` of itself. */
  function UpdateWhere(rows: seq<UserRecord>, id: int, f: UserRecord -> UserRecord): (r: seq<UserRecord>)
    ensures |r| == |rows|
    ensures forall i :: 0 <= i < |rows| ==> r[i] == if rows[i].id == id then f(rows[i]) else rows[i]
  {
    seq(|rows|, i requires 0 <= i < |rows| => if rows[i].id == id then f(rows[i]) else rows[i])
  }

  /** `updateUser`: the row with that id takes the present fields, unless it
      is missing or its new e-mail belongs to another row. */
  function UpdateUser(rows: seq<UserRecord>, id: int, d: UserUpdate): (w: Write)
    ensures w.NoSuchUser? <==> FindById(rows, id).None?
    ensures w.EmailExists? <==> FindById(rows, id).Some? && d.email.Some? && EmailTaken(rows, d.email.value, Some(id))
    ensures w.Written? ==> w.user == Patch(FindById(rows, id).value, d)
    ensures w.Written? ==> w.rows == UpdateWhere(rows, id, u => Patch(u, d))
  {
    match FindById(rows, id)
    case None => NoSuchUser
    case Some(u) =>
      if d.email.Some? && EmailTaken(rows, d.email.value, Some(id)) then EmailExists
      else Written(Patch(u, d), UpdateWhere(rows, id, u => Patch(u, d)))
  }

  /** `updateUserPassword`: the row with that id stores `hash` of the new password. */
  function UpdateUserPassword(rows: seq<UserRecord>, id: int, password: string, hash: string -> string)
    : (r: seq<UserRecord>)
    ensures |r| == |rows|
    ensures forall i :: 0 <= i < |rows| ==> Public(r[i]) == Public(rows[i])
    ensures forall i :: 0 <= i < |rows| ==>
              r[i].passwordHash == if rows[i].id == id then hash(password) else rows[i].passwordHash
    ensures WellFormed(rows) ==> WellFormed(r)
  {
    UpdateWhere(rows, id, (u: UserRecord) => u.(passwordHash := hash(password)))
  }

  /** `deactivateUser`: true, and the row's status set to inactive, when the row exists. */
  function DeactivateUser(rows: seq<UserRecord>, id: int): (r: (bool, seq<UserRecord>))
    ensures r.0 <==> FindById(rows, id).Some?
    ensures |r.1| == |rows|
    ensures forall i :: 0 <= i < |rows| ==> r.1[i].status == if rows[i].id == id then Inactive else rows[i].status
    ensures forall i :: 0 <= i < |rows| ==> r.1[i] == rows[i].(status := r.1[i].status)
    ensures !r.0 ==> r.1 == rows
    ensures WellFormed(rows) ==> WellFormed(r.1)
  {
    (FindById(rows, id).Some?, UpdateWhere(rows, id, (u: UserRecord) => u.(status := Inactive)))
  }

  /** The rows whose id differs from `id`, in order. */
  function RemoveId(rows: seq<UserRecord>, id: int): (r: seq<UserRecord>)
    ensures forall u :: u in r <==> u in rows && u.id != id
    ensures |r| <= |rows|
  {
    if |rows| == 0 then []
    else
      var rest := RemoveId(rows[1..], id);
      assert rows == [rows[0]] + rows[1..];
      if rows[0].id == id then rest else [rows[0]] + rest
  }

  /** Removing an id no row has changes nothing. */
  lemma {:induction false} RemoveAbsentId(rows: seq<UserRecord>, id: int)
    requires forall i :: 0 <= i < |rows| ==> rows[i].id != id
    ensures RemoveId(rows, id) == rows
  {
    if |rows| > 0 {
      assert forall i :: 1 <= i < |rows| ==> rows[i] == rows[1..][i - 1];
      RemoveAbsentId(rows[1..], id);
      assert rows == [rows[0]] + rows[1..];
    }
  }

  /** Removing rows keeps ids and e-mails unique. */
  lemma {:induction false} RemoveIdKeepsWellFormed(rows: seq<UserRecord>, id: int)
    requires WellFormed(rows)
    ensures WellFormed(RemoveId(rows, id))
  {
    if |rows| > 0 {
      assert WellFormed(rows[1..]) by {
        assert forall i :: 1 <= i < |rows| ==> rows[i] == rows[1..][i - 1];
      }
      RemoveIdKeepsWellFormed(rows[1..], id);
      if rows[0].id != id {
        KeepsWellFormed(rows, RemoveId(rows[1..], id));
      }
    }
  }

  /** The first row followed by rows taken from the others stays well
      formed, when the table was. */
  lemma KeepsWellFormed(rows: seq<UserRecord>, rest: seq<UserRecord>)
    requires |rows| > 0 && WellFormed(rows) && WellFormed(rest)
    requires forall u :: u in rest ==> u in rows[1..]
    ensures WellFormed([rows[0]] + rest)
  {
    var t := [rows[0]] + rest;
    forall i, j | 0 <= i < j < |t|
      ensures t[i].id != t[j].id && t[i].email != t[j].email
    {
      if i == 0 {
        assert t[j] in rows[1..];
        var k :| 0 <= k < |rows[1..]| && rows[1..][k] == t[j];
        assert rows[k + 1] == t[j];
      } else {
        assert t[i] == rest[i - 1] && t[j] == rest[j - 1];
      }
    }
  }

  /** `deleteUser`: true, and the row gone, when the row exists. */
  function DeleteUser(rows: seq<UserRecord>, id: int): (r: (bool, seq<UserRecord>))
    ensures r.0 <==> FindById(rows, id).Some?
    ensures forall u :: u in r.1 <==> u in rows && u.id != id
    ensures !r.0 ==> r.1 == rows
    ensures WellFormed(rows) ==> WellFormed(r.1)
  {
    var found := FindById(rows, id).Some?;
    assert !found ==> RemoveId(rows, id) == rows by {
      if !found { RemoveAbsentId(rows, id); }
    }
    assert WellFormed(rows) ==> WellFormed(RemoveId(rows, id)) by {
      if WellFormed(rows) { RemoveIdKeepsWellFormed(rows, id); }
    }
    (found, RemoveId(rows, id))
  }

  /** Writes by id touch only that row, so the table stays well formed as
      long as the e-mails stay distinct. */
  lemma UpdateUserKeepsWellFormed(rows: seq<UserRecord>, id: int, d: UserUpdate)
    requires WellFormed(rows)
    requires UpdateUser(rows, id, d).Written?
    ensures WellFormed(UpdateUser(rows, id, d).rows)
  {
    assert d.email.Some? ==> forall k :: 0 <= k < |rows| && rows[k].id != id ==> rows[k].email != d.email.value;
  }

  lemma CreateUserKeepsWellFormed(rows: seq<UserRecord>, input: NewUser, hash: string -> string, stamp: string)
    requires WellFormed(rows)
    requires CreateUser(rows, input, hash, stamp).Written?
    ensures WellFormed(CreateUser(rows, input, hash, stamp).rows)
  {
    var w := CreateUser(rows, input, hash, stamp);
    assert forall k :: 0 <= k < |rows| ==> rows[k].email != input.email;
    assert forall k :: 0 <= k < |rows| ==> rows[k].id < w.user.id;
  }
}
