/** The user table and the four repository operations over it. The table is a
    map from id to row; what the database driver answers besides the data (a
    failed read, a failed transaction) is passed in as `Faults`. */
module UserRepository {
  import opened Failure
  import opened Primitives
  import opened UserModel

  type Table = map<Uuid, User>

  /** The driver's answer to this call: the error text of a failing read (the
      existence count or the username lookup) and of a failing write transaction. */
  datatype Faults = Faults(read: Option<string>, write: Option<string>)

  const NoFaults: Faults := Faults(None, None)

  /** A user in the form a row is read back in: no access token, and every
      invalid nullable holds its zero value. */
  predicate Normalized(u: User) {
    && u.accessToken == ""
    && (!u.updatedAt.valid ==> u.updatedAt == NullTimeUnset)
    && (!u.updatedBy.valid ==> u.updatedBy == NUuidUnset)
    && (!u.deletedAt.valid ==> u.deletedAt == NullTimeUnset)
    && (!u.deletedBy.valid ==> u.deletedBy == NUuidUnset)
  }

  /** The row a user becomes once written and read back: the access token is
      not a column, and an invalid nullable is taken to be written as NULL and
      read back as its zero value, so only its validity survives. */
  function Row(u: User): (row: User)
    ensures Normalized(row)
    ensures row.updatedAt.valid == u.updatedAt.valid && row.updatedBy.valid == u.updatedBy.valid
    ensures row.deletedAt.valid == u.deletedAt.valid && row.deletedBy.valid == u.deletedBy.valid
    ensures u.updatedAt.valid ==> row.updatedAt == u.updatedAt
    ensures u.updatedBy.valid ==> row.updatedBy == u.updatedBy
    ensures u.deletedAt.valid ==> row.deletedAt == u.deletedAt
    ensures u.deletedBy.valid ==> row.deletedBy == u.deletedBy
    ensures row.(accessToken := u.accessToken, updatedAt := u.updatedAt, updatedBy := u.updatedBy,
                 deletedAt := u.deletedAt, deletedBy := u.deletedBy) == u
    ensures Normalized(u) ==> row == u
  {
    u.(accessToken := "",
       updatedAt := if u.updatedAt.valid then u.updatedAt else NullTimeUnset,
       updatedBy := if u.updatedBy.valid then u.updatedBy else NUuidUnset,
       deletedAt := if u.deletedAt.valid then u.deletedAt else NullTimeUnset,
       deletedBy := if u.deletedBy.valid then u.deletedBy else NUuidUnset)
  }

  /** Some row of the table carries this username. */
  predicate HasUsername(t: Table, username: string) {
    exists id :: id in t && t[id].username == username
  }

  /** No two rows share a username (the backing table's unique key, when it has one). */
  predicate UniqueUsernames(t: Table) {
    forall a, b :: a in t && b in t && t[a].username == t[b].username ==> a == b
  }

  /** Whether a row with this id exists; a failed count yields false and the error. */
  function ExistsById(t: Table, id: Uuid, f: Faults): (r: Result<bool>)
    ensures f.read.Some? ==> r == Fail(false, Internal(f.read.value))
    ensures f.read.None? ==> r.Ok? && (r.value <==> id in t)
  {
    match f.read
    case Some(msg) => Fail(false, Internal(msg))
    case None => Ok(id in t)
  }

  /** Inserts a new row, guarded by the existence check: a taken id is a
      conflict, and no failure writes anything. The result carries the table
      after the call. */
  function Create(t: Table, u: User, f: Faults): (r: Result<Table>)
    ensures r.Fail? ==> r.value == t
    ensures f.read.Some? ==> r.Fail? && r.err == Internal(f.read.value)
    ensures f.read.None? && u.id in t ==> r.Fail? && r.err == Conflict
    ensures f.read.None? && u.id !in t ==>
      (r.Ok? <==> f.write.None?) && (r.Fail? ==> r.err == Internal(f.write.value))
    ensures r.Ok? ==>
      && u.id !in t
      && r.value.Keys == t.Keys + {u.id}
      && r.value[u.id] == Row(u)
      && forall id :: id in t ==> r.value[id] == t[id]
  {
    var found := ExistsById(t, u.id, f);
    if found.Fail? then Fail(t, found.err)
    else if found.value then Fail(t, Conflict)
    else match f.write
      case Some(msg) => Fail(t, Internal(msg))
      case None => Ok(t[u.id := Row(u)])
  }

  /** Replaces the whole row at the user's id, guarded by the existence check:
      an absent id is not found, and no failure writes anything. Every column is
      overwritten, the creation and deletion stamps included. */
  function Update(t: Table, u: User, f: Faults): (r: Result<Table>)
    ensures r.Fail? ==> r.value == t
    ensures f.read.Some? ==> r.Fail? && r.err == Internal(f.read.value)
    ensures f.read.None? && u.id !in t ==> r.Fail? && r.err == NotFound
    ensures f.read.None? && u.id in t ==>
      (r.Ok? <==> f.write.None?) && (r.Fail? ==> r.err == Internal(f.write.value))
    ensures r.Ok? ==>
      && u.id in t
      && r.value.Keys == t.Keys
      && r.value[u.id] == Row(u)
      && forall id :: id in t && id != u.id ==> r.value[id] == t[id]
  {
    var found := ExistsById(t, u.id, f);
    if found.Fail? then Fail(t, found.err)
    else if !found.value then Fail(t, NotFound)
    else match f.write
      case Some(msg) => Fail(t, Internal(msg))
      case None => Ok(t[u.id := Row(u)])
  }

  /** The row whose username matches. The database returns the first match in
      an order the model does not know, so any matching row may come back.
      Soft-deleted rows are not filtered out. */
  method ResolveByUsername(t: Table, username: string, f: Faults) returns (r: Result<User>)
    ensures f.read.Some? ==> r == Fail(ZeroUser(), Internal(f.read.value))
    ensures f.read.None? ==> (r.Ok? <==> HasUsername(t, username))
    ensures f.read.None? && r.Fail? ==> r == Fail(ZeroUser(), NotFound)
    ensures r.Ok? ==> r.value.username == username && r.value in t.Values
  {
    if f.read.Some? {
      return Fail(ZeroUser(), Internal(f.read.value));
    }
    var unseen := t.Keys;
    while unseen != {}
      invariant unseen <= t.Keys
      invariant forall id :: id in t && id !in unseen ==> t[id].username != username
      decreases unseen
    {
      var id :| id in unseen;
      if t[id].username == username {
        return Ok(t[id]);
      }
      unseen := unseen - {id};
    }
    return Fail(ZeroUser(), NotFound);
  }

  // ---------------------------------------------------------------------------
  // The table invariant kept by every write
  // ---------------------------------------------------------------------------

  /** Every row sits under its own id, in the form rows are read back in. */
  predicate Keyed(t: Table) {
    forall id :: id in t ==> t[id].id == id && Normalized(t[id])
  }

  /** A repository write, with the driver's answer to it. */
  datatype Write = CreateRow(user: User, faults: Faults) | UpdateRow(user: User, faults: Faults)

  /** The table after applying a sequence of writes in order. */
  function Replay(t: Table, writes: seq<Write>): Table
    decreases |writes|
  {
    if writes == [] then t
    else
      var next := match writes[0]
        case CreateRow(u, f) => Create(t, u, f).value
        case UpdateRow(u, f) => Update(t, u, f).value;
      Replay(next, writes[1..])
  }

  /** A single write keeps the table keyed and never drops a row. */
  lemma WriteKeepsKeyed(t: Table, w: Write)
    requires Keyed(t)
    ensures var next := match w
        case CreateRow(u, f) => Create(t, u, f).value
        case UpdateRow(u, f) => Update(t, u, f).value;
      Keyed(next) && t.Keys <= next.Keys
  {
  }

  /** Any sequence of writes keeps the table keyed and never drops a row. */
  lemma {:induction false} ReplayKeepsKeyed(t: Table, writes: seq<Write>)
    requires Keyed(t)
    ensures Keyed(Replay(t, writes))
    ensures t.Keys <= Replay(t, writes).Keys
    decreases |writes|
  {
    if writes != [] {
      WriteKeepsKeyed(t, writes[0]);
      var next := match writes[0]
        case CreateRow(u, f) => Create(t, u, f).value
        case UpdateRow(u, f) => Update(t, u, f).value;
      ReplayKeepsKeyed(next, writes[1..]);
    }
  }

  /** Creating the same id twice: the second call conflicts and changes nothing. */
  lemma CreateTwiceConflicts(t: Table, u: User, v: User, f: Faults)
    requires Create(t, u, NoFaults).Ok?
    requires v.id == u.id && f.read.None?
    ensures Create(Create(t, u, NoFaults).value, v, f) == Fail(Create(t, u, NoFaults).value, Conflict)
  {
  }

  /** After a create, the id exists and an update of that id goes through. */
  lemma CreateThenUpdate(t: Table, u: User, v: User)
    requires Create(t, u, NoFaults).Ok?
    requires v.id == u.id
    ensures ExistsById(Create(t, u, NoFaults).value, u.id, NoFaults) == Ok(true)
    ensures Update(Create(t, u, NoFaults).value, v, NoFaults) == Ok(t[u.id := Row(v)])
  {
    assert t[u.id := Row(u)][u.id := Row(v)] == t[u.id := Row(v)];
  }

  /** A stored row loses nothing in its response but the password: given the
      password back, the row is rebuilt from the response. */
  lemma StoredRowRoundTrip(t: Table, id: Uuid)
    requires Keyed(t) && id in t
    ensures FromResponse(ToResponse(t[id]), t[id].password) == t[id]
  {
  }
}
