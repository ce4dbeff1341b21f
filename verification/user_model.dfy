/** The user record, its request/response formats and the helpers defined on them. */
module UserModel {
  import opened Failure
  import opened Primitives

  /** A stored user account. `password` holds the hash, never the plaintext. */
  datatype User = User(
    id: Uuid,
    username: string,
    name: string,
    password: string,
    role: string,
    accessToken: string,
    createdAt: Time,
    createdBy: Uuid,
    updatedAt: NullTime,
    updatedBy: NUuid,
    deletedAt: NullTime,
    deletedBy: NUuid
  )

  /** The zero value of `User`. */
  function ZeroUser(): User {
    User(NilUuid, "", "", "", "", "", ZeroTime, NilUuid, NullTimeUnset, NUuidUnset, NullTimeUnset, NUuidUnset)
  }

  /** Registration and profile-update request body. */
  datatype UserRequest = UserRequest(username: string, name: string, password: string, role: string)

  /** The user DTO: every field but the password, nullable ids as optional values. */
  datatype UserResponse = UserResponse(
    id: Uuid,
    username: string,
    name: string,
    role: string,
    accessToken: string,
    createdAt: Time,
    createdBy: Uuid,
    updatedAt: NullTime,
    updatedBy: Option<Uuid>,
    deletedAt: NullTime,
    deletedBy: Option<Uuid>
  )

  /** A login attempt: the submitted credentials, the resolved user and the token. */
  datatype Login = Login(username: string, password: string, user: User, accessToken: string)

  /** The zero value of `Login`. */
  function ZeroLogin(): Login {
    Login("", "", ZeroUser(), "")
  }

  datatype LoginRequest = LoginRequest(username: string, password: string)

  datatype LoginResponse = LoginResponse(accessToken: string)

  /** What the password hasher returns: a digest, or the library's error text. */
  datatype Hashed = Digest(text: string) | HashFailed(msg: string)

  /** The side inputs of the record helpers: the id `uuid.NewV4` produced, the
      clock reading, the password hasher and the struct validator (an error
      message, or None when the record is accepted). */
  datatype Env = Env(
    freshId: Uuid,
    now: Time,
    hash: string -> Hashed,
    validate: User -> Option<string>
  )

  /** Soft-deleted: both the deletion instant and the deleter are set. A record
      with only one of the two set counts as live. */
  function IsDeleted(u: User): (deleted: bool)
    ensures deleted ==> u.deletedAt.valid && u.deletedBy.valid
    ensures u.deletedAt.valid && u.deletedBy.valid ==> deleted
    ensures u.deletedAt.valid != u.deletedBy.valid ==> !deleted
  {
    u.deletedAt.valid && u.deletedBy.valid
  }

  /** Builds a new account from a registration request: the id is fresh, the
      creator is the user itself, the password is stored hashed, nothing is
      updated or deleted yet. A hashing error is returned before validation. */
  function NewFromRequest(req: UserRequest, env: Env): (r: Result<User>)
    ensures env.hash(req.password).HashFailed? ==>
      r == Fail(ZeroUser(), Internal(env.hash(req.password).msg))
    ensures env.hash(req.password).Digest? ==>
      && r.value.id == env.freshId
      && r.value.createdBy == r.value.id
      && r.value.createdAt == env.now
      && r.value.username == req.username
      && r.value.name == req.name
      && r.value.role == req.role
      && r.value.password == env.hash(req.password).text
      && r.value.accessToken == ""
      && r.value.updatedAt == NullTimeUnset && r.value.updatedBy == NUuidUnset
      && r.value.deletedAt == NullTimeUnset && r.value.deletedBy == NUuidUnset
      && (r.Ok? <==> env.validate(r.value).None?)
      && (r.Fail? ==> r.err == Internal(env.validate(r.value).value))
    ensures r.Ok? ==> !IsDeleted(r.value)
  {
    match env.hash(req.password)
    case HashFailed(msg) => Fail(ZeroUser(), Internal(msg))
    case Digest(h) =>
      var u := User(env.freshId, req.username, req.name, h, req.role, "", env.now,
                    env.freshId, NullTimeUnset, NUuidUnset, NullTimeUnset, NUuidUnset);
      match env.validate(u)
      case None => Ok(u)
      case Some(msg) => Fail(u, Internal(msg))
  }

  /** Profile update in place: overwrites the credentials and profile fields and
      stamps the update with the acting user. A hashing error leaves the record
      untouched; a validation error is reported after the fields have changed. */
  function Update(u: User, req: UserRequest, actor: User, env: Env): (r: Result<User>)
    ensures env.hash(req.password).HashFailed? ==>
      r == Fail(u, Internal(env.hash(req.password).msg))
    ensures env.hash(req.password).Digest? ==>
      && r.value.username == req.username
      && r.value.name == req.name
      && r.value.password == env.hash(req.password).text
      && r.value.role == req.role
      && r.value.updatedAt == TimeFrom(env.now)
      && r.value.updatedBy == From(actor.id)
      && r.value.id == u.id
      && r.value.accessToken == u.accessToken
      && r.value.createdAt == u.createdAt && r.value.createdBy == u.createdBy
      && r.value.deletedAt == u.deletedAt && r.value.deletedBy == u.deletedBy
      && (r.Ok? <==> env.validate(r.value).None?)
      && (r.Fail? ==> r.err == Internal(env.validate(r.value).value))
  {
    match env.hash(req.password)
    case HashFailed(msg) => Fail(u, Internal(msg))
    case Digest(h) =>
      var u' := u.(username := req.username, name := req.name, password := h, role := req.role,
                   updatedAt := TimeFrom(env.now), updatedBy := From(actor.id));
      match env.validate(u')
      case None => Ok(u')
      case Some(msg) => Fail(u', Internal(msg))
  }

  /** The response DTO of a user. */
  function ToResponse(u: User): (r: UserResponse)
    ensures r.id == u.id && r.username == u.username && r.name == u.name && r.role == u.role
    ensures r.accessToken == u.accessToken
    ensures r.createdAt == u.createdAt && r.createdBy == u.createdBy
    ensures r.updatedAt == u.updatedAt && r.deletedAt == u.deletedAt
    ensures r.updatedBy.None? <==> !u.updatedBy.valid
    ensures r.deletedBy.None? <==> !u.deletedBy.valid
    ensures r.updatedBy.Some? ==> r.updatedBy.value == u.updatedBy.id
    ensures r.deletedBy.Some? ==> r.deletedBy.value == u.deletedBy.id
  {
    UserResponse(u.id, u.username, u.name, u.role, u.accessToken, u.createdAt, u.createdBy,
                 u.updatedAt, Ptr(u.updatedBy), u.deletedAt, Ptr(u.deletedBy))
  }

  /** Starts a login attempt from the request; there is no failing path. */
  function LoginFromRequest(req: LoginRequest): (r: Result<Login>)
    ensures r.Ok?
    ensures r.value.username == req.username && r.value.password == req.password
    ensures r.value.user == ZeroUser() && r.value.accessToken == ""
  {
    Ok(Login(req.username, req.password, ZeroUser(), ""))
  }

  /** The login response exposes the access token and nothing else. */
  function LoginToResponse(l: Login): (r: LoginResponse)
    ensures r.accessToken == l.accessToken
  {
    LoginResponse(l.accessToken)
  }

  // ---------------------------------------------------------------------------
  // Properties relating the helpers to each other
  // ---------------------------------------------------------------------------

  /** A nullable id is canonical when an invalid one carries the nil UUID. */
  predicate CanonicalIds(u: User) {
    && (!u.updatedBy.valid ==> u.updatedBy.id == NilUuid)
    && (!u.deletedBy.valid ==> u.deletedBy.id == NilUuid)
  }

  /** Reads a user back from its response, given the password the response omits. */
  function FromResponse(r: UserResponse, password: string): User {
    User(r.id, r.username, r.name, password, r.role, r.accessToken, r.createdAt, r.createdBy,
         r.updatedAt, Unptr(r.updatedBy), r.deletedAt, Unptr(r.deletedBy))
  }

  function Unptr(p: Option<Uuid>): NUuid {
    match p
    case None => NUuidUnset
    case Some(id) => From(id)
  }

  /** The response loses exactly the password: given the password back, a user
      whose nullable ids are canonical is rebuilt from its response. */
  lemma ResponseRoundTrip(u: User)
    requires CanonicalIds(u)
    ensures FromResponse(ToResponse(u), u.password) == u
  {
  }

  /** The response does not depend on the password at all. */
  lemma ResponseHidesPassword(u: User, p: string)
    ensures ToResponse(u.(password := p)) == ToResponse(u)
  {
  }

  /** A deleted user is exactly one whose response shows both deletion fields. */
  lemma DeletedIffResponseShowsDeletion(u: User)
    ensures IsDeleted(u) <==> ToResponse(u).deletedAt.valid && ToResponse(u).deletedBy.Some?
  {
  }

  /** When hashing fails, the validator plays no part in the outcome. */
  lemma HashFailureSkipsValidation(req: UserRequest, env: Env, other: User -> Option<string>)
    requires env.hash(req.password).HashFailed?
    ensures NewFromRequest(req, env) == NewFromRequest(req, env.(validate := other))
    ensures forall u: User, actor: User ::
      Update(u, req, actor, env) == Update(u, req, actor, env.(validate := other))
  {
  }

  /** A freshly built user's response names itself as creator and shows no update or deletion. */
  lemma NewUserResponse(req: UserRequest, env: Env)
    requires env.hash(req.password).Digest?
    ensures var resp := ToResponse(NewFromRequest(req, env).value);
      && resp.createdBy == resp.id == env.freshId
      && resp.updatedBy.None? && resp.deletedBy.None?
      && !resp.updatedAt.valid && !resp.deletedAt.valid
  {
  }

  /** The last update wins: whatever an earlier update with the same request
      did (whatever salt and clock reading it drew, even if its hashing failed),
      a later update that hashes gives the same record as applying it alone. */
  lemma UpdateLastWins(u: User, req: UserRequest, actor: User, env1: Env, env2: Env)
    requires env2.hash(req.password).Digest?
    ensures Update(Update(u, req, actor, env1).value, req, actor, env2) == Update(u, req, actor, env2)
  {
  }

  /** An update never deletes or restores a user, and its response names the actor as updater. */
  lemma UpdateKeepsDeletion(u: User, req: UserRequest, actor: User, env: Env)
    ensures IsDeleted(Update(u, req, actor, env).value) == IsDeleted(u)
    ensures env.hash(req.password).Digest? ==>
      ToResponse(Update(u, req, actor, env).value).updatedBy == Some(actor.id)
  {
  }

  /** Two logins have the same response exactly when they carry the same token. */
  lemma LoginResponseOnlyToken(a: Login, b: Login)
    ensures LoginToResponse(a) == LoginToResponse(b) <==> a.accessToken == b.accessToken
  {
  }
}
