/** The account service: registration, login and profile lookup, orchestrating
    the record helpers and the repository and mapping their failures onto the
    error taxonomy. */
module UserService {
  import opened Failure
  import M = UserModel
  import Repo = UserRepository

  type Table = Repo.Table

  /** Registers a user. A failure to build the record (hashing or validation)
      becomes a bad request and leaves the table alone; otherwise the
      repository's verdict is returned unchanged, so a taken id is a conflict.
      No access token is issued. Returns the table after the call. */
  method Create(t: Table, req: M.UserRequest, env: M.Env, f: Repo.Faults)
    returns (t': Table, r: Result<M.User>)
    ensures r.Fail? ==> t' == t
    ensures env.hash(req.password).HashFailed? ==>
      r == Fail(M.ZeroUser(), BadRequest(env.hash(req.password).msg))
    ensures env.hash(req.password).Digest? && env.validate(r.value).Some? ==>
      r.Fail? && r.err == BadRequest(env.validate(r.value).value)
    ensures M.NewFromRequest(req, env).Ok? ==>
      var built := M.NewFromRequest(req, env).value;
      var stored := Repo.Create(t, built, f);
      && r.value == built
      && t' == stored.value
      && (r.Ok? <==> stored.Ok?)
      && (r.Fail? ==> r.err == stored.err)
    ensures M.NewFromRequest(req, env).Ok? && f.read.None? && env.freshId in t ==>
      r.Fail? && r.err == Conflict
    ensures r.Ok? ==>
      && env.freshId !in t
      && t' == t[env.freshId := r.value]
      && r.value.id == r.value.createdBy == env.freshId
      && r.value.username == req.username
      && r.value.password == env.hash(req.password).text
      && r.value.accessToken == ""
      && !M.IsDeleted(r.value)
  {
    var built := M.NewFromRequest(req, env);
    if built.Fail? {
      return t, Fail(built.value, BadRequest(built.err.msg));
    }
    var stored := Repo.Create(t, built.value, f);
    t' := stored.value;
    if stored.Fail? {
      r := Fail(built.value, stored.err);
    } else {
      assert Repo.Row(built.value) == built.value;
      r := Ok(built.value);
    }
  }

  /** Logs a user in: resolves the username (an unknown one is the
      repository's not-found), then checks the password against the stored
      hash with `matches`. A mismatch is a bad request with an empty login. A
      match returns the attempt with the resolved user attached; no token is
      set. Soft-deleted users are not excluded. */
  method Login(t: Table, req: M.LoginRequest, matches: (string, string) -> bool, f: Repo.Faults)
    returns (r: Result<M.Login>)
    ensures f.read.Some? ==>
      r == Fail(M.Login(req.username, req.password, M.ZeroUser(), ""), Internal(f.read.value))
    ensures f.read.None? && !Repo.HasUsername(t, req.username) ==>
      r == Fail(M.Login(req.username, req.password, M.ZeroUser(), ""), NotFound)
    ensures f.read.None? && Repo.HasUsername(t, req.username) ==>
      r.Ok? || r == Fail(M.ZeroLogin(), BadRequest("Password False!"))
    ensures r.Ok? ==>
      && r.value.username == req.username
      && r.value.password == req.password
      && r.value.accessToken == ""
      && r.value.user in t.Values
      && r.value.user.username == req.username
      && matches(req.password, r.value.user.password)
    ensures r == Fail(M.ZeroLogin(), BadRequest("Password False!")) ==>
      exists id :: id in t && t[id].username == req.username && !matches(req.password, t[id].password)
    ensures f.read.None? && Repo.UniqueUsernames(t) ==>
      forall id :: id in t && t[id].username == req.username ==>
        (r.Ok? <==> matches(req.password, t[id].password))
  {
    var login := M.LoginFromRequest(req).value;
    var user := Repo.ResolveByUsername(t, login.username, f);
    if user.Fail? {
      return Fail(login, user.err);
    }
    login := login.(user := user.value);
    if !matches(login.password, login.user.password) {
      return Fail(M.ZeroLogin(), BadRequest("Password False!"));
    }
    r := Ok(login);
  }

  /** Looks a user up by username, hiding soft-deleted users: a deleted row
      found by the repository is reported as not found (the row still comes
      back beside the error). Any other outcome of the repository is passed on. */
  method ResolveByUsername(t: Table, username: string, f: Repo.Faults) returns (r: Result<M.User>)
    ensures f.read.Some? ==> r == Fail(M.ZeroUser(), Internal(f.read.value))
    ensures f.read.None? && !Repo.HasUsername(t, username) ==> r == Fail(M.ZeroUser(), NotFound)
    ensures r.Ok? ==> r.value in t.Values && r.value.username == username && !M.IsDeleted(r.value)
    ensures f.read.None? && Repo.HasUsername(t, username) && r.Fail? ==>
      r.err == NotFound && r.value in t.Values && r.value.username == username && M.IsDeleted(r.value)
    ensures f.read.None? && Repo.UniqueUsernames(t) ==>
      forall id :: id in t && t[id].username == username ==>
        r.value == t[id] && (r.Ok? <==> !M.IsDeleted(t[id]))
  {
    r := Repo.ResolveByUsername(t, username, f);
    if M.IsDeleted(r.value) {
      r := Fail(r.value, NotFound);
    }
  }

  /** Registering and then logging in with the same credentials succeeds and
      resolves the registered user, provided the hasher's digest matches its own
      plaintext, the record validates, the fresh id is free and no row already
      carries the username. */
  method RegisterThenLogin(t: Table, req: M.UserRequest, env: M.Env, matches: (string, string) -> bool)
    returns (t': Table, registered: Result<M.User>, login: Result<M.Login>)
    requires !Repo.HasUsername(t, req.username)
    requires env.freshId !in t
    requires env.hash(req.password).Digest? && matches(req.password, env.hash(req.password).text)
    requires env.validate(M.NewFromRequest(req, env).value).None?
    ensures registered.Ok? && login.Ok?
    ensures t' == t[registered.value.id := registered.value]
    ensures login.value.user == registered.value
    ensures login.value.username == req.username && login.value.password == req.password
  {
    t', registered := Create(t, req, env, Repo.NoFaults);
    var u := registered.value;
    assert t'[u.id] == u && u.username == req.username;
    login := Login(t', M.LoginRequest(req.username, req.password), matches, Repo.NoFaults);
    var found := login.value.user;
    assert found in t'.Values;
    var k :| k in t' && t'[k] == found;
    assert k == u.id;
  }
}
