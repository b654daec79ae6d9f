/**
 * Bearer-token authentication of API requests. The token is decoded with the
 * configured public key by a JWT library; the model receives that library as
 * a decoder that returns either the claims or the kind of error it raised.
 * A valid token names a user by e-mail, and the user row is fetched or
 * created (`get_or_create`).
 */
module Auth {
  import opened Values

  /** The columns of the user table that authentication reads or writes. */
  datatype User = User(email: string, username: string, isActive: bool)

  /** The exceptions `jwt.decode` raises; every one is caught by `authenticate`. */
  datatype DecodeFailure =
    | ExpiredSignature
    | InvalidSignature
    | InvalidAlgorithm
    | Malformed
    | BadValue
    | OtherFailure

  /** What `jwt.decode(token, key, ...)` does: return the claims or raise. */
  datatype Decoded = Payload(claims: map<string, Json>) | Rejected(failure: DecodeFailure)

  /**
   * `jwt.decode` with the configured algorithm, issuer and audience, and with
   * expiry and signature checks on. Its definition is not part of this model.
   */
  type Decoder = (string, string) -> Decoded

  /** The user table: rows by primary key and the next key the database hands out. */
  datatype Table = Table(users: map<UserId, User>, nextId: UserId)

  /** Every key was handed out before `nextId`, and `username` is unique. */
  ghost predicate TableOk(t: Table)
  {
    && (forall id :: id in t.users ==> id < t.nextId)
    && (forall i, j :: i in t.users && j in t.users && t.users[i].username == t.users[j].username ==> i == j)
  }

  /** The ids of the users whose e-mail is `email` (e-mail is not a unique column). */
  function WithEmail(users: map<UserId, User>, email: string): set<UserId>
  {
    set id | id in users && users[id].email == email
  }

  predicate UsernameTaken(users: map<UserId, User>, username: string)
  {
    exists j :: j in users && users[j].username == username
  }

  lemma SingletonMembers(s: set<UserId>, a: UserId, b: UserId)
    requires |s| == 1 && a in s && b in s
    ensures a == b
  {
    assert |s - {a}| == 0;
    assert b !in s - {a};
  }

  // ---------------------------------------------------------------------
  // Claims
  // ---------------------------------------------------------------------

  /** `payload.get("uuid") or payload.get("sub")`. */
  function Subject(claims: map<string, Json>): (s: Json)
    ensures Truthy(Get(claims, "uuid")) ==> s == claims["uuid"]
    ensures !Truthy(Get(claims, "uuid")) ==> s == Get(claims, "sub")
  {
    if Truthy(Get(claims, "uuid")) then Get(claims, "uuid") else Get(claims, "sub")
  }

  /** The username a new user gets: the subject as a string if it is truthy, else the e-mail. */
  function SeedUsername(email: Json, subject: Json): string
  {
    if Truthy(subject) then Str(subject) else Str(email)
  }

  // ---------------------------------------------------------------------
  // get_or_create
  // ---------------------------------------------------------------------

  /** What `get_or_create` hands back, with the table after it. */
  datatype Provisioned = Provisioned(user: Option<(UserId, bool)>, table: Table)

  /**
   * `User.objects.get_or_create(email=email, defaults={username, is_active})`
   * on a sequential database. One matching row is returned as it is; two or
   * more raise `MultipleObjectsReturned`; none inserts a new active row,
   * which raises `IntegrityError` (and leaves no row behind) when the
   * username is already taken. `None` stands for a raised exception.
   */
  ghost function Provision(t: Table, email: string, username: string): (r: Provisioned)
    requires TableOk(t)
    ensures TableOk(r.table)
    ensures r.user.None? ==> r.table == t
    ensures r.user.Some? ==> r.user.value.0 in r.table.users && r.table.users[r.user.value.0].email == email
    ensures r.user.Some? && !r.user.value.1 ==> r.table == t
  {
    var found := WithEmail(t.users, email);
    if |found| > 1 then Provisioned(None, t)
    else if |found| == 1 then
      var id :| id in found;
      Provisioned(Some((id, false)), t)
    else if UsernameTaken(t.users, username) then Provisioned(None, t)
    else
      Provisioned(Some((t.nextId, true)), Table(t.users[t.nextId := User(email, username, true)], t.nextId + 1))
  }

  // ---------------------------------------------------------------------
  // authenticate
  // ---------------------------------------------------------------------

  /** `not settings.JWT_PUBLIC_KEY`: the key is unset or empty. */
  predicate NoKey(key: Option<string>)
  {
    key.None? || key.value == ""
  }

  /** The outcome of `authenticate`: the user it returns (or `None`) and the user table after it. */
  datatype AuthOutcome = AuthOutcome(user: Option<UserId>, table: Table)

  /**
   * `JWTAuthenticationBackend.authenticate(request, token)`. Every exception
   * on the way is caught and becomes `None`, so the result is always an
   * outcome. A newly created user whose subject is truthy has its username
   * written once more with `str(subject)`.
   */
  ghost function Authentication(t: Table, key: Option<string>, decode: Decoder, token: string): (r: AuthOutcome)
    requires TableOk(t)
    ensures TableOk(r.table)
    ensures r.user.Some? ==> r.user.value in r.table.users
  {
    if NoKey(key) then AuthOutcome(None, t)
    else
      match decode(token, key.value)
      case Rejected(_) => AuthOutcome(None, t)
      case Payload(claims) =>
        var email := Get(claims, "email");
        var subject := Subject(claims);
        if !Truthy(email) then AuthOutcome(None, t)
        else
          var g := Provision(t, Str(email), SeedUsername(email, subject));
          match g.user
          case None => AuthOutcome(None, t)
          case Some((id, created)) =>
            if created && Truthy(subject) then
              AuthOutcome(Some(id), g.table.(users := g.table.users[id := g.table.users[id].(username := Str(subject))]))
            else AuthOutcome(Some(id), g.table)
  }

  /** Without a configured key, no token is decoded and nobody is authenticated. */
  lemma NoKeyFailsClosed(t: Table, key: Option<string>, decode: Decoder, token: string)
    requires TableOk(t) && NoKey(key)
    ensures Authentication(t, key, decode, token) == AuthOutcome(None, t)
  {
  }

  /** Every kind of decode error yields `None` and leaves the user table as it was. */
  lemma DecodeFailureIsNone(t: Table, key: Option<string>, decode: Decoder, token: string)
    requires TableOk(t) && !NoKey(key) && decode(token, key.value).Rejected?
    ensures Authentication(t, key, decode, token) == AuthOutcome(None, t)
  {
  }

  /** A token whose `email` claim is missing or falsy yields `None` and creates no user. */
  lemma MissingEmailCreatesNoUser(t: Table, key: Option<string>, decode: Decoder, token: string)
    requires TableOk(t) && !NoKey(key) && decode(token, key.value).Payload?
    requires !Truthy(Get(decode(token, key.value).claims, "email"))
    ensures Authentication(t, key, decode, token) == AuthOutcome(None, t)
  {
  }

  /**
   * Authentication only ever adds a user: it fails with the table unchanged,
   * returns an existing user with the table unchanged, or adds exactly the
   * returned row. The table keeps its invariant either way.
   */
  lemma AuthenticationKeepsTable(t: Table, key: Option<string>, decode: Decoder, token: string)
    requires TableOk(t)
    ensures var r := Authentication(t, key, decode, token);
      && TableOk(r.table)
      && (r.user.None? ==> r.table == t)
      && (r.user.Some? && r.user.value in t.users ==> r.table == t)
      && (r.user.Some? && r.user.value !in t.users ==>
            r.user.value == t.nextId && r.table.users == t.users[t.nextId := r.table.users[t.nextId]])
  {
    var r := Authentication(t, key, decode, token);
    if !NoKey(key) && decode(token, key.value).Payload? {
      var claims := decode(token, key.value).claims;
      var email := Get(claims, "email");
      var subject := Subject(claims);
      if Truthy(email) {
        var g := Provision(t, Str(email), SeedUsername(email, subject));
        if g.user.Some? && g.user.value.1 {
          NewUserFixupIsNoOp(t, Str(email), email, subject);
        }
      }
    }
  }

  /**
   * When `get_or_create` has just created the user, its username already is
   * `str(subject)` whenever the subject is truthy, so the second write of
   * the username changes nothing.
   */
  lemma NewUserFixupIsNoOp(t: Table, e: string, email: Json, subject: Json)
    requires TableOk(t)
    ensures var g := Provision(t, e, SeedUsername(email, subject));
      g.user.Some? && g.user.value.1 && Truthy(subject) ==>
        g.table.users[g.user.value.0].(username := Str(subject)) == g.table.users[g.user.value.0]
  {
  }

  /** The claims of a token that is decoded, with a truthy e-mail. */
  predicate GoodToken(key: Option<string>, decode: Decoder, token: string)
  {
    !NoKey(key) && decode(token, key.value).Payload? && Truthy(Get(decode(token, key.value).claims, "email"))
  }

  function TokenEmail(key: Option<string>, decode: Decoder, token: string): string
    requires GoodToken(key, decode, token)
  {
    Str(Get(decode(token, key.value).claims, "email"))
  }

  /** An existing user, the only one with the token's e-mail, is returned and nothing is written. */
  lemma ExistingUserReturnedUnchanged(t: Table, key: Option<string>, decode: Decoder, token: string, id: UserId)
    requires TableOk(t) && GoodToken(key, decode, token)
    requires WithEmail(t.users, TokenEmail(key, decode, token)) == {id}
    ensures Authentication(t, key, decode, token) == AuthOutcome(Some(id), t)
  {
    var claims := decode(token, key.value).claims;
    var g := Provision(t, TokenEmail(key, decode, token), SeedUsername(Get(claims, "email"), Subject(claims)));
    SingletonMembers(WithEmail(t.users, TokenEmail(key, decode, token)), id, g.user.value.0);
  }

  /**
   * With no user of the token's e-mail and a free seed username, a new active
   * user is added under the next key, with the token's e-mail and with
   * username `str(uuid)` if the `uuid` claim is truthy, else `str(sub)` if
   * `sub` is, else the e-mail.
   */
  lemma NewUserShape(t: Table, key: Option<string>, decode: Decoder, token: string)
    requires TableOk(t) && GoodToken(key, decode, token)
    requires WithEmail(t.users, TokenEmail(key, decode, token)) == {}
    requires var claims := decode(token, key.value).claims;
      !UsernameTaken(t.users, SeedUsername(Get(claims, "email"), Subject(claims)))
    ensures var claims := decode(token, key.value).claims;
      var r := Authentication(t, key, decode, token);
      var name := if Truthy(Get(claims, "uuid")) then Str(Get(claims, "uuid"))
                  else if Truthy(Get(claims, "sub")) then Str(Get(claims, "sub"))
                  else Str(Get(claims, "email"));
      && r.user == Some(t.nextId)
      && r.table == Table(t.users[t.nextId := User(TokenEmail(key, decode, token), name, true)], t.nextId + 1)
  {
  }

  /** When the seed username of a new user is already taken, the insert fails and `None` comes back. */
  lemma TakenUsernameFails(t: Table, key: Option<string>, decode: Decoder, token: string)
    requires TableOk(t) && GoodToken(key, decode, token)
    requires WithEmail(t.users, TokenEmail(key, decode, token)) == {}
    requires var claims := decode(token, key.value).claims;
      UsernameTaken(t.users, SeedUsername(Get(claims, "email"), Subject(claims)))
    ensures Authentication(t, key, decode, token) == AuthOutcome(None, t)
  {
  }

  /**
   * A successful authentication returns a user with the token's e-mail, and
   * afterwards that user is the only one with that e-mail.
   */
  lemma AuthenticatedUserIsUnique(t: Table, key: Option<string>, decode: Decoder, token: string)
    requires TableOk(t)
    ensures var r := Authentication(t, key, decode, token);
      r.user.Some? ==>
        && GoodToken(key, decode, token)
        && WithEmail(r.table.users, TokenEmail(key, decode, token)) == {r.user.value}
  {
    var r := Authentication(t, key, decode, token);
    if r.user.Some? {
      var claims := decode(token, key.value).claims;
      var e := TokenEmail(key, decode, token);
      var g := Provision(t, e, SeedUsername(Get(claims, "email"), Subject(claims)));
      var found := WithEmail(t.users, e);
      var id := r.user.value;
      if |found| == 1 {
        forall j | j in found
          ensures j == id
        {
          SingletonMembers(found, j, id);
        }
      } else {
        assert found == {};
        NewUserFixupIsNoOp(t, e, Get(claims, "email"), Subject(claims));
        assert r.table == g.table;
        forall j | j in t.users
          ensures t.users[j].email != e
        {
          assert j !in found;
        }
      }
    }
  }

  // ---------------------------------------------------------------------
  // The stateful objects
  // ---------------------------------------------------------------------

  /** The user table (`User.objects`). */
  class UserTable {
    var users: map<UserId, User>
    var nextId: UserId

    ghost function State(): Table
      reads this
    {
      Table(users, nextId)
    }

    ghost predicate Valid()
      reads this
    {
      TableOk(State())
    }

    constructor ()
      ensures Valid() && users == map[] && nextId == 1
    {
      users := map[];
      nextId := 1;
    }

    /** `get_or_create(email=..., defaults={"username": ..., "is_active": True})`. */
    method GetOrCreate(email: string, username: string) returns (r: Option<(UserId, bool)>)
      requires Valid()
      modifies this
      ensures Valid()
      ensures Provisioned(r, State()) == Provision(old(State()), email, username)
    {
      var found := set id | id in users && users[id].email == email;
      assert found == WithEmail(users, email);
      if |found| > 1 {
        return None;
      } else if |found| == 1 {
        var id :| id in found;
        ghost var spec := Provision(State(), email, username);
        SingletonMembers(found, id, spec.user.value.0);
        return Some((id, false));
      }
      var taken := exists j :: j in users && users[j].username == username;
      if taken {
        return None;
      }
      var id := nextId;
      users := users[id := User(email, username, true)];
      nextId := nextId + 1;
      return Some((id, true));
    }

    /**
     * `user.username = name; user.save(update_fields=["username"])`. A clash
     * with another user's username is not modelled: the one caller writes
     * the username the row already has.
     */
    method SaveUsername(id: UserId, name: string)
      requires Valid() && id in users
      requires forall j :: j in users && j != id ==> users[j].username != name
      modifies this
      ensures Valid()
      ensures users == old(users)[id := old(users)[id].(username := name)] && nextId == old(nextId)
    {
      users := users[id := users[id].(username := name)];
    }
  }

  /** `JWTAuthenticationBackend` with the settings it reads and the table it provisions. */
  class JWTAuthenticationBackend {
    const publicKey: Option<string>
    const decode: Decoder
    const table: UserTable

    constructor (publicKey: Option<string>, decode: Decoder, table: UserTable)
      ensures this.publicKey == publicKey && this.decode == decode && this.table == table
    {
      this.publicKey := publicKey;
      this.decode := decode;
      this.table := table;
    }

    /** `authenticate(request, token)`; the request is not used. */
    method Authenticate(token: string) returns (user: Option<UserId>)
      requires table.Valid()
      modifies table
      ensures table.Valid()
      ensures AuthOutcome(user, table.State()) == Authentication(old(table.State()), publicKey, decode, token)
    {
      if publicKey.None? || publicKey.value == "" {
        return None;
      }
      var decoded := decode(token, publicKey.value);
      if decoded.Rejected? {
        return None;
      }
      var email := Get(decoded.claims, "email");
      var subject := Subject(decoded.claims);
      if !Truthy(email) {
        return None;
      }
      ghost var t0 := table.State();
      var defaultName := if Truthy(subject) then Str(subject) else Str(email);
      var g := table.GetOrCreate(Str(email), defaultName);
      if g.None? {
        return None;
      }
      var (id, created) := g.value;
      if created && Truthy(subject) {
        NewUserFixupIsNoOp(t0, Str(email), email, subject);
        table.SaveUsername(id, Str(subject));
      }
      return Some(id);
    }
  }
}
