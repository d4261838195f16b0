/** The admin login and registration handlers of server/routes/auth.js and
    their token helper. The user collection is a map from username to user
    record; password checking (`matchPassword`, a bcrypt comparison) and
    hashing are parameters, and so is the clock. A token stands for its
    signed claims: signing with the server secret is not part of this
    model. */
module AuthRoutes {
  import opened Common

  /** A stored user; the password is only ever held hashed. */
  datatype User = User(id: Id, username: string, passwordHash: string)

  /** The payload of an issued token: the user id, the issue time and the
      expiry, both in whole seconds (RFC 7519, sections 4.1.6 and 4.1.4). */
  datatype Claims = Claims(id: Id, iat: nat, exp: nat)

  /** `expiresIn: '1h'`. */
  const TokenLifetime: nat := 3600

  /** `generateToken(id)` (lines 8-12) at the clock `nowMs`, in
      milliseconds: issued at the current second, expiring an hour later. */
  function GenerateToken(id: Id, nowMs: nat): (c: Claims)
    ensures c.id == id
    ensures c.iat * 1000 <= nowMs < (c.iat + 1) * 1000
    ensures c.exp == c.iat + TokenLifetime
  {
    Claims(id, nowMs / 1000, nowMs / 1000 + TokenLifetime)
  }

  /** jsonwebtoken refuses a token once the clock, in whole seconds, has
      reached its expiry; so it accepts exactly before the expiry, as
      section 4.1.4 of RFC 7519 asks. */
  predicate Live(c: Claims, nowSec: nat): (live: bool)
    ensures live <==> nowSec < c.exp
  {
    !(nowSec >= c.exp)
  }

  /** Measured on the millisecond clock, a token is accepted for at least
      3599 and at most 3600 seconds after it was issued: the issue time is
      rounded down to the second and the expiry check reads whole seconds. */
  lemma TokenLifetimeBounds(id: Id, nowMs: nat, laterMs: nat)
    requires nowMs <= laterMs
    ensures laterMs <= nowMs + 3599000 ==> Live(GenerateToken(id, nowMs), laterMs / 1000)
    ensures laterMs >= nowMs + 3600000 ==> !Live(GenerateToken(id, nowMs), laterMs / 1000)
  {
    var q, r := nowMs / 1000, nowMs % 1000;
    assert nowMs == q * 1000 + r;
    if laterMs <= nowMs + 3599000 {
      assert laterMs < (q + TokenLifetime) * 1000;
    }
    if laterMs >= nowMs + 3600000 {
      assert laterMs >= (q + TokenLifetime) * 1000;
    }
  }

  /** The id the guard's verifier gets back from a token issued here. */
  lemma TokenCarriesId(id: Id, nowMs: nat)
    ensures GenerateToken(id, nowMs).id == id
    ensures Live(GenerateToken(id, nowMs), nowMs / 1000)
    ensures !Live(GenerateToken(id, nowMs), nowMs / 1000 + TokenLifetime)
  {
  }

  const InvalidCredentials: string := "Invalid username or password"
  const LoginError: string := "Server error during login"
  const UserExists: string := "User already exists"
  const Created: string := "Admin user created successfully. Remove this endpoint immediately."

  /** The response of a handler. No variant carries a password. */
  datatype AuthReply =
    | LoggedIn(id: Id, username: string, token: Claims)
    | Registered(id: Id, username: string, message: string)
    | Failure(status: nat, message: string)

  /** The HTTP status of a reply. */
  function Status(r: AuthReply): nat {
    match r
    case LoggedIn(_, _, _) => 200
    case Registered(_, _, _) => 201
    case Failure(status, _) => status
  }

  /** Every record is filed under its own username, and the identifiers
      are distinct and below the next one to hand out. */
  predicate WellFiled(users: map<string, User>, nextId: Id) {
    && (forall u :: u in users ==> users[u].username == u && users[u].id < nextId)
    && (forall u, v :: u in users && v in users && u != v ==> users[u].id != users[v].id)
  }

  /** The user collection. */
  class UserStore {
    var users: map<string, User>
    var nextId: Id

    predicate Valid()
      reads this
    {
      WellFiled(users, nextId)
    }

    constructor ()
      ensures Valid() && users == map[]
    {
      users, nextId := map[], 0;
    }

    /** POST /login (lines 17-35): 200 with the user's id, name and a token
        for that id when the user exists and the password matches; one and
        the same 401 for an unknown user and a wrong password; 500 when the
        lookup throws. The store is not changed. */
    method Login(username: string, password: string, matchPassword: (User, string) -> bool,
                 nowMs: nat, fault: Fault) returns (r: AuthReply)
      ensures fault.ReadFails? ==> r == Failure(500, LoginError)
      ensures !fault.ReadFails? ==>
        (r.LoggedIn? <==> username in users && matchPassword(users[username], password))
      ensures r.LoggedIn? ==>
        && username in users
        && r == LoggedIn(users[username].id, users[username].username, GenerateToken(users[username].id, nowMs))
      ensures !fault.ReadFails? && !r.LoggedIn? ==> r == Failure(401, InvalidCredentials)
    {
      if fault.ReadFails? {
        return Failure(500, LoginError);
      }
      if username in users && matchPassword(users[username], password) {
        var user := users[username];
        r := LoggedIn(user.id, user.username, GenerateToken(user.id, nowMs));
      } else {
        r := Failure(401, InvalidCredentials);
      }
    }

    /** POST /register (lines 40-62): 400 and no change when the name is
        taken; otherwise exactly one new user under a fresh id with the
        hashed password, answered 201 with id and name. A read or write
        that throws answers 500 with the thrown message and changes
        nothing. */
    method Register(username: string, password: string, hash: string -> string, fault: Fault)
      returns (r: AuthReply)
      requires Valid()
      modifies this
      ensures Valid()
      ensures fault.ReadFails? ==> r == Failure(500, fault.message) && users == old(users)
      ensures !fault.ReadFails? && username in old(users) ==> r == Failure(400, UserExists) && users == old(users)
      ensures !fault.ReadFails? && username !in old(users) && fault.WriteFails? ==>
        r == Failure(500, fault.message) && users == old(users)
      ensures fault.Healthy? && username !in old(users) ==>
        && r == Registered(old(nextId), username, Created)
        && users == old(users)[username := User(old(nextId), username, hash(password))]
    {
      if fault.ReadFails? {
        return Failure(500, fault.message);
      }
      if username in users {
        return Failure(400, UserExists);
      }
      if fault.WriteFails? {
        return Failure(500, fault.message);
      }
      var user := User(nextId, username, hash(password));
      users := users[username := user];
      nextId := nextId + 1;
      r := Registered(user.id, user.username, Created);
    }
  }

  /** Registering a new name files one more user and keeps the collection
      well filed: the new id is fresh. */
  lemma RegisterKeepsFiling(users: map<string, User>, nextId: Id, username: string, hashed: string)
    requires WellFiled(users, nextId) && username !in users
    ensures WellFiled(users[username := User(nextId, username, hashed)], nextId + 1)
    ensures |users[username := User(nextId, username, hashed)]| == |users| + 1
  {
  }
}
