/** The credential store behind `/api/user`: register, login and logout over the
    users collection, with bcrypt and jsonwebtoken left uninterpreted. */
module Accounts {
  import opened Http

  type Email = string
  type UserId = string
  /** A bcrypt digest, a bcrypt salt and a signed JWT, all strings in the source. */
  type Digest = string
  type Salt = string
  type Token = string

  /** A stored user: its generated `_id`, its unique email and the digest of its password. */
  datatype User = User(id: UserId, email: Email, password: Digest)

  /** The body of a register or login request. */
  datatype Credentials = Credentials(email: Option<string>, password: Option<string>)

  /** The foreign libraries: `bcrypt.hashSync(pw, salt)`, `bcrypt.compare(pw, digest)` and
      `jwt.sign({id}, secret)` with the secret fixed at startup. */
  datatype Crypto = Crypto(
    hash: (string, Salt) -> Digest,
    compare: (string, Digest) -> bool,
    sign: UserId -> Token)

  /** The one fact the handlers rely on: a password matches any digest made from it. */
  ghost predicate Sound(c: Crypto) {
    forall pw, salt :: c.compare(pw, c.hash(pw, salt))
  }

  /** The name of the session cookie. */
  const AccessToken := "access_token"

  /** What a response does to the client's cookies. */
  datatype CookieOp = SetCookie(name: string, value: Token) | ClearCookie(name: string)

  /** The payload of a successful login, with the cookie it sets. */
  datatype Session = Session(token: Token, message: string, cookie: CookieOp)

  /** The payload of a logout, with the cookie it clears. */
  datatype Farewell = Farewell(message: string, cookie: CookieOp)

  /** Both `data?.email` and `data?.password` are truthy. */
  predicate Complete(body: Credentials) {
    Truthy(body.email) && Truthy(body.password)
  }

  /** The session that a login for `user` issues. */
  function SessionFor(c: Crypto, user: User): Session {
    var token := c.sign(user.id);
    Session(token, "User Login Successfully", SetCookie(AccessToken, token))
  }

  class UserStore {
    /** The users collection, indexed by its unique email. */
    var users: map<Email, User>
    const crypto: Crypto

    ghost predicate Valid()
      reads this
    {
      && Sound(crypto)
      && (forall e :: e in users ==> users[e].email == e)
      && (forall e, e' :: e in users && e' in users && e != e' ==> users[e].id != users[e'].id)
    }

    /** No stored user has the id `id`: what a freshly generated `_id` guarantees. */
    ghost predicate Unused(id: UserId)
      reads this
    {
      forall e :: e in users ==> users[e].id != id
    }

    constructor (crypto: Crypto)
      requires Sound(crypto)
      ensures Valid() && users == map[] && this.crypto == crypto
    {
      users := map[];
      this.crypto := crypto;
    }

    /** `register`: missing fields, then email uniqueness, then store the salted digest
        (never the plain password) under a fresh id. */
    method Register(body: Credentials, salt: Salt, newId: UserId) returns (r: Outcome<string>)
      requires Valid() && Unused(newId)
      modifies this
      ensures Valid()
      ensures !Complete(body) ==> r == Failure(400, "Missing fields")
      ensures Complete(body) && body.email.value in old(users) ==> r == Failure(400, "User already Exist.")
      ensures r.Failure? ==> users == old(users)
      ensures r.Success? <==> Complete(body) && body.email.value !in old(users)
      ensures r.Success? ==>
        && r == Success(201, "user created successfully")
        && users == old(users)[body.email.value := User(newId, body.email.value, crypto.hash(body.password.value, salt))]
      ensures r.Success? ==> Login(body) == Success(200, SessionFor(crypto, users[body.email.value]))
      ensures r.Success? ==> Login(body).value.token == crypto.sign(newId)
      ensures forall other: Credentials {:trigger Login(other)} ::
        other.email != body.email ==> Login(other) == old(Login(other))
    {
      if !Complete(body) {
        return Failure(400, "Missing fields");
      }
      var email, password := body.email.value, body.password.value;
      var alreadyRegistered := email in users;
      if alreadyRegistered {
        return Failure(400, "User already Exist.");
      }
      var digest := crypto.hash(password, salt);
      users := users[email := User(newId, email, digest)];
      r := Success(201, "user created successfully");
    }

    /** `login`: missing fields, then one error for an unknown email and for a wrong
        password alike, then a signed token for the user's id, also set as a cookie. */
    function Login(body: Credentials): (r: Outcome<Session>)
      reads this
      ensures !Complete(body) ==> r == Failure(400, "Missing fields")
      ensures Complete(body) && r.Failure? ==> r == Failure(400, "Invalid credentials")
      ensures r.Success? <==>
        && Complete(body)
        && body.email.value in users
        && crypto.compare(body.password.value, users[body.email.value].password)
      ensures r.Success? ==>
        && r.status == 200
        && r.value.token == crypto.sign(users[body.email.value].id)
        && r.value.cookie == SetCookie(AccessToken, r.value.token)
    {
      if !Complete(body) then Failure(400, "Missing fields")
      else if body.email.value !in users then Failure(400, "Invalid credentials")
      else
        var user := users[body.email.value];
        if !crypto.compare(body.password.value, user.password) then Failure(400, "Invalid credentials")
        else Success(200, SessionFor(crypto, user))
    }
  }

  /** `logout`: always succeeds and clears the session cookie; the token itself stays
      valid, as nothing is revoked on the server. */
  function Logout(): (r: Outcome<Farewell>)
    ensures r.Success? && r.status == 200
    ensures r.value.cookie == ClearCookie(AccessToken)
  {
    Success(200, Farewell("Logged Out succesfully!", ClearCookie(AccessToken)))
  }
}
