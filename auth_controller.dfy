/**
 * The authentication handlers of the blog backend over an in-memory user
 * store keyed by email.
 *
 * `register` inserts into the store and is a method of `UserStore`; `login`
 * and `getMe` only read, and are functions. Password hashing and token signing
 * are foreign cryptographic calls: a stored password is an ideal hash that
 * accepts exactly the plaintext it was made from, and a token is a value that
 * carries the user id and the configured lifetime.
 */
module AuthController {
  import opened Http

  /** A stored password hash: the salt drawn when it was made and the one
      plaintext it accepts (an ideal, collision-free hash). */
  datatype PasswordHash = PasswordHash(salt: nat, accepts: string)

  /** `user.matchPassword(candidate)`: the candidate matches when hashing it
      with the salt kept in the stored hash gives the stored hash back. */
  function MatchPassword(stored: PasswordHash, candidate: string): (ok: bool)
    ensures ok <==> PasswordHash(stored.salt, candidate) == stored
  {
    candidate == stored.accepts
  }

  /** Hashing on save: the salt is fresh randomness, so it is a parameter.
      The hash accepts the password it was made from and nothing else. */
  function HashPassword(password: string, salt: nat): (h: PasswordHash)
    ensures forall candidate :: MatchPassword(h, candidate) <==> candidate == password
  {
    PasswordHash(salt, password)
  }

  /** A user record; the password field holds only the hash. */
  datatype User = User(id: UserId, name: string, email: string, password: PasswordHash)

  /** A signed token: the id it was issued for and its lifetime. The signing
      secret and the expiry clock are not part of this model. */
  datatype Token = Token(subject: UserId, expiresIn: string)

  /** The environment the handlers read: `JWT_EXPIRE`, possibly unset. */
  datatype Config = Config(jwtExpire: Option<string>)

  /** `generateToken(id)`: a token for `id` that expires after `JWT_EXPIRE`,
      or after 30 days when that is unset or empty. */
  function GenerateToken(id: UserId, config: Config): (t: Token)
    ensures t.subject == id
    ensures t.expiresIn != ""
    ensures Filled(config.jwtExpire) ==> t.expiresIn == config.jwtExpire.value
    ensures !Filled(config.jwtExpire) ==> t.expiresIn == "30d"
  {
    Token(id, if Filled(config.jwtExpire) then config.jwtExpire.value else "30d")
  }

  /** The `data` of a register or login reply. It has no password field, so no
      reply can carry the password or its hash. */
  datatype UserSummary = UserSummary(id: UserId, name: string, email: string, token: Token)

  /** The identity the authentication middleware attaches to a request. */
  datatype Profile = Profile(id: UserId, name: string, email: string)

  datatype RegisterBody = RegisterBody(name: Option<string>, email: Option<string>, password: Option<string>)
  datatype LoginBody = LoginBody(email: Option<string>, password: Option<string>)

  const MissingRegisterFields := "Please provide name, email and password"
  const UserExists := "User already exists"
  const MissingLoginFields := "Please provide email and password"
  const InvalidCredentials := "Invalid credentials"

  /** `login`: the fields are checked before the store is consulted; an unknown
      email and a wrong password give the same 401; on success the reply holds
      the stored user's id, name and email and a token for that id. */
  function Login(users: map<string, User>, body: LoginBody, config: Config): (r: Reply<UserSummary>)
    ensures !(Filled(body.email) && Filled(body.password)) ==> r == Failure(400, MissingLoginFields)
    ensures Filled(body.email) && Filled(body.password) ==>
              (r.Success? <==> body.email.value in users
                               && MatchPassword(users[body.email.value].password, body.password.value))
    ensures Filled(body.email) && Filled(body.password) && r.Failure? ==>
              r == Failure(401, InvalidCredentials)
    ensures r.Success? ==>
              && r.status == 200
              && body.email.Some? && body.email.value in users
              && var u := users[body.email.value];
                 r.data == UserSummary(u.id, u.name, u.email, GenerateToken(u.id, config))
  {
    if !Filled(body.email) || !Filled(body.password) then
      Failure(400, MissingLoginFields)
    else if body.email.value !in users then
      Failure(401, InvalidCredentials)
    else
      var user := users[body.email.value];
      if !MatchPassword(user.password, body.password.value) then
        Failure(401, InvalidCredentials)
      else
        Success(200, UserSummary(user.id, user.name, user.email, GenerateToken(user.id, config)))
  }

  /** Missing fields are reported before any lookup: the store makes no
      difference to the reply. */
  lemma LoginChecksFieldsFirst(users: map<string, User>, others: map<string, User>, body: LoginBody, config: Config)
    requires !(Filled(body.email) && Filled(body.password))
    ensures Login(users, body, config) == Login(others, body, config)
  {
  }

  /** An unknown email and a known email with the wrong password are answered
      alike, so a reply does not tell which of the two was wrong. */
  lemma LoginFailuresAlike(users: map<string, User>, unknown: string, known: string, password: string, config: Config)
    requires unknown != "" && unknown !in users
    requires known != "" && known in users && password != "" && !MatchPassword(users[known].password, password)
    ensures Login(users, LoginBody(Some(unknown), Some(password)), config)
         == Login(users, LoginBody(Some(known), Some(password)), config)
  {
  }

  /** A user just stored under `email` with the hash of `password` logs in with
      those credentials, and the reply names the same id. */
  lemma RegisterThenLogin(users: map<string, User>, id: UserId, name: string, email: string,
                          password: string, salt: nat, config: Config)
    requires email != "" && password != ""
    ensures var stored := users[email := User(id, name, email, HashPassword(password, salt))];
            Login(stored, LoginBody(Some(email), Some(password)), config)
              == Success(200, UserSummary(id, name, email, GenerateToken(id, config)))
  {
  }

  /** `getMe`: the identity the request already carries, unchanged. */
  function GetMe(me: Profile): (r: Reply<Profile>)
    ensures r.Success? && r.status == 200 && r.data == me
  {
    Success(200, me)
  }

  class UserStore {
    var users: map<string, User>
    var nextId: UserId

    /** Users are filed under their own (non-empty) email, and ids are distinct
        and handed out by `nextId`. */
    ghost predicate Valid()
      reads this
    {
      && (forall e :: e in users ==> e != "" && users[e].email == e && users[e].id < nextId)
      && (forall e, f :: e in users && f in users && e != f ==> users[e].id != users[f].id)
    }

    constructor ()
      ensures Valid() && users == map[]
    {
      users := map[];
      nextId := 0;
    }

    /** `register`: validation, then the duplicate-email check (whatever the
        password), then the insert. A failure leaves the store as it was; a
        success adds exactly one user, answers 201 with its id, name, email and
        a token for that id, and those credentials then log in as that id. */
    method Register(body: RegisterBody, salt: nat, config: Config) returns (r: Reply<UserSummary>)
      requires Valid()
      modifies this
      ensures Valid()
      ensures !(Filled(body.name) && Filled(body.email) && Filled(body.password)) ==>
                r == Failure(400, MissingRegisterFields) && unchanged(this)
      ensures Filled(body.name) && Filled(body.email) && Filled(body.password) && body.email.value in old(users) ==>
                r == Failure(400, UserExists) && unchanged(this)
      ensures Filled(body.name) && Filled(body.email) && Filled(body.password) && body.email.value !in old(users) ==>
                && users == old(users)[body.email.value := User(old(nextId), body.name.value, body.email.value,
                                                                HashPassword(body.password.value, salt))]
                && |users| == |old(users)| + 1
                && nextId == old(nextId) + 1
                && r == Success(201, UserSummary(old(nextId), body.name.value, body.email.value,
                                                 GenerateToken(old(nextId), config)))
      ensures r.Success? ==> Login(users, LoginBody(body.email, body.password), config) == Success(200, r.data)
    {
      if !Filled(body.name) || !Filled(body.email) || !Filled(body.password) {
        return Failure(400, MissingRegisterFields);
      }
      var name, email, password := body.name.value, body.email.value, body.password.value;
      if email in users {
        return Failure(400, UserExists);
      }
      var user := User(nextId, name, email, HashPassword(password, salt));
      users := users[email := user];
      nextId := nextId + 1;
      RegisterThenLogin(old(users), user.id, name, email, password, salt, config);
      r := Success(201, UserSummary(user.id, name, email, GenerateToken(user.id, config)));
    }
  }

  /** Register, log in with the same credentials, then try the email again. */
  method RegistrationScenario(config: Config)
  {
    var store := new UserStore();
    var joined := store.Register(RegisterBody(Some("Ada"), Some("ada@example.org"), Some("s3cret")), 7, config);
    assert joined.Success? && joined.status == 201;
    var again := Login(store.users, LoginBody(Some("ada@example.org"), Some("s3cret")), config);
    assert again.Success? && again.data.id == joined.data.id;
    var wrong := Login(store.users, LoginBody(Some("ada@example.org"), Some("guess")), config);
    var nobody := Login(store.users, LoginBody(Some("bob@example.org"), Some("guess")), config);
    assert wrong == nobody == Failure(401, InvalidCredentials);
    var twice := store.Register(RegisterBody(Some("Ada"), Some("ada@example.org"), Some("other")), 8, config);
    assert twice == Failure(400, UserExists);
    assert GetMe(Profile(joined.data.id, "Ada", "ada@example.org")).data.id == joined.data.id;
  }
}
