/**
 * The account endpoint (backend/auth/index.py). A POST (the default method)
 * carries an action — "register", "login" (the default) or "verify" — and a
 * username and password, both stripped and both required. Register inserts a
 * non-admin user, login looks up the name with the password's hash, verify
 * looks up the name alone. OPTIONS answers the CORS preflight; any other
 * method gets 405.
 *
 * SHA-256 is the parameter `hash`; the fresh session token that
 * `secrets.token_urlsafe(32)` draws is the parameter `token`.
 */
module AuthHandler {
  import opened Wrappers
  import opened Text
  import opened Wire

  /** One row of `users`, keyed by its (unique) username. */
  datatype UserRow = UserRow(id: int, passwordHash: string, isAdmin: bool)

  /** The decoded JSON body; a key that is absent is `None`. */
  datatype AuthBody = AuthBody(
    action: Option<string>,
    username: Option<string>,
    password: Option<string>,
    sessionToken: Option<string>)

  datatype Body =
    | NoContent
    | Session(sessionToken: string, user: User)
    | Verified(user: User)
    | Failure(error: string)

  datatype Response = Reply(statusCode: int, body: Body)

  /** The table's contents: the rows by username and the next value of the id sequence. */
  datatype Accounts = Accounts(users: map<string, UserRow>, nextId: int)

  /** The `{id, username, is_admin}` record of the row stored under `name`. */
  function UserOf(users: map<string, UserRow>, name: string): User
    requires name in users
  {
    User(users[name].id, name, users[name].isAdmin)
  }

  // ---------------------------------------------------------------------------
  // The table
  // ---------------------------------------------------------------------------

  class UserTable {
    var users: map<string, UserRow>
    /** The next value of the id sequence. */
    var nextId: int

    /** Every id handed out so far is below the sequence's next value. */
    ghost predicate Valid()
      reads this
    {
      forall name :: name in users ==> users[name].id < nextId
    }

    constructor ()
      ensures Valid() && users == map[] && nextId == 1
    {
      users := map[];
      nextId := 1;
    }

    /**
     * `INSERT ... VALUES (%s, %s, FALSE) RETURNING id, username, is_admin`.
     * The unique username makes a duplicate raise, and the rollback leaves the
     * rows as they were; the id sequence is not transactional, so the value
     * drawn for the failed row is used up either way.
     */
    method Insert(username: string, passwordHash: string) returns (user: Option<User>)
      requires Valid()
      modifies this
      ensures Valid()
      ensures nextId == old(nextId) + 1
      ensures username in old(users) ==> user == None && users == old(users)
      ensures username !in old(users) ==>
        && user == Some(User(old(nextId), username, false))
        && users == old(users)[username := UserRow(old(nextId), passwordHash, false)]
    {
      var id := nextId;
      nextId := nextId + 1;
      if username in users {
        return None;
      }
      users := users[username := UserRow(id, passwordHash, false)];
      user := Some(User(id, username, false));
    }

    /** `SELECT id, username, is_admin FROM users WHERE username = %s AND password_hash = %s`. */
    method FindByCredentials(username: string, passwordHash: string) returns (user: Option<User>)
      ensures user.Some? <==> username in users && users[username].passwordHash == passwordHash
      ensures user.Some? ==> user.value == UserOf(users, username)
    {
      if username in users && users[username].passwordHash == passwordHash {
        user := Some(UserOf(users, username));
      } else {
        user := None;
      }
    }

    /** `SELECT id, username, is_admin FROM users WHERE username = %s`. */
    method FindByName(username: string) returns (user: Option<User>)
      ensures user.Some? <==> username in users
      ensures user.Some? ==> user.value == UserOf(users, username)
    {
      if username in users {
        user := Some(UserOf(users, username));
      } else {
        user := None;
      }
    }
  }

  // ---------------------------------------------------------------------------
  // What one request does
  // ---------------------------------------------------------------------------

  function RegisterOutcome(st: Accounts, username: string, passwordHash: string, token: string): (Response, Accounts) {
    if username in st.users then
      (Reply(409, Failure("Username already exists")), Accounts(st.users, st.nextId + 1))
    else
      (Reply(200, Session(token, User(st.nextId, username, false))),
       Accounts(st.users[username := UserRow(st.nextId, passwordHash, false)], st.nextId + 1))
  }

  function LoginReply(users: map<string, UserRow>, username: string, passwordHash: string, token: string): Response {
    if username in users && users[username].passwordHash == passwordHash then
      Reply(200, Session(token, UserOf(users, username)))
    else Reply(401, Failure("Invalid credentials"))
  }

  function VerifyReply(users: map<string, UserRow>, username: string, sessionToken: string): Response {
    if sessionToken == "" then Reply(401, Failure("No session token"))
    else if username in users then Reply(200, Verified(UserOf(users, username)))
    else Reply(401, Failure("Invalid session"))
  }

  /** The three ways the handler treats the HTTP method. */
  datatype Verb = Preflight | Post | OtherVerb

  function VerbOf(m: string): (v: Verb)
    ensures v == Preflight <==> m == "OPTIONS"
    ensures v == Post <==> m == "POST"
  {
    if m == "OPTIONS" then Preflight else if m == "POST" then Post else OtherVerb
  }

  /** The actions the handler dispatches on; anything else is `Unknown`. */
  datatype Action = Register | Login | Verify | Unknown

  function ActionOf(a: string): (r: Action)
    ensures r == Register <==> a == "register"
    ensures r == Login <==> a == "login"
    ensures r == Verify <==> a == "verify"
  {
    if a == "register" then Register else if a == "login" then Login else if a == "verify" then Verify else Unknown
  }

  /** The response to a POST with both credentials present, and the table after it. */
  function ActionOutcome(action: Action, username: string, password: string, sessionToken: string, st: Accounts,
                         hash: string -> string, token: string): (Response, Accounts)
  {
    match action
    case Register => RegisterOutcome(st, username, hash(password), token)
    case Login => (LoginReply(st.users, username, hash(password), token), st)
    case Verify => (VerifyReply(st.users, username, sessionToken), st)
    case Unknown => (Reply(400, Failure("Invalid action")), st)
  }

  /** The response to a request and the table after it. */
  function Outcome(httpMethod: Option<string>, body: AuthBody, st: Accounts,
                   hash: string -> string, token: string): (Response, Accounts)
  {
    match VerbOf(httpMethod.GetOr("POST"))
    case Preflight => (Reply(200, NoContent), st)
    case OtherVerb => (Reply(405, Failure("Method not allowed")), st)
    case Post =>
      var username := Strip(body.username.GetOr(""));
      var password := Strip(body.password.GetOr(""));
      if username == "" || password == "" then (Reply(400, Failure("Username and password required")), st)
      else ActionOutcome(ActionOf(body.action.GetOr("login")), username, password,
                         Strip(body.sessionToken.GetOr("")), st, hash, token)
  }

  /** The handler. */
  method Handle(db: UserTable, httpMethod: Option<string>, body: AuthBody,
                hash: string -> string, token: string) returns (resp: Response)
    requires db.Valid()
    modifies db
    ensures db.Valid()
    ensures (resp, Accounts(db.users, db.nextId)) ==
            Outcome(httpMethod, body, Accounts(old(db.users), old(db.nextId)), hash, token)
  {
    var verb := VerbOf(httpMethod.GetOr("POST"));
    if verb == Preflight {
      return Reply(200, NoContent);
    }
    if verb != Post {
      return Reply(405, Failure("Method not allowed"));
    }
    var username := Strip(body.username.GetOr(""));
    var password := Strip(body.password.GetOr(""));
    if username == "" || password == "" {
      return Reply(400, Failure("Username and password required"));
    }
    resp := Perform(db, ActionOf(body.action.GetOr("login")), username, password, body.sessionToken, hash, token);
  }

  /** The action dispatch, once both credentials are present. */
  method Perform(db: UserTable, action: Action, username: string, password: string, sessionToken: Option<string>,
                 hash: string -> string, token: string) returns (resp: Response)
    requires db.Valid()
    modifies db
    ensures db.Valid()
    ensures (resp, Accounts(db.users, db.nextId)) ==
            ActionOutcome(action, username, password, Strip(sessionToken.GetOr("")),
                          Accounts(old(db.users), old(db.nextId)), hash, token)
  {
    match action
    case Register =>
      resp := SignUp(db, username, hash(password), token);
    case Login =>
      resp := LogIn(db, username, hash(password), token);
    case Verify =>
      resp := VerifySession(db, username, Strip(sessionToken.GetOr("")));
    case Unknown =>
      resp := Reply(400, Failure("Invalid action"));
  }

  /** The register branch: insert, and answer 409 when the name is taken. */
  method SignUp(db: UserTable, username: string, passwordHash: string, token: string) returns (resp: Response)
    requires db.Valid()
    modifies db
    ensures db.Valid()
    ensures (resp, Accounts(db.users, db.nextId)) ==
            RegisterOutcome(Accounts(old(db.users), old(db.nextId)), username, passwordHash, token)
  {
    var user := db.Insert(username, passwordHash);
    if user.None? {
      return Reply(409, Failure("Username already exists"));
    }
    resp := Reply(200, Session(token, user.value));
  }

  /** The login branch: one lookup by name and hash. */
  method LogIn(db: UserTable, username: string, passwordHash: string, token: string) returns (resp: Response)
    ensures resp == LoginReply(db.users, username, passwordHash, token)
  {
    var user := db.FindByCredentials(username, passwordHash);
    if user.None? {
      return Reply(401, Failure("Invalid credentials"));
    }
    resp := Reply(200, Session(token, user.value));
  }

  /** The verify branch: a blank token is refused, then one lookup by name. */
  method VerifySession(db: UserTable, username: string, sessionToken: string) returns (resp: Response)
    ensures resp == VerifyReply(db.users, username, sessionToken)
  {
    if sessionToken == "" {
      return Reply(401, Failure("No session token"));
    }
    var user := db.FindByName(username);
    if user.Some? {
      return Reply(200, Verified(user.value));
    }
    resp := Reply(401, Failure("Invalid session"));
  }

  // ---------------------------------------------------------------------------
  // Properties
  // ---------------------------------------------------------------------------

  /** A POST whose action is `action`, with the given username and password. */
  predicate IsPost(httpMethod: Option<string>, body: AuthBody, action: Action) {
    VerbOf(httpMethod.GetOr("POST")) == Post && ActionOf(body.action.GetOr("login")) == action
  }

  /** The stripped credentials are both present. */
  predicate HasCredentials(body: AuthBody) {
    Strip(body.username.GetOr("")) != "" && Strip(body.password.GetOr("")) != ""
  }

  /** A blank username or password is refused with 400 whatever the action, and no row is touched. */
  lemma BlankCredentialsRefused(body: AuthBody, st: Accounts, hash: string -> string, token: string)
    requires !HasCredentials(body)
    ensures Outcome(Some("POST"), body, st, hash, token) == (Reply(400, Failure("Username and password required")), st)
  {
  }

  /**
   * Only a successful registration adds a row, and then exactly one: the
   * stripped name with the hash of the stripped password, not an admin.
   */
  lemma OnlyRegisterAddsUsers(httpMethod: Option<string>, body: AuthBody, st: Accounts,
                              hash: string -> string, token: string)
    ensures var after := Outcome(httpMethod, body, st, hash, token);
      after.1.users != st.users <==>
        IsPost(httpMethod, body, Register) && HasCredentials(body) && Strip(body.username.GetOr("")) !in st.users
    ensures var after := Outcome(httpMethod, body, st, hash, token);
      var name := Strip(body.username.GetOr(""));
      after.1.users != st.users ==>
        && after.0.statusCode == 200
        && after.1.users == st.users[name := UserRow(st.nextId, hash(Strip(body.password.GetOr(""))), false)]
  {
    var name := Strip(body.username.GetOr(""));
    var after := Outcome(httpMethod, body, st, hash, token);
    if IsPost(httpMethod, body, Register) && HasCredentials(body) {
      var rowsAfter := RegisterOutcome(st, name, hash(Strip(body.password.GetOr(""))), token).1.users;
      assert after.1.users == rowsAfter;
      if name !in st.users {
        assert name in rowsAfter;
      }
    } else {
      assert after.1 == st by {
        if VerbOf(httpMethod.GetOr("POST")) == Post && HasCredentials(body) {
          assert ActionOf(body.action.GetOr("login")) != Register;
        }
      }
    }
  }

  /** Registering a name that is taken answers 409 and keeps every row as it was. */
  lemma DuplicateRegistrationRefused(body: AuthBody, st: Accounts, hash: string -> string, token: string)
    requires IsPost(Some("POST"), body, Register) && HasCredentials(body)
    requires Strip(body.username.GetOr("")) in st.users
    ensures Outcome(Some("POST"), body, st, hash, token).0 == Reply(409, Failure("Username already exists"))
    ensures Outcome(Some("POST"), body, st, hash, token).1.users == st.users
  {
  }

  /** Login answers 200 exactly when the stripped name is stored with the hash of the stripped password. */
  lemma LoginSucceedsIff(body: AuthBody, st: Accounts, hash: string -> string, token: string)
    requires IsPost(Some("POST"), body, Login) && HasCredentials(body)
    ensures var name := Strip(body.username.GetOr(""));
      Outcome(Some("POST"), body, st, hash, token).0.statusCode == 200 <==>
        name in st.users && st.users[name].passwordHash == hash(Strip(body.password.GetOr("")))
    ensures Outcome(Some("POST"), body, st, hash, token).0.statusCode in {200, 401}
  {
  }

  /**
   * Registering and then logging in with the same credentials succeeds, with
   * the user the registration created, because both hash the same stripped password.
   */
  lemma RegisterThenLogin(body: AuthBody, st: Accounts, hash: string -> string, token: string, token2: string)
    requires IsPost(Some("POST"), body, Register) && HasCredentials(body)
    requires Strip(body.username.GetOr("")) !in st.users
    ensures var registered := Outcome(Some("POST"), body, st, hash, token);
      var login := body.(action := Some("login"));
      && registered.0 == Reply(200, Session(token, User(st.nextId, Strip(body.username.GetOr("")), false)))
      && Outcome(Some("POST"), login, registered.1, hash, token2).0 ==
         Reply(200, Session(token2, User(st.nextId, Strip(body.username.GetOr("")), false)))
  {
    var name := Strip(body.username.GetOr(""));
    var registered := Outcome(Some("POST"), body, st, hash, token);
    assert registered.1.users[name] == UserRow(st.nextId, hash(Strip(body.password.GetOr(""))), false);
  }

  /**
   * Verify never compares the session token with anything: any two non-blank
   * tokens get the same answer, 200 exactly when the name is registered.
   */
  lemma VerifyIgnoresToken(body: AuthBody, st: Accounts, hash: string -> string, token: string, other: string)
    requires IsPost(Some("POST"), body, Verify) && HasCredentials(body)
    requires Strip(body.sessionToken.GetOr("")) != "" && Strip(other) != ""
    ensures Outcome(Some("POST"), body, st, hash, token) ==
            Outcome(Some("POST"), body.(sessionToken := Some(other)), st, hash, token)
    ensures Outcome(Some("POST"), body, st, hash, token).0.statusCode == 200 <==>
            Strip(body.username.GetOr("")) in st.users
  {
  }

  /** Verify still demands a non-blank password, although it never looks at it. */
  lemma VerifyNeedsPassword(body: AuthBody, st: Accounts, hash: string -> string, token: string)
    requires IsPost(Some("POST"), body, Verify)
    requires Strip(body.password.GetOr("")) == ""
    ensures Outcome(Some("POST"), body, st, hash, token).0 == Reply(400, Failure("Username and password required"))
  {
  }

  /** Every user the handler returns from registration is not an admin. */
  lemma RegisteredUsersAreNotAdmins(body: AuthBody, st: Accounts, hash: string -> string, token: string)
    requires IsPost(Some("POST"), body, Register)
    ensures var r := Outcome(Some("POST"), body, st, hash, token).0;
      r.body.Session? ==> !r.body.user.isAdmin
  {
  }
}
