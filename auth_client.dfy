/**
 * The browser's session helpers (src/lib/auth.ts): the login and register
 * requests, and the two `localStorage` entries that keep a signed-in user
 * across visits — "user" (the serialised user record) and "session_token".
 *
 * `JSON.stringify` / `JSON.parse` of the user record are stood in for by
 * `EncodeUser` / `DecodeUser`, an encoding of our own with a proved round trip.
 */
module AuthClient {
  import opened Wrappers
  import opened Text
  import opened Wire
  import AuthHandler

  const UserKey: string := "user"
  const TokenKey: string := "session_token"

  // ---------------------------------------------------------------------------
  // Serialising the user record
  // ---------------------------------------------------------------------------

  /** The first position of `c` in `s`, if any. */
  function IndexOf(s: string, c: char): (r: Option<nat>)
    ensures r.None? <==> c !in s
    ensures r.Some? ==> r.value < |s| && s[r.value] == c && c !in s[..r.value]
  {
    if s == [] then None
    else if s[0] == c then Some(0)
    else
      match IndexOf(s[1..], c)
      case None => None
      case Some(i) =>
        assert s[..i + 1] == [s[0]] + s[1..][..i];
        Some(i + 1)
  }

  /** The id in decimal, a ';', the admin flag as '1' or '0', then the name. */
  function EncodeUser(u: User): (s: string)
    ensures s != []
  {
    IntToString(u.id) + [';', if u.isAdmin then '1' else '0'] + u.username
  }

  /** Reads back what `EncodeUser` writes; any other text is malformed. */
  function DecodeUser(s: string): Option<User> {
    match IndexOf(s, ';')
    case None => None
    case Some(i) =>
      if i + 1 < |s| && (s[i + 1] == '0' || s[i + 1] == '1') then
        match ParseInt(s[..i])
        case None => None
        case Some(id) => Some(User(id, s[i + 2..], s[i + 1] == '1'))
      else None
  }

  /** A decimal numeral holds only digits and a sign, so no ';'. */
  lemma NoSeparatorInNumber(n: int)
    ensures ';' !in IntToString(n)
  {
    var s := IntToString(n);
    forall k | 0 <= k < |s| ensures IsDigit(s[k]) || s[k] == '-' {
      if n < 0 && k > 0 {
        assert s[k] == NatDigits(-n)[k - 1];
      }
    }
  }

  /** Decoding inverts encoding, so the stored user comes back unchanged. */
  lemma DecodeEncodeUser(u: User)
    ensures DecodeUser(EncodeUser(u)) == Some(u)
  {
    var digits := IntToString(u.id);
    var flag := if u.isAdmin then '1' else '0';
    var s := EncodeUser(u);
    NoSeparatorInNumber(u.id);
    assert s == digits + ([';', flag] + u.username);
    assert s[|digits|] == ';' && s[..|digits|] == digits;
    assert IndexOf(s, ';') == Some(|digits|);
    ParseIntToString(u.id);
    assert s[|digits| + 1] == flag;
    assert s[|digits| + 2..] == u.username;
  }

  /** Distinct users are stored as distinct texts. */
  lemma EncodeUserInjective(u: User, v: User)
    requires EncodeUser(u) == EncodeUser(v)
    ensures u == v
  {
    DecodeEncodeUser(u);
    DecodeEncodeUser(v);
  }

  // ---------------------------------------------------------------------------
  // The stored session
  // ---------------------------------------------------------------------------

  /**
   * What `getStoredAuth` yields: nothing, the user and token, or `Malformed`
   * when the "user" entry does not parse (`JSON.parse` throws, and nothing
   * catches it).
   */
  datatype Stored = NoAuth | Auth(user: User, token: string) | Malformed

  /** The browser's `localStorage`: a map from keys to strings. */
  class LocalStorage {
    var items: map<string, string>

    constructor ()
      ensures items == map[]
    {
      items := map[];
    }
  }

  /** `localStorage.getItem(key)` is truthy: the key is present with a non-empty value. */
  predicate Holds(items: map<string, string>, key: string) {
    key in items && items[key] != ""
  }

  /** The stored session as a function of the storage's contents. */
  function StoredAuth(items: map<string, string>): Stored {
    if Holds(items, UserKey) && Holds(items, TokenKey) then
      match DecodeUser(items[UserKey])
      case Some(u) => Auth(u, items[TokenKey])
      case None => Malformed
    else NoAuth
  }

  /** The storage after `saveAuth(user, token)`. */
  function Saved(items: map<string, string>, user: User, token: string): map<string, string> {
    items[UserKey := EncodeUser(user)][TokenKey := token]
  }

  /** The storage after `clearAuth()`. */
  function Cleared(items: map<string, string>): map<string, string> {
    items - {UserKey, TokenKey}
  }

  /** `getStoredAuth()`. */
  method GetStoredAuth(store: LocalStorage) returns (r: Stored)
    ensures r == StoredAuth(store.items)
  {
    var userStr := if UserKey in store.items then store.items[UserKey] else "";
    var token := if TokenKey in store.items then store.items[TokenKey] else "";
    if userStr != "" && token != "" {
      var user := DecodeUser(userStr);
      if user.None? {
        return Malformed;
      }
      return Auth(user.value, token);
    }
    r := NoAuth;
  }

  /** `saveAuth(user, token)`: two writes. */
  method SaveAuth(store: LocalStorage, user: User, token: string)
    modifies store
    ensures store.items == Saved(old(store.items), user, token)
  {
    store.items := store.items[UserKey := EncodeUser(user)];
    store.items := store.items[TokenKey := token];
  }

  /** `clearAuth()`: two removals. */
  method ClearAuth(store: LocalStorage)
    modifies store
    ensures store.items == Cleared(old(store.items))
  {
    store.items := store.items - {UserKey};
    store.items := store.items - {TokenKey};
  }

  /** A stored session exists exactly when both entries are present and non-empty. */
  lemma StoredAuthPresentIff(items: map<string, string>)
    ensures StoredAuth(items) != NoAuth <==> Holds(items, UserKey) && Holds(items, TokenKey)
  {
  }

  /** Saving then loading gives back the same user and token, provided the token is not empty. */
  lemma LoadAfterSave(items: map<string, string>, user: User, token: string)
    ensures token != "" ==> StoredAuth(Saved(items, user, token)) == Auth(user, token)
    ensures token == "" ==> StoredAuth(Saved(items, user, token)) == NoAuth
  {
    var after := Saved(items, user, token);
    assert after[UserKey] == EncodeUser(user);
    assert after[TokenKey] == token;
    DecodeEncodeUser(user);
  }

  /** After clearing, no session is stored. */
  lemma LoadAfterClear(items: map<string, string>)
    ensures StoredAuth(Cleared(items)) == NoAuth
  {
    assert UserKey !in Cleared(items);
  }

  /** Saving and clearing touch only the two session entries. */
  lemma OtherKeysUntouched(items: map<string, string>, user: User, token: string, key: string)
    requires key != UserKey && key != TokenKey
    ensures key in Saved(items, user, token) <==> key in items
    ensures key in Cleared(items) <==> key in items
    ensures key in items ==> Saved(items, user, token)[key] == items[key] && Cleared(items)[key] == items[key]
  {
  }

  /** The last save wins, so saving the same session twice is saving it once. */
  lemma LastSaveWins(items: map<string, string>, u1: User, t1: string, u2: User, t2: string)
    ensures Saved(Saved(items, u1, t1), u2, t2) == Saved(items, u2, t2)
    ensures Saved(Saved(items, u2, t2), u2, t2) == Saved(items, u2, t2)
  {
  }

  /** Clearing forgets whatever was saved before. */
  lemma ClearAfterSave(items: map<string, string>, user: User, token: string)
    ensures Cleared(Saved(items, user, token)) == Cleared(items)
  {
  }

  // ---------------------------------------------------------------------------
  // Requests
  // ---------------------------------------------------------------------------

  /** The body `login(username, password)` posts. */
  function LoginRequest(username: string, password: string): AuthHandler.AuthBody {
    AuthHandler.AuthBody(Some("login"), Some(username), Some(password), None)
  }

  /** The body `register(username, password)` posts. */
  function RegisterRequest(username: string, password: string): AuthHandler.AuthBody {
    AuthHandler.AuthBody(Some("register"), Some(username), Some(password), None)
  }

  /**
   * The server answers the client's login request with the credential check
   * on the stripped name and password, or 400 when either strips to nothing.
   */
  lemma LoginRequestChecksCredentials(username: string, password: string, st: AuthHandler.Accounts,
                                      hash: string -> string, token: string)
    ensures var r := AuthHandler.Outcome(Some("POST"), LoginRequest(username, password), st, hash, token);
      && r.1 == st
      && (Strip(username) == "" || Strip(password) == "" ==>
            r.0 == AuthHandler.Reply(400, AuthHandler.Failure("Username and password required")))
      && (Strip(username) != "" && Strip(password) != "" ==>
            r.0 == AuthHandler.LoginReply(st.users, Strip(username), hash(Strip(password)), token))
  {
  }

  /** The client's register request, under a new name, creates a non-admin user under the stripped name. */
  lemma RegisterRequestCreatesUser(username: string, password: string, st: AuthHandler.Accounts,
                                   hash: string -> string, token: string)
    requires Strip(username) != "" && Strip(password) != ""
    requires Strip(username) !in st.users
    ensures AuthHandler.Outcome(Some("POST"), RegisterRequest(username, password), st, hash, token).0 ==
            AuthHandler.Reply(200, AuthHandler.Session(token, User(st.nextId, Strip(username), false)))
  {
  }
}
