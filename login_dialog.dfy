/**
 * The sign-in dialog (src/components/LoginDialog.tsx): a username, a
 * password and a `loading` flag. Submitting with both fields filled posts a
 * login request; the dialog hands the user and token to the page and closes
 * only when the answer carries success, a user and a non-empty token.
 *
 * As in the add-entry dialog, the `await` splits the handler into
 * `BeginSubmit` and `FinishSubmit`, and the callbacks and toasts are the
 * events it emits, in order.
 */
module LoginDialog {
  import opened Wrappers
  import opened Text
  import opened Wire
  import AuthHandler
  import AuthClient

  /** The JSON `login` resolves to; an absent key is `None`. */
  datatype AuthResponse = AuthResponse(
    success: bool,
    sessionToken: Option<string>,
    user: Option<User>,
    error: Option<string>)

  /** How the awaited request ends: a decoded answer, or a thrown error. */
  datatype Outcome = Returned(result: AuthResponse) | Threw

  datatype Kind = Success | Error

  /** What the handler makes happen outside the dialog, in order. */
  datatype Event = Toast(kind: Kind, description: string) | LoginSuccess(user: User, token: string) | Close

  /** `result.success && result.user && result.session_token`. */
  predicate Accepted(r: AuthResponse) {
    r.success && r.user.Some? && r.sessionToken.Some? && r.sessionToken.value != ""
  }

  class Dialog {
    var username: string
    var password: string
    var loading: bool

    constructor ()
      ensures username == "" && password == "" && !loading
    {
      username := "";
      password := "";
      loading := false;
    }

    /** Typing into the inputs. */
    method Fill(name: string, secret: string)
      modifies this
      ensures username == name && password == secret && loading == old(loading)
    {
      username := name;
      password := secret;
    }

    /**
     * `handleSubmit` up to the request: an empty field only shows an error;
     * otherwise `loading` is set and `login` is asked for, with the texts as typed.
     */
    method BeginSubmit() returns (request: Option<AuthHandler.AuthBody>, events: seq<Event>)
      modifies this
      ensures username == old(username) && password == old(password)
      ensures username == "" || password == "" ==>
        request == None && events == [Toast(Error, "Please fill in all fields")] && loading == old(loading)
      ensures username != "" && password != "" ==>
        request == Some(AuthClient.LoginRequest(username, password)) && events == [] && loading
    {
      if username == "" || password == "" {
        return None, [Toast(Error, "Please fill in all fields")];
      }
      loading := true;
      request := Some(AuthClient.LoginRequest(username, password));
      events := [];
    }

    /**
     * `handleSubmit` from the outcome on: an accepted answer hands over the
     * user and token, closes the dialog and shows a success toast; anything
     * else shows an error and leaves the dialog open. `loading` ends false.
     */
    method FinishSubmit(outcome: Outcome) returns (events: seq<Event>)
      modifies this
      ensures !loading && username == old(username) && password == old(password)
      ensures Close in events <==> outcome.Returned? && Accepted(outcome.result)
      ensures forall i :: 0 <= i < |events| && events[i].LoginSuccess? ==> outcome.Returned? && Accepted(outcome.result)
      ensures outcome.Returned? && Accepted(outcome.result) ==>
        events == [LoginSuccess(outcome.result.user.value, outcome.result.sessionToken.value), Close,
                   Toast(Success, "Logged in successfully")]
      ensures outcome.Returned? && !Accepted(outcome.result) ==>
        events == [Toast(Error, MessageOr(outcome.result.error, "Login failed"))]
      ensures outcome.Threw? ==> events == [Toast(Error, "Network error")]
    {
      if outcome.Threw? {
        events := [Toast(Error, "Network error")];
      } else if Accepted(outcome.result) {
        var r := outcome.result;
        events := [LoginSuccess(r.user.value, r.sessionToken.value)];
        events := events + [Close];
        events := events + [Toast(Success, "Logged in successfully")];
      } else {
        events := [Toast(Error, MessageOr(outcome.result.error, "Login failed"))];
      }
      loading := false;
    }
  }

  /** The JSON body of an account-endpoint reply as the dialog reads it. */
  function Decoded(resp: AuthHandler.Response): AuthResponse {
    match resp.body
    case Session(token, user) => AuthResponse(true, Some(token), Some(user), None)
    case Verified(user) => AuthResponse(true, None, Some(user), None)
    case Failure(error) => AuthResponse(false, None, None, Some(error))
    case NoContent => AuthResponse(false, None, None, None)
  }

  /**
   * The dialog's reading of the endpoint's answer to a login: 400 when a
   * credential strips to nothing, otherwise the credential check.
   */
  lemma DecodedLoginAnswer(resp: AuthHandler.Response, users: map<string, AuthHandler.UserRow>,
                           name: string, secret: string, passwordHash: string, token: string)
    requires token != ""
    requires name == "" || secret == "" ==>
      resp == AuthHandler.Reply(400, AuthHandler.Failure("Username and password required"))
    requires name != "" && secret != "" ==> resp == AuthHandler.LoginReply(users, name, passwordHash, token)
    ensures Accepted(Decoded(resp)) <==>
      name != "" && secret != "" && name in users && users[name].passwordHash == passwordHash
    ensures !Accepted(Decoded(resp)) ==>
      var message := MessageOr(Decoded(resp).error, "Login failed");
      message == "Username and password required" || message == "Invalid credentials"
  {
  }

  /**
   * Against the account endpoint, the dialog signs in exactly when the
   * endpoint's credential check passes (its fresh token is never empty), and
   * it shows the endpoint's own error message otherwise.
   */
  lemma DialogAcceptsIffEndpointDoes(username: string, password: string, st: AuthHandler.Accounts,
                                     hash: string -> string, token: string)
    requires token != ""
    requires username != "" && password != ""
    ensures var resp := AuthHandler.Outcome(Some("POST"), AuthClient.LoginRequest(username, password), st, hash, token).0;
      var name, secret := Strip(username), Strip(password);
      && (Accepted(Decoded(resp)) <==>
            name != "" && secret != "" && name in st.users && st.users[name].passwordHash == hash(secret))
      && (!Accepted(Decoded(resp)) ==>
            var message := MessageOr(Decoded(resp).error, "Login failed");
            message == "Username and password required" || message == "Invalid credentials")
  {
    AuthClient.LoginRequestChecksCredentials(username, password, st, hash, token);
    var resp := AuthHandler.Outcome(Some("POST"), AuthClient.LoginRequest(username, password), st, hash, token).0;
    DecodedLoginAnswer(resp, st.users, Strip(username), Strip(password), hash(Strip(password)), token);
  }

  /** Typed text that is all blanks gets past the dialog and is refused by the endpoint with 400. */
  lemma BlankNamePassesDialogOnly(password: string, st: AuthHandler.Accounts, hash: string -> string, token: string)
    ensures var resp := AuthHandler.Outcome(Some("POST"), AuthClient.LoginRequest(" ", password), st, hash, token).0;
      resp == AuthHandler.Reply(400, AuthHandler.Failure("Username and password required"))
  {
    assert AllSpace(" ");
  }
}
