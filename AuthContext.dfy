/**
 * The client's authentication context: it decodes the token the server
 * issues, keeps the token in the browser's storage and the signed-in user in
 * its state, and clears both on logout.
 *
 * The HTTP call to the login route and the token decoder are parameters: the
 * first is the reply it produced (`ApiReply`), the second a function that
 * returns `None` where the decoder throws.
 */
module AuthContext {
  import opened JsValue
  import opened JsString

  const DefaultRole: string := "student"
  const TokenKey: string := "token"
  const EmailKey: string := "email"

  const InvalidResponse: string := "Invalid response from server"
  const InvalidFormat: string := "Invalid response format from server"
  const NoToken: string := "No authentication token received"
  const DecodeFailed: string := "Failed to decode authentication token. Please try logging in again."
  const LoginFailed: string := "Login failed"
  const Unreachable: string := "Unable to connect to server. Please check your connection."
  const Unexpected: string := "An unexpected error occurred"

  /** What `decodeToken` returns: the email claim and the normalised role. */
  datatype DecodedUser = DecodedUser(email: Value, role: string)

  /** The signed-in user kept in the context's state. */
  datatype SessionUser = SessionUser(email: Value, token: Value, role: string)

  /**
   * How the login request ended: a response, or a thrown error with its
   * `response`, `request` and `message` properties (`Undefined` when absent).
   */
  datatype ApiReply =
    | Responded(response: Value)
    | Rejected(errorResponse: Value, errorRequest: Value, errorMessage: Value)

  /** The object `login` resolves to. */
  datatype LoginResult = Succeeded(userData: SessionUser) | Refused(error: Value)

  /** Storage, user and result after a login. */
  datatype LoginOutcome = LoginOutcome(storage: map<string, Value>, user: Option<SessionUser>, result: LoginResult)

  /** The role claim is usable: absent or falsy, or a string that can be lowercased. */
  predicate RoleUsable(claims: Value) {
    !Truthy(Get(claims, "role")) || Get(claims, "role").Str?
  }

  /**
   * The checks `decodeToken` makes on the decoded claims, and the object it
   * builds from them.  A truthy role that is not a string makes `toLowerCase`
   * throw, which the outer `catch` turns into `null` as well.
   */
  function FromClaims(decoded: Value): (r: Option<DecodedUser>)
    ensures r.Some? <==> Truthy(decoded) && Truthy(Get(decoded, "email")) && RoleUsable(decoded)
    ensures r.Some? ==>
      r.value.email == Get(decoded, "email") && r.value.role != "" && ToLower(r.value.role) == r.value.role
      && if Truthy(Get(decoded, "role")) then r.value.role == ToLower(Get(decoded, "role").s)
         else r.value.role == DefaultRole
  {
    if !Truthy(decoded) then None
    else if !Truthy(Get(decoded, "email")) then None
    else
      var role := Get(decoded, "role");
      if !Truthy(role) then
        DefaultRoleIsLower();
        Some(DecodedUser(Get(decoded, "email"), DefaultRole))
      else if role.Str? then
        ToLowerIdempotent(role.s);
        Some(DecodedUser(Get(decoded, "email"), ToLower(role.s)))
      else None
  }

  /**
   * `decodeToken(token)`; `None` is the `null` it returns.  A token is
   * decoded only when it is a string that, once trimmed, is non-empty and
   * has exactly two dots; a decoder that throws also gives `null`.
   */
  function DecodeToken(token: Value, jwtDecode: string -> Option<Value>): (r: Option<DecodedUser>)
    ensures !token.Str? || Trim(token.s) == "" ==> r == None
    ensures token.Str? && Trim(token.s) != "" ==> r == DecodeClean(Trim(token.s), jwtDecode)
  {
    if !Truthy(token) || !token.Str? then
      assert token.Str? ==> Trim(token.s) == "";
      None
    else
      var cleanToken := Trim(token.s);
      if |cleanToken| == 0 then None
      else DecodeClean(cleanToken, jwtDecode)
  }

  /** The steps of `decodeToken` after trimming: the three-part check, the decoder and the claims. */
  function DecodeClean(cleanToken: string, jwtDecode: string -> Option<Value>): (r: Option<DecodedUser>)
    ensures multiset(cleanToken)['.'] != 2 ==> r == None
    ensures multiset(cleanToken)['.'] == 2 ==>
      r == if jwtDecode(cleanToken).Some? then FromClaims(jwtDecode(cleanToken).value) else None
  {
    SplitCount(cleanToken, '.');
    if |Split(cleanToken, ".")| != 3 then None
    else match jwtDecode(cleanToken)
      case None => None
      case Some(decoded) => FromClaims(decoded)
  }

  /** The default role is already lowercase. */
  lemma DefaultRoleIsLower()
    ensures ToLower(DefaultRole) == DefaultRole
  {
    assert forall i :: 0 <= i < |DefaultRole| ==> LowerChar(DefaultRole[i]) == DefaultRole[i];
  }

  /** White space around a token does not change what it decodes to. */
  lemma DecodeIgnoresSurroundingSpace(s: string, jwtDecode: string -> Option<Value>)
    ensures DecodeToken(Str(Trim(s)), jwtDecode) == DecodeToken(Str(s), jwtDecode)
  {
    TrimIdempotent(s);
    var t := Trim(s);
    if t != "" {
      assert DecodeToken(Str(t), jwtDecode) == DecodeClean(Trim(t), jwtDecode);
    }
  }

  /**
   * The response reaches `localStorage.setItem`: it carries a body whose
   * status is "success", whose data is truthy and holds a truthy token.
   */
  predicate Reached(response: Value) {
    Truthy(response) && Truthy(Get(response, "data"))
    && Get(Get(response, "data"), "status") == Str("success")
    && Truthy(Get(Get(response, "data"), "data"))
    && Truthy(Get(Get(Get(response, "data"), "data"), "token"))
  }

  /**
   * The email of the signed-in user: the one in the response data when truthy,
   * otherwise the one typed in when truthy, otherwise the token's.
   */
  function ChosenEmail(responseData: Value, email: Value, decoded: DecodedUser): (e: Value)
    ensures Truthy(Get(responseData, "email")) ==> e == Get(responseData, "email")
    ensures !Truthy(Get(responseData, "email")) && Truthy(email) ==> e == email
    ensures !Truthy(Get(responseData, "email")) && !Truthy(email) ==> e == decoded.email
  {
    Or(Or(Get(responseData, "email"), email), decoded.email)
  }

  /** The message `login`'s `catch` block reports for a thrown request error. */
  function RejectedError(errorResponse: Value, errorRequest: Value, errorMessage: Value): (e: Value)
    ensures Truthy(e)
    ensures Truthy(errorResponse) ==>
      var d := Get(errorResponse, "data");
      (Truthy(Get(d, "error")) ==> e == Get(d, "error"))
      && (!Truthy(Get(d, "error")) && Truthy(Get(d, "data")) ==> e == Get(d, "data"))
      && (!Truthy(Get(d, "error")) && !Truthy(Get(d, "data")) ==> e == Str(LoginFailed))
    ensures !Truthy(errorResponse) && Truthy(errorRequest) ==> e == Str(Unreachable)
    ensures !Truthy(errorResponse) && !Truthy(errorRequest) && Truthy(errorMessage) ==> e == errorMessage
    ensures !Truthy(errorResponse) && !Truthy(errorRequest) && !Truthy(errorMessage) ==> e == Str(Unexpected)
  {
    if Truthy(errorResponse) then
      Or(Or(Get(Get(errorResponse, "data"), "error"), Get(Get(errorResponse, "data"), "data")), Str(LoginFailed))
    else if Truthy(errorRequest) then Str(Unreachable)
    else Or(errorMessage, Str(Unexpected))
  }

  /** The body of `login`'s `try` block once the request has returned `response`. */
  function ResponseStep(storage: map<string, Value>, user: Option<SessionUser>, email: Value, response: Value,
                        jwtDecode: string -> Option<Value>): (o: LoginOutcome)
    ensures o.result.Refused? ==> Truthy(o.result.error) && o.user == user
    ensures o.result.Refused? ==> o.storage == storage || o.storage == storage - {TokenKey}
    ensures !Reached(response) ==> o.storage == storage && o.result.Refused?
    ensures Truthy(response) && Truthy(Get(response, "data")) && Get(Get(response, "data"), "status") != Str("success") ==>
      o.result == Refused(Or(Get(Get(response, "data"), "error"), Str(LoginFailed)))
    ensures o.result.Succeeded? <==>
      Reached(response) && DecodeToken(Get(Get(Get(response, "data"), "data"), "token"), jwtDecode).Some?
    ensures o.result.Succeeded? ==>
      var token := Get(Get(Get(response, "data"), "data"), "token");
      o.storage == storage[TokenKey := token] && o.user == Some(o.result.userData)
      && o.result.userData.token == token && Truthy(o.result.userData.email)
      && o.result.userData.role == DecodeToken(token, jwtDecode).value.role
      && o.result.userData.email == ChosenEmail(Get(Get(response, "data"), "data"), email, DecodeToken(token, jwtDecode).value)
  {
    if !Truthy(response) || !Truthy(Get(response, "data")) then
      LoginOutcome(storage, user, Refused(Str(InvalidResponse)))
    else
      var body := Get(response, "data");
      if Get(body, "status") == Str("success") then
        var responseData := Get(body, "data");
        if !Truthy(responseData) then LoginOutcome(storage, user, Refused(Str(InvalidFormat)))
        else
          var token := Get(responseData, "token");
          if !Truthy(token) then LoginOutcome(storage, user, Refused(Str(NoToken)))
          else
            match DecodeToken(token, jwtDecode)
            case None => LoginOutcome(storage - {TokenKey}, user, Refused(Str(DecodeFailed)))
            case Some(decoded) =>
              var userData := SessionUser(ChosenEmail(responseData, email, decoded), token,
                                          if decoded.role != "" then decoded.role else DefaultRole);
              LoginOutcome(storage[TokenKey := token], Some(userData), Succeeded(userData))
      else
        LoginOutcome(storage, user, Refused(Or(Get(body, "error"), Str(LoginFailed))))
  }

  /** `login(email, password)` once the request has produced `reply`. */
  function LoginStep(storage: map<string, Value>, user: Option<SessionUser>, email: Value, reply: ApiReply,
                     jwtDecode: string -> Option<Value>): (o: LoginOutcome)
    ensures o.result.Refused? ==> Truthy(o.result.error) && o.user == user
    ensures o.result.Refused? ==> o.storage == storage || o.storage == storage - {TokenKey}
    ensures o.result.Succeeded? ==> reply.Responded?
    ensures reply.Rejected? ==> o.storage == storage && o.result.Refused?
    ensures reply.Responded? && !Reached(reply.response) ==> o.storage == storage
    ensures TokenKey in o.storage ==> o.result.Succeeded? || (TokenKey in storage && o.storage[TokenKey] == storage[TokenKey])
  {
    match reply
    case Rejected(errorResponse, errorRequest, errorMessage) =>
      LoginOutcome(storage, user, Refused(RejectedError(errorResponse, errorRequest, errorMessage)))
    case Responded(response) =>
      ResponseStep(storage, user, email, response, jwtDecode)
  }

  /** A token that fails to decode is stored and then removed, so no token is left behind. */
  lemma UndecodableTokenNotKept(storage: map<string, Value>, user: Option<SessionUser>, email: Value,
                                response: Value, jwtDecode: string -> Option<Value>)
    requires Truthy(response) && Truthy(Get(response, "data"))
    requires Get(Get(response, "data"), "status") == Str("success")
    requires Truthy(Get(Get(response, "data"), "data"))
    requires Truthy(Get(Get(Get(response, "data"), "data"), "token"))
    requires DecodeToken(Get(Get(Get(response, "data"), "data"), "token"), jwtDecode).None?
    ensures var o := LoginStep(storage, user, email, Responded(response), jwtDecode);
      o.result.Refused? && TokenKey !in o.storage && o.user == user && o.storage == storage - {TokenKey}
  {
  }

  /** A signed-in user's role is never empty and always lowercase. */
  lemma SessionRoleNormalised(storage: map<string, Value>, user: Option<SessionUser>, email: Value, reply: ApiReply,
                              jwtDecode: string -> Option<Value>)
    ensures var o := LoginStep(storage, user, email, reply, jwtDecode);
      o.result.Succeeded? ==> o.result.userData.role != "" && ToLower(o.result.userData.role) == o.result.userData.role
  {
  }

  /** The context's state: the browser's storage and the signed-in user. */
  class Auth {
    var storage: map<string, Value>
    var user: Option<SessionUser>

    /** The provider starts with no user; the storage is whatever the browser holds. */
    constructor (storage: map<string, Value>)
      ensures this.storage == storage && user == None
    {
      this.storage := storage;
      user := None;
    }

    /** The mount effect: a stored token that decodes signs its user in again. */
    method Restore(jwtDecode: string -> Option<Value>)
      modifies this`user
      ensures var token := if TokenKey in storage then storage[TokenKey] else Null;
        user == if !Truthy(token) then old(user)
                else match DecodeToken(token, jwtDecode)
                  case None => old(user)
                  case Some(decoded) => Some(SessionUser(decoded.email, token, decoded.role))
    {
      var token := if TokenKey in storage then storage[TokenKey] else Null;
      if Truthy(token) {
        var decoded := DecodeToken(token, jwtDecode);
        if decoded.Some? {
          user := Some(SessionUser(decoded.value.email, token, decoded.value.role));
        }
      }
    }

    /** `login`: stores the token before decoding it and removes it again when decoding fails. */
    method Login(email: Value, reply: ApiReply, jwtDecode: string -> Option<Value>) returns (result: LoginResult)
      modifies this
      ensures LoginOutcome(storage, user, result) == LoginStep(old(storage), old(user), email, reply, jwtDecode)
    {
      match reply {
        case Rejected(errorResponse, errorRequest, errorMessage) =>
          if Truthy(errorResponse) {
            var data := Get(errorResponse, "data");
            result := Refused(Or(Or(Get(data, "error"), Get(data, "data")), Str(LoginFailed)));
          } else if Truthy(errorRequest) {
            result := Refused(Str(Unreachable));
          } else {
            result := Refused(Or(errorMessage, Str(Unexpected)));
          }
        case Responded(response) =>
          result := LoginWithResponse(email, response, jwtDecode);
      }
    }

    /** The `try` block of `login` after the request has returned `response`. */
    method LoginWithResponse(email: Value, response: Value, jwtDecode: string -> Option<Value>) returns (result: LoginResult)
      modifies this
      ensures LoginOutcome(storage, user, result) == ResponseStep(old(storage), old(user), email, response, jwtDecode)
    {
      if !Truthy(response) || !Truthy(Get(response, "data")) {
        return Refused(Str(InvalidResponse));
      }
      var body := Get(response, "data");
      if Get(body, "status") == Str("success") {
        var responseData := Get(body, "data");
        if !Truthy(responseData) {
          return Refused(Str(InvalidFormat));
        }
        var userEmail := Or(Get(responseData, "email"), email);
        var token := Get(responseData, "token");
        if !Truthy(token) {
          return Refused(Str(NoToken));
        }
        storage := storage[TokenKey := token];
        var decoded := DecodeToken(token, jwtDecode);
        if decoded.None? {
          storage := storage - {TokenKey};
          return Refused(Str(DecodeFailed));
        }
        var role := if decoded.value.role != "" then decoded.value.role else DefaultRole;
        var userData := SessionUser(Or(userEmail, decoded.value.email), token, role);
        user := Some(userData);
        result := Succeeded(userData);
      } else {
        result := Refused(Or(Get(body, "error"), Str(LoginFailed)));
      }
    }

    /** `logout`: forgets the stored token and email and the user. */
    method Logout()
      modifies this
      ensures storage == old(storage) - {TokenKey, EmailKey}
      ensures user == None
    {
      storage := storage - {TokenKey};
      storage := storage - {EmailKey};
      user := None;
    }
  }
}
