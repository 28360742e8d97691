/**
 * `POST /auth/login` of the current server: hash the submitted password,
 * look up (email, digest), and on a match sign `{email, role}` of the row
 * with a one-hour expiry and reply `{email, token}` in a success envelope.
 */
module Public {
  import opened JsValue
  import opened Tables
  import opened Jwt
  import Response
  import UserAuth

  const TokenLifetime := ExpiresIn("1h")

  /** The reply of `POST /auth/login` for the body `{email, password}`. */
  function Login(users: map<Value, UserRow>, email: Value, password: Value, lookup: Read,
                 sha256: Value -> string, sign: (Value, SignOptions) -> string): (reply: Value)
    ensures lookup.ReadFailed? ==> reply == Response.CreateResponse(Bool(true), Str("Database error"))
    ensures lookup.Answered? && Lookup(users, email, sha256(password)) == [] ==>
      reply == Response.CreateResponse(Bool(true), Str("Invalid email or password"))
    ensures Get(reply, "status") == Response.Success <==>
      lookup.Answered? && email in users && users[email].password == sha256(password)
    ensures Get(reply, "status") == Response.Success ==>
      Get(reply, "data") == Obj(map["email" := email, "token" := Str(sign(Claims(email, users[email]), TokenLifetime))])
    ensures Get(reply, "status") != Response.Success ==> Get(reply, "data") == Null && Get(reply, "error") == Bool(true)
  {
    var hashedPassword := sha256(password);
    if lookup.ReadFailed? then Response.CreateResponse(Bool(true), Str("Database error"))
    else
      var data := Lookup(users, email, hashedPassword);
      if |data| == 0 then Response.CreateResponse(Bool(true), Str("Invalid email or password"))
      else
        var payload := Claims(email, data[0]);
        var token := sign(payload, TokenLifetime);
        Response.CreateResponse(Bool(false), Obj(map["email" := email, "token" := Str(token)]))
  }

  /** The lookup sees the password only through its digest, never the plaintext. */
  lemma OnlyDigestCompared(users: map<Value, UserRow>, email: Value, password1: Value, password2: Value, lookup: Read,
                           sha256: Value -> string, sign: (Value, SignOptions) -> string)
    requires sha256(password1) == sha256(password2)
    ensures Login(users, email, password1, lookup, sha256, sign) == Login(users, email, password2, lookup, sha256, sign)
  {
  }

  /**
   * A token from a successful login, presented on a gated path to a verifier
   * that accepts what the signer produced, attaches exactly the e-mail and
   * role the `users` row held at login time.
   */
  lemma LoginTokenPassesGate(users: map<Value, UserRow>, email: Value, password: Value,
                             sha256: Value -> string, sign: (Value, SignOptions) -> string,
                             verify: string -> Option<Value>, url: string)
    requires email in users && users[email].password == sha256(password)
    requires url != UserAuth.RegisterPath
    requires var token := sign(Claims(email, users[email]), TokenLifetime);
             token != "" && verify(token) == Some(Claims(email, users[email]))
    ensures var reply := Login(users, email, password, Answered, sha256, sign);
            var token := Get(Get(reply, "data"), "token");
            token.Str? &&
            UserAuth.Authenticate(url, Some(token.s), verify)
              == UserAuth.AuthDecision(UserAuth.Next, Some(UserAuth.User(email, Str(users[email].role))))
  {
  }
}
