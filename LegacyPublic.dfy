/**
 * `POST /auth/login` of the earlier server: the same hashed lookup, a token
 * signed without expiry, and the earlier envelope.  Every path that finds no
 * row indexes an empty (or undefined) result, throws, and is answered with
 * the bare string "Error in token".
 */
module LegacyPublic {
  import opened JsValue
  import opened Tables
  import opened Jwt
  import LegacyResponse

  const TokenError := "Error in token"

  /** The reply of the earlier `POST /auth/login` for the body `{email, password}`. */
  function Login(users: map<Value, UserRow>, email: Value, password: Value, lookup: Read,
                 sha256: Value -> string, sign: (Value, SignOptions) -> string): (reply: Value)
    ensures reply == Str(TokenError) <==> lookup.ReadFailed? || Lookup(users, email, sha256(password)) == []
    ensures reply != Str(TokenError) ==>
      email in users && users[email].password == sha256(password) &&
      reply == LegacyResponse.CreateResponse(Null, Obj(map["email" := email, "token" := Str(sign(Claims(email, users[email]), NoExpiry))]))
  {
    var hashedPassword := sha256(password);
    match lookup
    case ReadFailed(_) => Str(TokenError)
    case Answered =>
      var data := Lookup(users, email, hashedPassword);
      if |data| == 0 then Str(TokenError)
      else
        var payload := Claims(email, data[0]);
        var token := sign(payload, NoExpiry);
        LegacyResponse.CreateResponse(Null, Obj(map["email" := email, "token" := Str(token)]))
  }

  /** A successful earlier login replies with a status "success" envelope without an `error` field. */
  lemma SuccessEnvelope(users: map<Value, UserRow>, email: Value, password: Value, lookup: Read,
                        sha256: Value -> string, sign: (Value, SignOptions) -> string)
    requires Login(users, email, password, lookup, sha256, sign) != Str(TokenError)
    ensures var reply := Login(users, email, password, lookup, sha256, sign);
            Get(reply, "status") == Str("success") && reply.Obj? && "error" !in reply.fields
  {
  }
}
