/**
 * What the login routes hand to the JSON Web Token signer (RFC 7519).  The
 * signer itself is a parameter of type `(Value, SignOptions) -> string`,
 * closed over the server's secret.
 */
module Jwt {
  import opened JsValue
  import opened Tables

  /** The options object of `jwt.sign`: none, or `{ expiresIn: span }`. */
  datatype SignOptions = NoExpiry | ExpiresIn(span: string)

  /** The claim set `{email, role}` built from a `users` row. */
  function Claims(email: Value, row: UserRow): (c: Value)
    ensures c.Obj? && c.fields.Keys == {"email", "role"}
    ensures Get(c, "email") == email && Get(c, "role") == Str(row.role)
  {
    Obj(map["email" := email, "role" := Str(row.role)])
  }

  /** The rows `SELECT * FROM users WHERE email = ? AND password = ?` returns: at most one. */
  function Lookup(users: map<Value, UserRow>, email: Value, digest: string): (rows: seq<UserRow>)
    ensures |rows| <= 1
    ensures |rows| == 1 <==> email in users && users[email].password == digest
    ensures |rows| == 1 ==> rows[0] == users[email]
  {
    if email in users && users[email].password == digest then [users[email]] else []
  }
}
