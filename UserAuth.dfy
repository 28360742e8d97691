/**
 * The two gates in front of the route handlers.  `authenticationUser` lets the
 * self-registration path through untouched, otherwise it reads the `token`
 * header, checks it with the JSON Web Token verifier (RFC 7519) and attaches
 * `{email, role}` from the payload to the request.  `authorizeUserRole`
 * admits only the role string "admin".  Both reject with a bare string.
 *
 * The verifier is a parameter: it returns the payload of a token that it
 * accepts and `None` where the library throws (bad signature, malformed or
 * expired token); the signing secret and the clock live inside it.
 */
module UserAuth {
  import opened JsValue

  const RegisterPath := "/student/register-to-course"
  const TokenMissing := "Token is missing ....."
  const InvalidToken := "Invalid Token ...."
  const PermissionDenied := "You need permission to access this path ......"

  /** The identity attached to a request as `req.user`. */
  datatype User = User(email: Value, role: Value)

  /** What a gate does: pass on to `next`, send a reply body, or throw. */
  datatype GateStep = Next | Send(body: Value) | Throw

  /** The decision of the authentication gate, and the identity it attaches, if any. */
  datatype AuthDecision = AuthDecision(step: GateStep, attach: Option<User>)

  /** `!token` for the header value: absent or empty. */
  predicate MissingToken(token: Option<string>) {
    token.None? || token.value == ""
  }

  /** The decision `authenticationUser` takes for a request. */
  function Authenticate(url: string, token: Option<string>, verify: string -> Option<Value>): (d: AuthDecision)
    ensures url == RegisterPath ==> d == AuthDecision(Next, None)
    ensures url != RegisterPath && MissingToken(token) ==> d == AuthDecision(Send(Str(TokenMissing)), None)
    ensures url != RegisterPath && !MissingToken(token) && verify(token.value).None? ==>
      d == AuthDecision(Send(Str(InvalidToken)), None)
    ensures url != RegisterPath && !MissingToken(token) && verify(token.value).Some? ==>
      var payload := verify(token.value).value;
      d == AuthDecision(Next, Some(User(Get(payload, "email"), Get(payload, "role"))))
    ensures d.step.Next? <==> url == RegisterPath || (!MissingToken(token) && verify(token.value).Some?)
    ensures d.attach.Some? ==> d.step.Next?
    ensures d.step.Send? ==> d.step.body.Str?
    ensures !d.step.Throw?
  {
    if url == RegisterPath then AuthDecision(Next, None)
    else if MissingToken(token) then AuthDecision(Send(Str(TokenMissing)), None)
    else match verify(token.value)
      case None => AuthDecision(Send(Str(InvalidToken)), None)
      case Some(payload) => AuthDecision(Next, Some(User(Get(payload, "email"), Get(payload, "role"))))
  }

  /** An incoming request as the gates see it; only `user` is written. */
  class Request {
    const url: string
    const token: Option<string>
    var user: Option<User>

    constructor (url: string, token: Option<string>)
      ensures this.url == url && this.token == token && user == None
    {
      this.url := url;
      this.token := token;
      user := None;
    }
  }

  /** `authenticationUser(req, res, next)`: decides, and on success writes `req.user`. */
  method AuthenticationUser(req: Request, verify: string -> Option<Value>) returns (step: GateStep)
    modifies req
    ensures step == Authenticate(req.url, req.token, verify).step
    ensures req.user == match Authenticate(req.url, req.token, verify).attach
      case Some(u) => Some(u)
      case None => old(req.user)
  {
    if req.url == RegisterPath {
      step := Next;
      return;
    }
    var token := req.token;
    if token.None? || token.value == "" {
      step := Send(Str(TokenMissing));
      return;
    }
    var verified := verify(token.value);
    if verified.None? {
      step := Send(Str(InvalidToken));
      return;
    }
    var payload := verified.value;
    req.user := Some(User(Get(payload, "email"), Get(payload, "role")));
    step := Next;
  }

  /**
   * `authorizeUserRole(req, res, next)`: only the exact string "admin" passes.
   * A request without `req.user` makes the property access throw.
   */
  function AuthorizeUserRole(user: Option<User>): (step: GateStep)
    ensures step == Next <==> user.Some? && user.value.role == Str("admin")
    ensures user.None? <==> step == Throw
    ensures step.Send? ==> step.body == Str(PermissionDenied)
  {
    match user
    case None => Throw
    case Some(u) => if u.role == Str("admin") then Next else Send(Str(PermissionDenied))
  }

  /** The role check is case-sensitive: "Admin" is refused. */
  lemma RoleCheckCaseSensitive(email: Value)
    ensures AuthorizeUserRole(Some(User(email, Str("Admin")))) == Send(Str(PermissionDenied))
  {
  }
}
