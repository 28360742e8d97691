/**
 * The page header greets the signed-in user by the part of their email
 * before the first `@`, falling back to `student`.
 */
module Header {
  import opened JsValue
  import opened JsString
  import opened AuthContext

  const DefaultName: string := "student"

  /** An email `?.split` accepts: a string, or `null`/`undefined`, which `?.` skips. */
  predicate EmailShape(email: Value) {
    email.Str? || email == Null || email == Undefined
  }

  /**
   * `user?.email?.split('@')[0] || 'student'`; `None` is the signed-out `null`
   * user.  The result is `None` where `split` is not a function of the email
   * (a number, a boolean, an object or an array), so the call throws.
   */
  function Username(user: Option<SessionUser>): (r: Option<string>)
    ensures r.None? <==> user.Some? && !EmailShape(user.value.email)
    ensures r.Some? ==> r.value != "" && !Includes(r.value, "@")
    ensures user.None? || user.value.email == Null || user.value.email == Undefined ==> r == Some(DefaultName)
  {
    if user.None? || user.value.email == Null || user.value.email == Undefined then
      NoAtInDefault();
      Some(DefaultName)
    else if !user.value.email.Str? then None
    else
      var head := Split(user.value.email.s, "@")[0];
      if head == "" then
        NoAtInDefault();
        Some(DefaultName)
      else Some(head)
  }

  /** The default name holds no `@`. */
  lemma NoAtInDefault()
    ensures !Includes(DefaultName, "@")
  {
    forall i | 0 <= i < |DefaultName| ensures !OccursAt(DefaultName, "@", i) {
      assert DefaultName[i..i + 1][0] == DefaultName[i];
    }
  }

  /** With an email, the name is the text before the first `@`, or the whole email when it has none. */
  lemma {:induction false} NameIsLocalPart(email: string, token: Value, role: string)
    ensures var r := Username(Some(SessionUser(Str(email), token, role))).value;
      var at := IndexOf(email, "@");
      (at == 0 ==> r == DefaultName)
      && (at > 0 ==> r == email[..at])
      && (at == -1 && email != "" ==> r == email)
  {
    SplitPieces(email, "@");
  }

  /** The name is a prefix of the email up to the first `@`, unless it is the default. */
  lemma NameBeforeAt(email: string, token: Value, role: string)
    ensures var r := Username(Some(SessionUser(Str(email), token, role))).value;
      r == DefaultName || (|r| <= |email| && r == email[..|r|] && (|r| == |email| || email[|r|] == '@'))
  {
    FirstPiece(email, "@");
    var h := Split(email, "@")[0];
    if |h| < |email| {
      assert email[|h|..|h| + 1][0] == '@';
    }
  }
}
