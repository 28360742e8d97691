/**
 * The student routes of the earlier server.  Registration performs no
 * presence check; an existing user only gets an enrolment row (the role is
 * left alone); a new e-mail first gets a user row with role "Student"
 * (capital S) whose failure is ignored.  The reply is built from the
 * enrolment insert alone, with the earlier envelope.
 *
 * When the lookup fails the callback indexes an undefined result and
 * throws, which ends the process without a reply.
 */
module LegacyStudents {
  import opened JsValue
  import opened Tables
  import LegacyResponse

  const DefaultPassword := Str("Sunbeam")
  const StudentRole := "Student"
  const PasswordMismatch := "Password not matched ...."

  /** The body of a registration request. */
  datatype RegisterBody = RegisterBody(courseId: Value, email: Value, name: Value, mobileNo: Value)

  /** The database's answers to the lookup, the user insert and the student insert. */
  datatype RegisterAnswers = RegisterAnswers(lookup: Read, userInsert: Write, studentInsert: Write)

  /** A reply body, or an exception that escapes the query callback. */
  datatype Reply = Sent(body: Value) | Crashed

  /** Both tables after a request, and the reply. */
  datatype Outcome = Outcome(users: map<Value, UserRow>, students: seq<StudentRow>, reply: Reply)

  /** The tables after a password change, and the reply sent. */
  datatype PasswordOutcome = PasswordOutcome(users: map<Value, UserRow>, reply: Value)

  /** The enrolment row a registration appends. */
  function EnrolmentOf(body: RegisterBody): StudentRow {
    StudentRow(body.name, body.email, body.courseId, body.mobileNo)
  }

  /** The user table after the (possibly failed) insert of a new user. */
  function UsersAfter(users: map<Value, UserRow>, email: Value, insert: Write, sha256: Value -> string): (u: map<Value, UserRow>)
    ensures email in users ==> u == users
    ensures email !in users && insert.Applied? ==> u == users[email := UserRow(sha256(DefaultPassword), StudentRole)]
    ensures insert.WriteFailed? ==> u == users
  {
    if email !in users && insert.Applied? then users[email := UserRow(sha256(DefaultPassword), StudentRole)] else users
  }

  /** The effect of the earlier `POST /student/register-to-course`. */
  function Register(users: map<Value, UserRow>, students: seq<StudentRow>, body: RegisterBody,
                    answers: RegisterAnswers, sha256: Value -> string): (o: Outcome)
    ensures answers.lookup.ReadFailed? ==> o == Outcome(users, students, Crashed)
    ensures answers.lookup.Answered? ==>
      o.reply == Sent(LegacyResponse.CreateResponse(ErrorArg(answers.studentInsert), DataArg(answers.studentInsert)))
    ensures answers.lookup.Answered? && body.email in users ==> o.users == users
    ensures answers.lookup.Answered? && body.email !in users ==> o.users == UsersAfter(users, body.email, answers.userInsert, sha256)
    ensures answers.lookup.Answered? && answers.studentInsert.Applied? ==> o.students == students + [EnrolmentOf(body)]
    ensures answers.studentInsert.WriteFailed? ==> o.students == students
    ensures o.reply.Sent? ==> Get(o.reply.body, "status") == Str("success")
    ensures forall e :: e in users ==> e in o.users && o.users[e] == users[e]
  {
    if answers.lookup.ReadFailed? then Outcome(users, students, Crashed)
    else
      var users' := if body.email in users then users else UsersAfter(users, body.email, answers.userInsert, sha256);
      var students' := if answers.studentInsert.Applied? then students + [EnrolmentOf(body)] else students;
      Outcome(users', students',
              Sent(LegacyResponse.CreateResponse(ErrorArg(answers.studentInsert), DataArg(answers.studentInsert))))
  }

  /** Request fields go to the tables unchecked: even an empty body is enrolled. */
  lemma NoPresenceCheck(users: map<Value, UserRow>, students: seq<StudentRow>, answers: RegisterAnswers, sha256: Value -> string)
    requires answers.lookup.Answered? && answers.studentInsert.Applied?
    ensures var empty := RegisterBody(Undefined, Undefined, Undefined, Undefined);
            Register(users, students, empty, answers, sha256).students == students + [EnrolmentOf(empty)]
  {
  }

  /** The route handler, applied to the tables in place. */
  method RegisterToCourse(db: Store, body: RegisterBody, answers: RegisterAnswers, sha256: Value -> string)
    returns (reply: Reply)
    modifies db
    ensures Outcome(db.users, db.students, reply) == Register(old(db.users), old(db.students), body, answers, sha256)
  {
    if answers.lookup.ReadFailed? {
      reply := Crashed;
      return;
    }
    if body.email !in db.users {
      var password := sha256(DefaultPassword);
      if answers.userInsert.Applied? {
        db.users := db.users[body.email := UserRow(password, StudentRole)];
      }
    }
    if answers.studentInsert.Applied? {
      db.students := db.students + [EnrolmentOf(body)];
    }
    reply := Sent(LegacyResponse.CreateResponse(ErrorArg(answers.studentInsert), DataArg(answers.studentInsert)));
  }

  /** The effect of the earlier `PUT /student/change-password` for the caller `email`. */
  function PasswordChange(users: map<Value, UserRow>, email: Value, newPassword: Value, confirmPassword: Value,
                          update: Write, sha256: Value -> string): (o: PasswordOutcome)
    ensures !StrictEquals(newPassword, confirmPassword) ==> o == PasswordOutcome(users, Str(PasswordMismatch))
    ensures StrictEquals(newPassword, confirmPassword) ==> o.reply == LegacyResponse.CreateResponse(ErrorArg(update), DataArg(update))
    ensures o.users.Keys == users.Keys
    ensures forall e :: e in users && e != email ==> o.users[e] == users[e]
    ensures email in users && StrictEquals(newPassword, confirmPassword) && update.Applied? ==>
      o.users[email] == users[email].(password := sha256(newPassword))
    ensures !(StrictEquals(newPassword, confirmPassword) && update.Applied?) ==> o.users == users
  {
    if !StrictEquals(newPassword, confirmPassword) then PasswordOutcome(users, Str(PasswordMismatch))
    else
      var users' := if update.Applied? && email in users then users[email := users[email].(password := sha256(newPassword))] else users;
      PasswordOutcome(users', LegacyResponse.CreateResponse(ErrorArg(update), DataArg(update)))
  }

  /** Two object or array passwords are distinct references, so they never match, and nothing changes. */
  lemma ObjectPasswordsMismatch(users: map<Value, UserRow>, email: Value, password: Value, update: Write,
                                sha256: Value -> string)
    requires password.Obj? || password.Arr?
    ensures PasswordChange(users, email, password, password, update, sha256) == PasswordOutcome(users, Str(PasswordMismatch))
  {
  }

  /** The route handler: the password update applied to the table in place. */
  method ChangePassword(db: Store, email: Value, newPassword: Value, confirmPassword: Value,
                        update: Write, sha256: Value -> string) returns (reply: Value)
    modifies db`users
    ensures PasswordOutcome(db.users, reply) == PasswordChange(old(db.users), email, newPassword, confirmPassword, update, sha256)
  {
    if !StrictEquals(newPassword, confirmPassword) {
      reply := Str(PasswordMismatch);
      return;
    }
    var hashedPassword := sha256(newPassword);
    if update.Applied? && email in db.users {
      db.users := db.users[email := db.users[email].(password := hashedPassword)];
    }
    reply := LegacyResponse.CreateResponse(ErrorArg(update), DataArg(update));
  }
}
