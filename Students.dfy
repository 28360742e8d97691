/**
 * The student routes of the current server that change the tables:
 * registration to a course and password change.
 *
 * Registration checks that all four fields are present, looks the e-mail up
 * in `users`, then either sets the existing user's role to 'student' or
 * creates the user with the hashed institutional default password, and
 * finally appends a `students` row.  Each step may fail; a failure after the
 * user step leaves the user change in place (there is no transaction).
 *
 * SHA-256 (FIPS 180-4) is the parameter `sha256`, giving the hex digest of a value.
 */
module Students {
  import opened JsValue
  import opened Tables
  import Response

  const DefaultPassword := Str("Sunbeam")
  const StudentRole := "student"
  const RegisteredMessage := "Student registered successfully"
  const PasswordMismatch := "Password not matched ...."

  /** The body of a registration request. */
  datatype RegisterBody = RegisterBody(courseId: Value, email: Value, name: Value, mobileNo: Value)

  /** The database's answers to the lookup, the user write and the student insert. */
  datatype RegisterAnswers = RegisterAnswers(lookup: Read, userWrite: Write, studentInsert: Write)

  /** Both tables after a request, and the reply sent. */
  datatype Outcome = Outcome(users: map<Value, UserRow>, students: seq<StudentRow>, reply: Value)

  /** The tables after a password change, and the reply sent. */
  datatype PasswordOutcome = PasswordOutcome(users: map<Value, UserRow>, reply: Value)

  /** The presence check: every field is truthy. */
  predicate AllPresent(body: RegisterBody) {
    Truthy(body.courseId) && Truthy(body.email) && Truthy(body.name) && Truthy(body.mobileNo)
  }

  /** The enrolment row a registration appends. */
  function EnrolmentOf(body: RegisterBody): StudentRow {
    StudentRow(body.name, body.email, body.courseId, body.mobileNo)
  }

  /** `createResponse(true, message)`: the message is dropped, `error` is `true`. */
  function Failed(message: string): (r: Value)
    ensures Get(r, "status") == Response.Failure && Get(r, "error") == Bool(true) && Get(r, "data") == Null
  {
    Response.CreateResponse(Bool(true), Str(message))
  }

  /** The user row once the user step has succeeded. */
  function UserAfter(users: map<Value, UserRow>, email: Value, sha256: Value -> string): (u: UserRow)
    ensures u.role == StudentRole
    ensures email in users ==> u.password == users[email].password
    ensures email !in users ==> u.password == sha256(DefaultPassword)
  {
    if email in users then users[email].(role := StudentRole) else UserRow(sha256(DefaultPassword), StudentRole)
  }

  /** The effect of `POST /student/register-to-course` on the tables, and its reply. */
  function Register(users: map<Value, UserRow>, students: seq<StudentRow>, body: RegisterBody,
                    answers: RegisterAnswers, sha256: Value -> string): (o: Outcome)
    ensures !AllPresent(body) ==> o == Outcome(users, students, Failed("All fields are required"))
    ensures AllPresent(body) && answers.lookup.ReadFailed? ==> o == Outcome(users, students, Failed("Database error"))
    ensures AllPresent(body) && answers.lookup.Answered? && answers.userWrite.WriteFailed? ==>
      o == Outcome(users, students, Failed(if body.email in users then "User update failed" else "User creation failed"))
    ensures AllPresent(body) && answers.lookup.Answered? && answers.userWrite.Applied? ==>
      o.users == users[body.email := UserAfter(users, body.email, sha256)]
    ensures AllPresent(body) && answers.lookup.Answered? && answers.userWrite.Applied? && answers.studentInsert.WriteFailed? ==>
      o.students == students && o.reply == Failed("Student registration failed")
    ensures Get(o.reply, "status") == Response.Success <==>
      AllPresent(body) && answers.lookup.Answered? && answers.userWrite.Applied? && answers.studentInsert.Applied?
    ensures Get(o.reply, "status") == Response.Success ==>
      o.students == students + [EnrolmentOf(body)] && o.reply == Response.CreateResponse(Bool(false), Str(RegisteredMessage))
      && Get(o.reply, "data") == Str(RegisteredMessage) && Get(o.reply, "error") == Null
    ensures Get(o.reply, "status") != Response.Success ==>
      o.students == students && Get(o.reply, "error") == Bool(true)
    ensures o.users.Keys <= users.Keys + {body.email}
    ensures forall e :: e in users ==> e in o.users && o.users[e].password == users[e].password
  {
    if !AllPresent(body) then Outcome(users, students, Failed("All fields are required"))
    else if answers.lookup.ReadFailed? then Outcome(users, students, Failed("Database error"))
    else if answers.userWrite.WriteFailed? then
      Outcome(users, students, Failed(if body.email in users then "User update failed" else "User creation failed"))
    else
      var users' := users[body.email := UserAfter(users, body.email, sha256)];
      if answers.studentInsert.WriteFailed? then Outcome(users', students, Failed("Student registration failed"))
      else Outcome(users', students + [EnrolmentOf(body)],
                   Response.CreateResponse(Bool(false), Str(RegisteredMessage)))
  }

  /** Registering an e-mail that is already a user adds no user, and a success adds one more enrolment. */
  lemma RegisterAgain(users: map<Value, UserRow>, students: seq<StudentRow>, first: RegisterBody, again: RegisterBody,
                      answers1: RegisterAnswers, answers2: RegisterAnswers, sha256: Value -> string)
    requires first.email == again.email
    requires Get(Register(users, students, first, answers1, sha256).reply, "status") == Response.Success
    ensures var o1 := Register(users, students, first, answers1, sha256);
            var o2 := Register(o1.users, o1.students, again, answers2, sha256);
            first.email in o1.users
            && o2.users.Keys == o1.users.Keys
            && o2.users[first.email].password == o1.users[first.email].password
            && (Get(o2.reply, "status") == Response.Success ==> |o2.students| == |students| + 2)
  {
  }

  /** The route handler: the same steps, applied to the tables in place. */
  method RegisterToCourse(db: Store, body: RegisterBody, answers: RegisterAnswers, sha256: Value -> string)
    returns (reply: Value)
    modifies db
    ensures Outcome(db.users, db.students, reply) == Register(old(db.users), old(db.students), body, answers, sha256)
  {
    if !Truthy(body.courseId) || !Truthy(body.email) || !Truthy(body.name) || !Truthy(body.mobileNo) {
      reply := Failed("All fields are required");
      return;
    }
    if answers.lookup.ReadFailed? {
      reply := Failed("Database error");
      return;
    }
    if body.email in db.users {
      if answers.userWrite.WriteFailed? {
        reply := Failed("User update failed");
        return;
      }
      db.users := db.users[body.email := db.users[body.email].(role := StudentRole)];
    } else {
      var password := sha256(DefaultPassword);
      if answers.userWrite.WriteFailed? {
        reply := Failed("User creation failed");
        return;
      }
      db.users := db.users[body.email := UserRow(password, StudentRole)];
    }
    reply := InsertStudent(db, body, answers.studentInsert);
  }

  /** The `insertStudent` step shared by both branches. */
  method InsertStudent(db: Store, body: RegisterBody, insert: Write) returns (reply: Value)
    modifies db`students
    ensures insert.WriteFailed? ==> db.students == old(db.students) && reply == Failed("Student registration failed")
    ensures insert.Applied? ==>
      db.students == old(db.students) + [EnrolmentOf(body)] && reply == Response.CreateResponse(Bool(false), Str(RegisteredMessage))
  {
    if insert.WriteFailed? {
      reply := Failed("Student registration failed");
      return;
    }
    db.students := db.students + [EnrolmentOf(body)];
    reply := Response.CreateResponse(Bool(false), Str(RegisteredMessage));
  }

  /** The effect of `PUT /student/change-password` for the caller `email`. */
  function PasswordChange(users: map<Value, UserRow>, email: Value, newPassword: Value, confirmPassword: Value,
                          update: Write, sha256: Value -> string): (o: PasswordOutcome)
    ensures !StrictEquals(newPassword, confirmPassword) ==> o == PasswordOutcome(users, Str(PasswordMismatch))
    ensures StrictEquals(newPassword, confirmPassword) ==> o.reply == Response.CreateResponse(ErrorArg(update), DataArg(update))
    ensures o.users.Keys == users.Keys
    ensures forall e :: e in users && e != email ==> o.users[e] == users[e]
    ensures email in users && StrictEquals(newPassword, confirmPassword) && update.Applied? ==>
      o.users[email] == users[email].(password := sha256(newPassword))
    ensures !(StrictEquals(newPassword, confirmPassword) && update.Applied?) ==> o.users == users
  {
    if !StrictEquals(newPassword, confirmPassword) then PasswordOutcome(users, Str(PasswordMismatch))
    else
      var users' := if update.Applied? && email in users then users[email := users[email].(password := sha256(newPassword))] else users;
      PasswordOutcome(users', Response.CreateResponse(ErrorArg(update), DataArg(update)))
  }

  /** Two object or array passwords are distinct references, so they never match, and nothing changes. */
  lemma ObjectPasswordsMismatch(users: map<Value, UserRow>, email: Value, password: Value, update: Write,
                                sha256: Value -> string)
    requires password.Obj? || password.Arr?
    ensures PasswordChange(users, email, password, password, update, sha256) == PasswordOutcome(users, Str(PasswordMismatch))
  {
  }

  /** The route handler: the password update applied to the table in place. */
  method ChangePassword(db: Store, email: Value, newPassword: Value, confirmPassword: Value,
                        update: Write, sha256: Value -> string) returns (reply: Value)
    modifies db`users
    ensures PasswordOutcome(db.users, reply) == PasswordChange(old(db.users), email, newPassword, confirmPassword, update, sha256)
  {
    if !StrictEquals(newPassword, confirmPassword) {
      reply := Str(PasswordMismatch);
      return;
    }
    var hashedPassword := sha256(newPassword);
    if update.Applied? && email in db.users {
      db.users := db.users[email := db.users[email].(password := hashedPassword)];
    }
    reply := Response.CreateResponse(ErrorArg(update), DataArg(update));
  }
}
