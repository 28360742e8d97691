/**
 * The two tables the student routes write: `users`, keyed by e-mail, and the
 * `students` enrolment rows in insertion order.  What the database answers
 * to each statement (success with a result object, or an error) is supplied
 * by the caller, so every failure path can be reached.
 */
module Tables {
  import opened JsValue

  /** A `users` row apart from its key, the e-mail. */
  datatype UserRow = UserRow(password: string, role: string)

  /** A `students` row: (name, email, course_id, mobile_no). */
  datatype StudentRow = StudentRow(name: Value, email: Value, courseId: Value, mobileNo: Value)

  /** The answer to a SELECT: the rows come from the tables themselves. */
  datatype Read = Answered | ReadFailed(code: string)

  /** The answer to an INSERT or UPDATE: the driver's result object, or an error. */
  datatype Write = Applied(info: Value) | WriteFailed(code: string)

  /** The `error` argument a query callback receives. */
  function ErrorArg(w: Write): (e: Value)
    ensures Truthy(e) <==> w.WriteFailed?
  {
    match w
    case Applied(_) => Null
    case WriteFailed(code) => DbError(code)
  }

  /** The `data` argument a query callback receives. */
  function DataArg(w: Write): Value {
    match w
    case Applied(info) => info
    case WriteFailed(_) => Undefined
  }

  /** The state of both tables. */
  class Store {
    var users: map<Value, UserRow>
    var students: seq<StudentRow>

    constructor (users: map<Value, UserRow>, students: seq<StudentRow>)
      ensures this.users == users && this.students == students
    {
      this.users := users;
      this.students := students;
    }
  }
}
