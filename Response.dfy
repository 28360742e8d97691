/**
 * The reply envelope of the current server: every route answers with
 * `{status, data, error}`, where `status` is "failure" when an error was
 * given and "success" otherwise.
 */
module Response {
  import opened JsValue

  const Success := Str("success")
  const Failure := Str("failure")

  /** `createResponse(error, data)`. */
  function CreateResponse(error: Value, data: Value): (r: Value)
    ensures r.Obj? && r.fields.Keys == {"status", "data", "error"}
    ensures Truthy(error) ==>
      Get(r, "status") == Failure && Get(r, "error") == error && Get(r, "data") == Null
    ensures !Truthy(error) ==>
      Get(r, "status") == Success && Get(r, "data") == data && Get(r, "error") == Null
    ensures Get(r, "status") == Success <==> !Truthy(error)
  {
    if Truthy(error) then
      Obj(map["status" := Failure, "error" := error, "data" := Null])
    else
      Obj(map["status" := Success, "data" := data, "error" := Null])
  }

  /** A failure envelope does not depend on the data argument: messages passed as data are lost. */
  lemma FailureDropsData(error: Value, data1: Value, data2: Value)
    requires Truthy(error)
    ensures CreateResponse(error, data1) == CreateResponse(error, data2)
  {
  }
}
