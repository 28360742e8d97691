/**
 * The reply envelope of the earlier server.  Its `status` assignment for the
 * error case is overwritten by the unconditional one that follows, so every
 * envelope reports "success"; an `error` field appears only when the error
 * argument is truthy, and `data` always carries the data argument.
 */
module LegacyResponse {
  import opened JsValue

  /** `createResponse(error, data)` as the earlier server writes it. */
  function CreateResponse(error: Value, data: Value): (r: Value)
    ensures r.Obj?
    ensures Get(r, "status") == Str("success")
    ensures Get(r, "data") == data
    ensures "error" in r.fields <==> Truthy(error)
    ensures Truthy(error) ==> r.fields.Keys == {"status", "error", "data"} && Get(r, "error") == error
    ensures !Truthy(error) ==> r.fields.Keys == {"status", "data"}
  {
    var res := map[];
    var res := if Truthy(error) then res["status" := Str("failure")]["error" := error] else res;
    var res := res["status" := Str("success")];
    Obj(res["data" := data])
  }

  /** Whatever the error, the envelope's status cannot tell a failure from a success. */
  lemma StatusIgnoresError(error1: Value, error2: Value, data: Value)
    ensures Get(CreateResponse(error1, data), "status") == Get(CreateResponse(error2, data), "status")
  {
  }
}
