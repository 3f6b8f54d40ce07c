/**
 * The admission response the evaluator hands back. Its builders live in a
 * file that is not part of this model, so each builder the core calls is an
 * uninterpreted constructor carrying the uid it was given.
 */
module ValidationResponse {
  import opened Wrappers
  import Json
  import Sdk

  datatype ValidationResponse =
      /** `ValidationResponse::reject(uid, message, code)` */
    | Reject(uid: string, message: string, code: nat)
      /** `ValidationResponse::reject_internal_server_error(uid, message)` */
    | RejectInternalServerError(uid: string, message: string)
      /** A successful `ValidationResponse::from_policy_validation_response(uid, reqObject, response)` */
    | FromPolicyValidationResponse(uid: string, reqObject: Json.Value, response: Sdk.PolicyValidationResponse)
      /** A response written as a struct literal: `allowed` as given, `status` unset, all else default. */
    | Decision(uid: string, allowed: bool)

  /**
   * Whether `from_policy_validation_response` fails for these arguments, and
   * with which message; its logic is not part of this model.
   */
  type BuildFailure = (string, Json.Value, Sdk.PolicyValidationResponse) -> Option<string>

  /** `ValidationResponse::from_policy_validation_response`, with its failure decided by `fails`. */
  function FromPolicy(uid: string, reqObject: Json.Value, response: Sdk.PolicyValidationResponse, fails: BuildFailure)
    : (r: Result<ValidationResponse, string>)
    ensures r.Success? <==> fails(uid, reqObject, response).None?
    ensures r.Success? ==> r.value == FromPolicyValidationResponse(uid, reqObject, response)
    ensures r.Failure? ==> r.error == fails(uid, reqObject, response).value
  {
    match fails(uid, reqObject, response)
    case None => Success(FromPolicyValidationResponse(uid, reqObject, response))
    case Some(e) => Failure(e)
  }
}
