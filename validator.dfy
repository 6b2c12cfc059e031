/**
 * The uniform result envelope of src/utils/validator.ts.
 *
 * `ServiceResponse<T>` is a tagged union over its `success` flag: both variants
 * carry `data`, and only the failure variant carries `error`.  The sum type makes
 * "a success with an error field" unrepresentable.
 */
module Validator {

  datatype ServiceResponse<T> =
    | SuccessResponse(data: T)
    | ErrorResponse(error: string, data: T)
  {
    /** The `success` discriminant of the source's object literals. */
    predicate Success() {
      SuccessResponse?
    }
  }

  /** `createSuccessResponse(data)`: a success carrying `data` and no error. */
  function CreateSuccessResponse<T>(data: T): (r: ServiceResponse<T>)
    ensures r.Success() && r.data == data
    ensures !r.ErrorResponse?
  {
    SuccessResponse(data)
  }

  /** `createErrorResponse(error, data)`: a failure carrying both the message and the payload. */
  function CreateErrorResponse<T>(error: string, data: T): (r: ServiceResponse<T>)
    ensures !r.Success() && r.ErrorResponse?
    ensures r.error == error && r.data == data
  {
    ErrorResponse(error, data)
  }

  /**
   * `createErrorResponse(error)` with `data` omitted: the payload defaults to
   * `false`, so the response is one over booleans.
   */
  function CreateErrorResponseWithoutData(error: string): (r: ServiceResponse<bool>)
    ensures !r.Success() && r.ErrorResponse? && r.error == error
    ensures r.data == false
  {
    CreateErrorResponse(error, false)
  }

  /** The argument of `isSuccess`: either a response or a plain boolean. */
  datatype ResponseOrBool<T> =
    | Response(response: ServiceResponse<T>)
    | Bool(value: bool)

  /**
   * `isSuccess(result)`.  Its contract is the type predicate the source declares:
   * the answer is true exactly when the argument is the boolean `true` or a
   * response of the success variant (one without an `error` field).
   */
  predicate IsSuccess<T>(result: ResponseOrBool<T>): (ok: bool)
    ensures ok <==> result == Bool(true) || (result.Response? && result.response.SuccessResponse?)
  {
    match result
    case Bool(b) => b
    case Response(r) => r.Success()
  }

  /** A boolean argument comes back unchanged. */
  lemma IsSuccessOfBool<T>(b: bool)
    ensures IsSuccess(ResponseOrBool<T>.Bool(b)) == b
  {
  }

  /** A response argument reduces to exactly its `success` flag. */
  lemma IsSuccessOfResponse<T>(r: ServiceResponse<T>)
    ensures IsSuccess(Response(r)) == r.Success()
  {
  }

  /** The constructors compose with `isSuccess`: successes pass, errors never do. */
  lemma IsSuccessOfConstructors<T>(data: T, error: string)
    ensures IsSuccess(Response(CreateSuccessResponse(data)))
    ensures !IsSuccess(Response(CreateErrorResponse(error, data)))
    ensures !IsSuccess(Response(CreateErrorResponseWithoutData(error)))
  {
  }

  /**
   * Every response has `data`, and carries an `error` exactly when its
   * `success` flag is false.
   */
  lemma ResponseShape<T>(r: ServiceResponse<T>)
    ensures r.Success() <==> r.SuccessResponse?
    ensures !r.Success() <==> r.ErrorResponse?
    ensures r == if r.Success() then CreateSuccessResponse(r.data) else CreateErrorResponse(r.error, r.data)
  {
  }
}
