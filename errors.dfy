/** `NewErrorResponse`: the JSON error body the handlers return. */
module Errors {

  datatype ErrorResponse = ErrorResponse(code: int, message: string, details: string)

  /** Code and message are copied; of the variadic details only the first is kept, and none gives "". */
  function NewErrorResponse(code: int, message: string, details: seq<string>): (r: ErrorResponse)
    ensures r.code == code && r.message == message
    ensures |details| > 0 ==> r.details == details[0]
    ensures details == [] ==> r.details == ""
  {
    if |details| > 0 then ErrorResponse(code, message, details[0])
    else ErrorResponse(code, message, "")
  }

  /** Details after the first never reach the response. */
  lemma LaterDetailsIgnored(code: int, message: string, first: string, rest: seq<string>)
    ensures NewErrorResponse(code, message, [first] + rest) == NewErrorResponse(code, message, [first])
  {
  }
}
