/**
  `utils::result` of `src/utils.rs`: turns the outcome of an operation into
  the status line the UI shows. The success text `RESULT_SUCCESS` lives in
  `src/constants.rs`, which is not part of this model, so it is a parameter;
  `display` is the error type's `Display` rendering.
 */
module Utils {
  import opened Wrappers

  function StatusText<E>(result: Result<(), E>, msg: string, display: E -> string, success: string): (r: string)
    ensures result.Ok? ==> r == success
    ensures result.Err? ==> msg + ": " <= r && r[|msg| + 2..] == display(result.error)
  {
    match result
    case Ok(_) => success
    case Err(e) => msg + ": " + display(e)
  }

  /** A success ignores the message. */
  lemma OkIgnoresMessage<E>(msg1: string, msg2: string, display: E -> string, success: string)
    ensures StatusText(Ok(()), msg1, display, success) == StatusText(Ok(()), msg2, display, success)
  {
  }
}
