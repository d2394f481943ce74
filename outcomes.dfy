/** Success and failure values shared by every module, and the `error_if`
    helper through which the tools leave the process.

    Python's `sys.exit(status)` becomes the failure `SystemExit`, carrying the
    exit status and the text written to standard error beforehand; the
    exceptions the tools let escape become the other failures. */
module Outcomes {

  datatype Option<+T> = None | Some(value: T)

  datatype Failure =
    | SystemExit(code: int, message: string)  // `sys.exit(code)`, after `message` went to stderr ("" prints nothing)
    | ConfigNotFound                           // `ConfigNotFoundException`
    | ValueError                               // `int(...)` of a string that is not an integer
    | JiraError                                // a `JIRAError` raised by the client and not caught

  datatype Result<+T> = Ok(value: T) | Err(error: Failure)

  /** The kinds of value the tools hand to `error_if` as its `check`:
      a boolean, an integer, or a list (of which only the length matters). */
  datatype Check = Flag(b: bool) | Number(n: int) | Items(count: nat)

  /** Python truthiness of a check value. */
  predicate Truthy(c: Check) {
    match c
    case Flag(b) => b
    case Number(n) => n != 0
    case Items(count) => count != 0
  }

  /** The process status `sys.exit(v)` produces for a truthy value `v`:
      `True` is the integer 1, an integer is itself, and any other object
      is printed and gives status 1. */
  function ExitStatus(c: Check): (code: int)
    requires Truthy(c)
    ensures code != 0
  {
    match c
    case Flag(_) => 1
    case Number(n) => n
    case Items(_) => 1
  }

  /** `error_if(check, status, message)`: leave the process when `check` is
      truthy, with `status` if one was given and it is not 0, and otherwise
      with the status `sys.exit` makes of `check` itself. `message` is the
      text after its `{}` placeholder has been filled in with `check`. */
  function ErrorIf(check: Check, status: Option<int>, message: string): (r: Option<Failure>)
    ensures r.Some? <==> Truthy(check)
    ensures r.Some? ==> r.value.SystemExit? && r.value.message == message
    ensures r.Some? && status.Some? && status.value != 0 ==> r.value.code == status.value
    ensures r.Some? && (status.None? || status == Some(0)) ==> r.value.code == ExitStatus(check)
    // whatever the arguments, error_if never ends the process with the success status
    ensures r.Some? ==> r.value.code != 0
  {
    if !Truthy(check) then None
    else
      var code := if status.Some? && status.value != 0 then status.value else ExitStatus(check);
      Some(SystemExit(code, message))
  }
}
