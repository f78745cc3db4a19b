/** Shapes shared by the handlers: optional values, results, the errors the
    backend SDK and `fetch` hand back, and the toast notifications the UI shows. */
module Common {

  datatype Option<+T> = None | Some(value: T)

  datatype Result<+T, +E> = Ok(value: T) | Err(error: E)

  /** An error value as a `catch` block sees it: the SDK's `code` (error codes
      such as "23505" or "PGRST116"), its `message`, and whether the value is an
      instance of JavaScript's `Error` class (a `new Error(...)` always is; an SDK
      error object may or may not be, depending on the SDK release). */
  datatype Fault = Fault(code: Option<string>, message: string, isErrorInstance: bool)

  /** The database's unique-violation code, which both the story insert and
      the username update translate into a message of their own. */
  const UniqueCode: string := "23505"

  /** `new Error(message)`. */
  function ErrorWith(message: string): (f: Fault)
    ensures f.isErrorInstance && f.message == message && f.code == None
  {
    Fault(None, message, true)
  }

  /** `error instanceof Error ? error.message : fallback`. */
  function ShownMessage(f: Fault, fallback: string): (m: string)
    ensures f.isErrorInstance ==> m == f.message
    ensures !f.isErrorInstance ==> m == fallback
  {
    if f.isErrorInstance then f.message else fallback
  }

  /** A `toast.success` / `toast.error` notification, or none. */
  datatype Toast = Silent | Success(text: string) | Error(text: string)
}
