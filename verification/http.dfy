/**
  What the route handlers receive and answer, without the web plumbing:
  a JSON body field, the error outcomes with their HTTP status codes, and a
  result type.
 */
module Http {
  import opened Text

  /** A field of a parsed JSON body: absent (or null), a string, or some other
      JSON value, remembered only by its JavaScript truthiness. */
  datatype Field = Absent | Str(s: string) | Other(truthy: bool)

  /** `!!field` in JavaScript. */
  predicate Truthy(f: Field) {
    match f
    case Absent => false
    case Str(s) => s != ""
    case Other(t) => t
  }

  /** Passes the guard `!x || typeof x !== "string" || x.trim().length === 0`. */
  predicate IsNonBlankString(f: Field) {
    f.Str? && Trim(f.s) != ""
  }

  datatype Error =
    | FioRequired         // 400
    | LevelInvalid        // 400
    | IdeaRequired        // 400
    | TopicAlreadySet     // 400
    | FlowIsRandom        // 400
    | FlowIsOwn           // 400
    | IdeaTooShort        // 400
    | PendingSubmission   // 400
    | NoTopic             // 400
    | AlreadyCompleted    // 400
    | AccessDenied        // 403
    | UserNotFound        // 404
    | PoolExhausted       // 409
    | InternalError       // 500: an exception thrown inside the handler

  function StatusCode(e: Error): int {
    match e
    case AccessDenied => 403
    case UserNotFound => 404
    case PoolExhausted => 409
    case InternalError => 500
    case _ => 400
  }

  datatype Result<+T> = Ok(value: T) | Err(error: Error)
}
