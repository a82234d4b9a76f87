/** Optional values, the errors the HTTP handlers raise, and results carrying either. */
module Outcomes {

  /** A value that may be missing, as a JavaScript `undefined` or `null` field is. */
  datatype Option<+T> = None | Some(value: T) {

    /** The value, or `default` when missing (JavaScript's `x || default` on a non-falsy domain). */
    function GetOr(default: T): T {
      if Some? then value else default
    }
  }

  /** A string field that JavaScript treats as truthy: present and non-empty. */
  predicate IsSet(o: Option<string>) {
    o.Some? && o.value != ""
  }

  /** Every error a handler catches and turns into status 500 with `{error}`. */
  datatype Error =
    | BlobNameRequired         // "blobName is required"
    | TextRequired             // "text is required"
    | RatingOutOfRange         // "rating must be 1..5"
    | ConnectionStringMissing  // "AZURE_STORAGE_CONNECTION_STRING missing."
    | InvalidConnectionString  // "Invalid storage connection string; AccountName/AccountKey missing."
    | MalformedDocument        // the SyntaxError `JSON.parse` throws on a stored document
    | NotAnObject              // the TypeError of reading a field of `undefined`

  /** The message text of errors the handlers throw themselves; engine errors carry engine text. */
  function Message(e: Error): Option<string> {
    match e
    case BlobNameRequired => Some("blobName is required")
    case TextRequired => Some("text is required")
    case RatingOutOfRange => Some("rating must be 1..5")
    case ConnectionStringMissing => Some("AZURE_STORAGE_CONNECTION_STRING missing.")
    case InvalidConnectionString =>
      Some("Invalid storage connection string; AccountName/AccountKey missing.")
    case MalformedDocument => None
    case NotAnObject => None
  }

  /** The outcome of an operation that can throw. */
  datatype Result<+T> = Success(value: T) | Failure(error: Error) {

    predicate IsFailure() {
      Failure?
    }

    function PropagateFailure<U>(): Result<U>
      requires Failure?
    {
      Failure(error)
    }

    function Extract(): T
      requires Success?
    {
      value
    }
  }
}
