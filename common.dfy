/** Values shared by every part of the user service: optional values and the
    outcomes of a request handler, with the exceptions that can end one. */
module Common {

  /** A JavaScript value that may be `undefined` (or `null`). */
  datatype Option<+T> = None | Some(value: T) {
    function GetOr(default: T): T {
      match this
      case Some(v) => v
      case None => default
    }
  }

  /** The ways a handler of the service can end without a response body. */
  datatype Failure =
      /** an `ApiError(status, message)` thrown by the service's own code */
    | ApiError(status: int, message: string)
      /** a Mongoose validation error: the required paths that failed, in schema order */
    | ValidationError(paths: seq<Path>)
      /** a write rejected by a unique index, naming the offending path */
    | DuplicateKey(path: string)
      /** any other exception thrown by the runtime or a library (its `message`) */
    | Thrown(message: string)
  {
    /** The `message` property of the thrown error object. */
    function Message(): string {
      match this
      case ApiError(_, m) => m
      case ValidationError(_) => "User validation failed"
      case DuplicateKey(_) => "E11000 duplicate key error"
      case Thrown(m) => m
    }
  }

  /** The paths of the user schema, as validation errors and the
      modified-paths set of a document name them. */
  datatype Path = Username | Email | FullName | Avatar | CoverImage | Password | RefreshTokens

  /** The position of a path in the schema declaration. */
  function SchemaOrder(p: Path): nat {
    match p
    case Username => 0
    case Email => 1
    case FullName => 2
    case Avatar => 3
    case CoverImage => 4
    case Password => 5
    case RefreshTokens => 6
  }

  datatype Result<+T> = Ok(value: T) | Err(failure: Failure)
}
