/** Failure-compatible wrappers shared by every module of the model. */
module Wrappers {

  /** A value that may be absent: TypeScript's `T | null` or an optional field. */
  datatype Option<+T> = None | Some(value: T) {

    /** The value, or `default` when there is none. */
    function GetOr(default: T): T {
      if Some? then value else default
    }
  }

  /** The outcome of an operation that returns a value or throws. */
  datatype Result<+T, +E> = Ok(value: T) | Err(error: E)

  /** The outcome of an operation that returns nothing (`Promise<void>`) or throws. */
  datatype Outcome<+E> = Pass | Fail(error: E)
}

/** The exceptions the two services throw, as NestJS reports them to the client. */
module Exceptions {

  datatype Exception =
    | BadRequest(message: string)    // BadRequestException, HTTP 400
    | Unauthorized(message: string)  // UnauthorizedException, HTTP 401
    | NotFound(message: string)      // NotFoundException, HTTP 404
    | QueryFailed(reason: string)    // an error raised by the database, not by the services
}
