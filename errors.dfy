/** The error kinds every fallible operation of the core reports. */
module Errors {

  datatype Error =
    | ParsingFailed(reason: string)
    | VersionNotFound(reason: string)
    | VersionNotIncreasing(reason: string)
    | IoError(reason: string)

  datatype Result<T> = Ok(value: T) | Err(error: Error)
}
