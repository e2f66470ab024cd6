/** The shape of a JavaScript error as the error middleware reads it, and
    the errors the core itself raises. */
module Errors {
  import opened Wrappers

  /** `name`, `message`, `code`, `statusCode` and `stack` are the properties
      the error middleware consults; a missing property is `None`. */
  datatype Error = Error(
    name: string,
    message: string,
    code: Option<string>,
    statusCode: Option<int>,
    stack: Option<string>)

  /** `new Error(message)`: no code, no status, a stack that starts with the
      message (the call frames are not modelled). */
  function Thrown(message: string): (e: Error)
    ensures e.name == "Error" && e.message == message
    ensures e.code == None && e.statusCode == None
  {
    Error("Error", message, None, None, Some("Error: " + message))
  }

  /** A driver error that carries a machine-readable `code`. */
  function WithCode(name: string, message: string, code: string): Error {
    Error(name, message, Some(code), None, Some(name + ": " + message))
  }

  /** What every query raises while the database cannot be reached. */
  const ConnectionRefused: Error := WithCode("Error", "connect ECONNREFUSED", "ECONNREFUSED")

  /** PostgreSQL `unique_violation` on `urls.short_code`. */
  const UniqueViolation: Error :=
    WithCode("error", "duplicate key value violates unique constraint", "23505")

  /** PostgreSQL `invalid_row_count_in_limit_clause`. */
  const NegativeLimit: Error := WithCode("error", "LIMIT must not be negative", "2201W")

  /** PostgreSQL `invalid_row_count_in_result_offset_clause`. */
  const NegativeOffset: Error := WithCode("error", "OFFSET must not be negative", "2201X")

  /** Raised by `createShortUrl` when a custom code has a live record. */
  const CustomCodeTaken: Error := Thrown("Custom short code already exists")

  /** Raised by `createShortUrl` when ten generated codes all had live records. */
  const GenerationExhausted: Error := Thrown("Unable to generate unique short code")
}
