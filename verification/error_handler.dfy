/** src/middleware/errorHandler.js: the JSON reply every error passed to
    `next(err)` ends up as. */
module ErrorHandler {
  import opened Wrappers
  import opened Errors

  const Production: string := "production"
  const InternalServerError: string := "Internal Server Error"

  /** Status, `message`, and `stack` (present only outside production). */
  datatype Reply = Reply(status: int, message: string, stack: Option<string>)

  /** `err.statusCode || 500`: an absent or zero status is 500. */
  function DefaultStatus(err: Error): (s: int)
    ensures s == 500 <==> err.statusCode.None? || err.statusCode.value == 0 || err.statusCode.value == 500
    ensures err.statusCode.Some? && err.statusCode.value != 0 ==> s == err.statusCode.value
  {
    if err.statusCode.Some? && err.statusCode.value != 0 then err.statusCode.value else 500
  }

  /** `err.message || 'Internal Server Error'`. */
  function DefaultMessage(err: Error): (m: string)
    ensures m != []
    ensures err.message != [] ==> m == err.message
  {
    if err.message != [] then err.message else InternalServerError
  }

  /** The reply before the production rule: known codes and names first,
      in the handler's order. */
  function Classify(err: Error): (r: (int, string)) {
    if err.code == Some("23505") then (409, "Resource already exists")
    else if err.code == Some("ECONNREFUSED") then (503, "Service temporarily unavailable")
    else if err.name == "ValidationError" then (400, err.message)
    else if err.name == "CastError" then (400, "Invalid data format")
    else (DefaultStatus(err), DefaultMessage(err))
  }

  function HandleError(err: Error, env: string): (r: Reply)
    ensures err.code == Some("23505") ==> r.status == 409 && r.message == "Resource already exists"
    ensures err.code == Some("ECONNREFUSED") ==> r.status == 503 && r.message == "Service temporarily unavailable"
    ensures err.code != Some("23505") && err.code != Some("ECONNREFUSED") ==>
      (err.name == "ValidationError" ==> r.status == 400 && r.message == err.message) &&
      (err.name == "CastError" ==> r.status == 400 && r.message == "Invalid data format")
    // A 500 in production never carries the error's own words.
    ensures env == Production && r.status == 500 ==> r.message == InternalServerError
    ensures r.stack == if env == Production then None else err.stack
    // Outside the classified cases the error's own status and message are kept.
    ensures err.code != Some("23505") && err.code != Some("ECONNREFUSED") &&
            err.name != "ValidationError" && err.name != "CastError" ==>
      r.status == DefaultStatus(err) &&
      r.message == (if env == Production && r.status == 500 then InternalServerError else DefaultMessage(err))
  {
    var (status, message) := Classify(err);
    Reply(status, if env == Production && status == 500 then InternalServerError else message,
          if env != Production then err.stack else None)
  }

  /** What each error the resolution core raises turns into: store
      outages are 503, duplicate codes 409, and the service's own plain
      errors are 500s whose message shows outside production only. */
  lemma CoreErrorReplies(env: string)
    ensures HandleError(ConnectionRefused, env).status == 503
    ensures HandleError(UniqueViolation, env).status == 409
    ensures HandleError(CustomCodeTaken, env).status == 500
    ensures HandleError(GenerationExhausted, env).status == 500
    ensures env != Production ==>
      HandleError(CustomCodeTaken, env).message == "Custom short code already exists" &&
      HandleError(GenerationExhausted, env).message == "Unable to generate unique short code"
    ensures env == Production ==>
      HandleError(CustomCodeTaken, env).message == InternalServerError &&
      HandleError(GenerationExhausted, env).message == InternalServerError
  {
    assert "Error" != "ValidationError" && "Error" != "CastError";
    assert CustomCodeTaken.code == None && GenerationExhausted.code == None;
  }

  /** Any plain `new Error(message)` is a 500 (the message shows only
      outside production), whatever its text. */
  lemma ThrownIsInternal(message: string, env: string)
    ensures HandleError(Thrown(message), env).status == 500
    ensures HandleError(Thrown(message), env).message ==
      if env == Production || message == [] then InternalServerError else message
  {
    assert "Error" != "ValidationError" && "Error" != "CastError";
  }
}
