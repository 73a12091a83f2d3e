/**
  The error middleware: how a thrown error becomes an HTTP status and a JSON
  body, the 404 error raised for unknown routes, and the defaults of the
  application's own error class.
*/
module ErrorHandler {
  import opened Js

  /** The fields of a thrown error the handler reads. `statusCode` and
      `status` are `None` when absent; `errors` is `Some` only when it is an
      array, whose elements are passed through as they are. */
  datatype Error = Error(
    name: string,
    message: string,
    code: Option<string>,
    statusCode: Option<int>,
    status: Option<int>,
    errors: Option<seq<string>>,
    stack: Option<string>)

  /** The `error` block added in development. */
  datatype Debug = Debug(name: string, stack: Option<string>, code: Option<string>)

  /** The JSON body sent back. */
  datatype ErrorResponse = ErrorResponse(
    success: bool,
    message: string,
    error: Option<Debug>,
    errors: Option<seq<string>>)

  /** `n || fallback` for a number that may be absent: zero is falsy too. */
  function OrElse(n: Option<int>, fallback: int): int {
    if n.Some? && n.value != 0 then n.value else fallback
  }

  /** `err.statusCode || err.status || 500` */
  function DefaultStatus(err: Error): (s: int)
    ensures s != 0
  {
    OrElse(err.statusCode, OrElse(err.status, 500))
  }

  /** `err.message || "Internal server error"` */
  function DefaultMessage(err: Error): (m: string)
    ensures m != ""
  {
    if err.message != "" then err.message else "Internal server error"
  }

  /** The status and message chosen for `err`: the recognised names and
      Prisma codes are tried in order and the first that matches wins;
      otherwise the error's own status and message are used. */
  function Classify(err: Error): (r: (int, string))
    ensures r.1 != ""
  {
    if err.name == "ValidationError" then (400, "Validation error")
    else if err.name == "UnauthorizedError" || err.name == "JsonWebTokenError" then (401, "Unauthorized access")
    else if err.name == "TokenExpiredError" then (401, "Token expired")
    else if err.code == Some("P2002") then (409, "Resource already exists")
    else if err.code == Some("P2025") then (404, "Resource not found")
    else if err.name == "PrismaClientKnownRequestError" then (400, "Database operation failed")
    else (DefaultStatus(err), DefaultMessage(err))
  }

  /** A line of the classification table: an error name or a Prisma error code,
      with the status and message it maps to. */
  datatype Rule = ByName(name: string, status: int, message: string) | ByCode(code: string, status: int, message: string)

  predicate Matches(rule: Rule, err: Error) {
    match rule
    case ByName(n, _, _) => err.name == n
    case ByCode(c, _, _) => err.code == Some(c)
  }

  /** The table the handler implements, in priority order. */
  const Rules: seq<Rule> := [
    ByName("ValidationError", 400, "Validation error"),
    ByName("UnauthorizedError", 401, "Unauthorized access"),
    ByName("JsonWebTokenError", 401, "Unauthorized access"),
    ByName("TokenExpiredError", 401, "Token expired"),
    ByCode("P2002", 409, "Resource already exists"),
    ByCode("P2025", 404, "Resource not found"),
    ByName("PrismaClientKnownRequestError", 400, "Database operation failed")
  ]

  /** The first rule of the table that matches. */
  function FirstMatch(rules: seq<Rule>, err: Error): (r: Option<Rule>)
    ensures r.Some? ==> r.value in rules && Matches(r.value, err)
    ensures r.None? ==> forall rule | rule in rules :: !Matches(rule, err)
  {
    if rules == [] then None
    else if Matches(rules[0], err) then Some(rules[0])
    else FirstMatch(rules[1..], err)
  }

  /** The table read line by line: the first matching line, if any. */
  lemma UnrollRules(err: Error)
    ensures FirstMatch(Rules, err) ==
      if Matches(Rules[0], err) then Some(Rules[0])
      else if Matches(Rules[1], err) then Some(Rules[1])
      else if Matches(Rules[2], err) then Some(Rules[2])
      else if Matches(Rules[3], err) then Some(Rules[3])
      else if Matches(Rules[4], err) then Some(Rules[4])
      else if Matches(Rules[5], err) then Some(Rules[5])
      else if Matches(Rules[6], err) then Some(Rules[6])
      else None
  {
    var t1, t2, t3 := Rules[1..], Rules[2..], Rules[3..];
    assert t1[1..] == t2 && t2[1..] == t3;
    UnrollLowerRules(err);
    assert FirstMatch(t2, err) == if Matches(t2[0], err) then Some(t2[0]) else FirstMatch(t3, err);
    assert FirstMatch(t1, err) == if Matches(t1[0], err) then Some(t1[0]) else FirstMatch(t2, err);
  }

  lemma UnrollLowerRules(err: Error)
    ensures FirstMatch(Rules[3..], err) ==
      if Matches(Rules[3], err) then Some(Rules[3])
      else if Matches(Rules[4], err) then Some(Rules[4])
      else if Matches(Rules[5], err) then Some(Rules[5])
      else if Matches(Rules[6], err) then Some(Rules[6])
      else None
  {
    var t3, t4, t5, t6 := Rules[3..], Rules[4..], Rules[5..], Rules[6..];
    assert t3[1..] == t4 && t4[1..] == t5 && t5[1..] == t6 && t6[1..] == [];
    assert FirstMatch(t6, err) == if Matches(t6[0], err) then Some(t6[0]) else None;
    assert FirstMatch(t5, err) == if Matches(t5[0], err) then Some(t5[0]) else FirstMatch(t6, err);
    assert FirstMatch(t4, err) == if Matches(t4[0], err) then Some(t4[0]) else FirstMatch(t5, err);
  }

  /** The status and message the table gives `err`, or the error's own. */
  function TableAnswer(err: Error): (int, string) {
    match FirstMatch(Rules, err)
    case Some(rule) => (rule.status, rule.message)
    case None => (DefaultStatus(err), DefaultMessage(err))
  }

  /** The handler's chain of tests is the table read top to bottom: the first
      matching line decides, and the error's own status and message apply when
      none matches. */
  lemma ClassifyIsTable(err: Error)
    ensures Classify(err) == TableAnswer(err)
  {
    UnrollRules(err);
    if err.name == "ValidationError" {
    } else if err.name == "UnauthorizedError" {
    } else if err.name == "JsonWebTokenError" {
    } else if err.name == "TokenExpiredError" {
    } else if err.code == Some("P2002") {
    } else if err.code == Some("P2025") {
    } else if err.name == "PrismaClientKnownRequestError" {
    } else {
    }
  }

  /** Every error some line of the table recognises is answered with a
      client error. */
  lemma RecognisedIsClientError(err: Error)
    requires exists i | 0 <= i < |Rules| :: Matches(Rules[i], err)
    ensures 400 <= Classify(err).0 < 500
  {
    ClassifyIsTable(err);
    UnrollRules(err);
  }

  /** A recognised name wins over a Prisma code: a validation error carrying
      code P2002 is still a 400. */
  lemma NameBeatsCode(err: Error)
    requires err.name == "ValidationError" && err.code == Some("P2002")
    ensures Classify(err) == (400, "Validation error")
  {
    ClassifyIsTable(err);
  }

  /** `errorHandler(err, req, res, next)` with `config.nodeEnv` as `nodeEnv`:
      the status and the body sent. The body never reports success; it carries
      the debug block only in development and the validation errors only when
      they are an array. */
  function HandleError(err: Error, nodeEnv: string): (r: (int, ErrorResponse))
    ensures r.0 == Classify(err).0 && r.1.message == Classify(err).1
    ensures !r.1.success
    ensures r.1.error.Some? <==> nodeEnv == "development"
    ensures r.1.error.Some? ==> r.1.error.value == Debug(err.name, err.stack, err.code)
    ensures r.1.errors == err.errors
  {
    var (statusCode, message) := Classify(err);
    var debug := if nodeEnv == "development" then Some(Debug(err.name, err.stack, err.code)) else None;
    (statusCode, ErrorResponse(false, message, debug, err.errors))
  }

  // ---------------------------------------------------------------------------
  // notFoundHandler and AppError
  // ---------------------------------------------------------------------------

  /** The error `notFoundHandler` passes on for the URL `originalUrl`. */
  function NotFoundError(originalUrl: string): (err: Error)
    ensures err.statusCode == Some(404)
    ensures err.message == "Route not found - " + originalUrl
  {
    Error("Error", "Route not found - " + originalUrl, None, Some(404), None, None, None)
  }

  /** An unknown route is answered with 404 and a message naming it. */
  lemma NotFoundIs404(originalUrl: string, nodeEnv: string)
    ensures HandleError(NotFoundError(originalUrl), nodeEnv).0 == 404
    ensures HandleError(NotFoundError(originalUrl), nodeEnv).1.message == "Route not found - " + originalUrl
  {
  }

  /** `new AppError(message, statusCode, errors)`, `None` standing for an
      omitted status code (500 by default) and for `errors` left `null`. */
  function NewAppError(message: string, statusCode: Option<int>, errors: Option<seq<string>>): (err: Error)
    ensures err.name == "AppError" && err.message == message && err.errors == errors
    ensures err.statusCode == Some(if statusCode.Some? then statusCode.value else 500)
  {
    var code := if statusCode.Some? then statusCode.value else 500;
    Error("AppError", message, None, Some(code), None, errors, None)
  }

  /** An application error is answered with its own status, 500 when none was
      given or when it was 0, and with its own message unless that is empty. */
  lemma AppErrorAnswer(message: string, statusCode: Option<int>, errors: Option<seq<string>>, nodeEnv: string)
    ensures var r := HandleError(NewAppError(message, statusCode, errors), nodeEnv);
      && r.0 == (if statusCode.Some? && statusCode.value != 0 then statusCode.value else 500)
      && r.1.message == (if message != "" then message else "Internal server error")
      && r.1.errors == errors
  {
    ClassifyIsTable(NewAppError(message, statusCode, errors));
  }
}
