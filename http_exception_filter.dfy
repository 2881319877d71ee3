/**
 * AllExceptionsFilter: turns any exception into the JSON error reply and the
 * log entry. The logger call and `response.status(..).json(..)` are replaced by
 * the returned record; the clock reading is a parameter.
 */
module HttpExceptionFilter {
  import opened Wrappers
  import opened JsonValues
  import opened HttpErrors
  import LoggingInterceptor

  const INTERNAL_ERROR_MESSAGE: string := "Internal server error"

  /** The parts of the Express request the filter reads. */
  datatype RequestInfo = RequestInfo(url: string, verb: string, body: Json)

  /** `errorResponse`: the body sent to the client. */
  datatype ErrorResponse = ErrorResponse(statusCode: int, timestamp: string, path: string, verb: string, message: Json)

  /** The log entry: the reply spread in, the stack of an Error, and the request body. */
  datatype ExceptionLog = ExceptionLog(response: ErrorResponse, stack: Option<string>, body: Json)

  /** The HTTP status and JSON body sent. */
  datatype Reply = Reply(status: int, body: ErrorResponse)

  datatype Filtered = Filtered(reply: Reply, log: ExceptionLog)

  /** `exception.getStatus()` for an HttpException, 500 for anything else. */
  function StatusOf(e: Exception): (s: int)
    ensures e.HttpException? ==> s == e.status
    ensures !e.HttpException? ==> s == 500
  {
    if e.HttpException? then e.status else 500
  }

  /**
   * The message rule: a string is used verbatim; an object is replaced by its
   * `message` property when that is truthy, and is used whole otherwise.
   */
  function MessageOf(e: Exception): (m: Json)
    ensures !e.HttpException? ==> m == JStr(INTERNAL_ERROR_MESSAGE)
    ensures e.HttpException? && e.response.RString? ==> m == JStr(e.response.text)
    ensures e.HttpException? && e.response.RObject? ==>
      m == (if Truthy(Property(JObj(e.response.fields), "message")) then e.response.fields["message"]
            else JObj(e.response.fields))
  {
    if !e.HttpException? then JStr(INTERNAL_ERROR_MESSAGE)
    else match e.response
      case RString(text) => JStr(text)
      case RObject(fields) =>
        var inner := Property(JObj(fields), "message");
        if Truthy(inner) then inner else JObj(fields)
  }

  /** `exception instanceof Error ? exception.stack : undefined`; an HttpException is an Error. */
  function StackOf(e: Exception): (s: Option<string>)
    ensures s.Some? <==> !e.ThrownValue?
  {
    match e
    case HttpException(_, _, stack) => Some(stack)
    case ErrorInstance(_, _, _, stack) => Some(stack)
    case ThrownValue(_) => None
  }

  /** `catch`: the reply carries the status, time, path, method and message; the log adds stack and body. */
  function Catch(e: Exception, req: RequestInfo, now: string): (f: Filtered)
    ensures f.reply.status == f.reply.body.statusCode == StatusOf(e)
    ensures f.reply.body == ErrorResponse(StatusOf(e), now, req.url, req.verb, MessageOf(e))
    ensures f.log == ExceptionLog(f.reply.body, StackOf(e), req.body)
  {
    var errorResponse := ErrorResponse(StatusOf(e), now, req.url, req.verb, MessageOf(e));
    Filtered(Reply(errorResponse.statusCode, errorResponse), ExceptionLog(errorResponse, StackOf(e), req.body))
  }

  /** Any two exceptions that are not HttpExceptions get the same reply: nothing about them leaks. */
  lemma NonHttpRepliesIdentical(e1: Exception, e2: Exception, req: RequestInfo, now: string)
    requires !e1.HttpException? && !e2.HttpException?
    ensures Catch(e1, req, now).reply == Catch(e2, req, now).reply
    ensures Catch(e1, req, now).reply.status == 500
  {
  }

  /** The reply depends on neither the stack trace nor the request body; only the log sees them. */
  lemma ReplyIgnoresStackAndBody(status: int, response: ExceptionResponse, stack1: string, stack2: string,
                                 req: RequestInfo, body: Json, now: string)
    ensures Catch(HttpException(status, response, stack1), req, now).reply ==
            Catch(HttpException(status, response, stack2), req.(body := body), now).reply
    ensures Catch(HttpException(status, response, stack1), req, now).log.stack == Some(stack1)
  {
  }

  /**
   * An exception a service raises reaches the client with its status and its
   * own message, or the reason phrase when it was raised with an empty message.
   */
  lemma RaisedErrorRendered(e: HttpError, stack: string, req: RequestInfo, now: string)
    ensures Catch(Raise(e, stack), req, now).reply.status == e.status
    ensures e.message != "" ==> Catch(Raise(e, stack), req, now).reply.body.message == JStr(e.message)
    ensures e.message == "" && ReasonPhrase(e.status) != "" ==>
      Catch(Raise(e, stack), req, now).reply.body.message == JStr(ReasonPhrase(e.status))
  {
  }

  /**
   * The interceptor sits in front of the filter: whatever it rethrows, the
   * client gets the reply the original exception would have produced.
   */
  lemma InterceptorTransparent(verb: string, e: Exception, stack: string, req: RequestInfo, now: string)
    ensures Catch(LoggingInterceptor.OnError(verb, req.url, e, stack).rethrown, req, now).reply == Catch(e, req, now).reply
  {
  }

  /** For an HttpException with a non-zero status, the interceptor's log and the filter's reply show the same status. */
  lemma LoggedStatusMatchesReply(e: Exception, stack: string, req: RequestInfo, now: string)
    requires e.HttpException? && e.status != 0
    ensures LoggingInterceptor.OnError(req.verb, req.url, e, stack).log ==
      Some(LoggingInterceptor.ErrorLog(req.verb, req.url, JNum(Catch(e, req, now).reply.status)))
  {
  }

  /**
   * A plain Error carrying its own `status` is logged by the interceptor with
   * that status while the filter still replies 500.
   */
  lemma PlainErrorStatusDiverges(name: string, message: string, stack: string, req: RequestInfo, now: string)
    ensures var e := ErrorInstance(name, message, JNum(404), stack);
      && LoggingInterceptor.OnError(req.verb, req.url, e, stack).log.value.statusCode == JNum(404)
      && Catch(e, req, now).reply.status == 500
  {
  }
}
