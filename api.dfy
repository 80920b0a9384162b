/**
 * The frontend's API client: one fetch helper that maps failed HTTP statuses
 * to fixed messages and retries every failure a bounded number of times, and
 * the three calls built on it.
 *
 * The network is an oracle: network(url)(i) is what the i-th attempt at url
 * (counting from 0) gives, either a response or a thrown value.
 */
module Api {
  import opened Wrappers

  // ---------------------------------------------------------------------
  // Client configuration
  // ---------------------------------------------------------------------

  const ApiKeyHeader := "X-API-Key"
  /** How many times a failed attempt is retried. */
  const MaxRetries := 3
  const DefaultErrorMessage := "An error occurred. Please try again."
  const RateLimitError := "Too many requests. Please wait a moment before trying again."
  const ApiError := "API error. Please try again later."
  const ValidationError := "Invalid input. Please check your message and try again."
  const UnauthorizedError := "Unauthorized. Please check your API key."
  const RequestTooLarge := "Request too large. Please reduce the size of your message."

  /** 401 Unauthorized, section 15.5.2 of RFC 9110. */
  const StatusUnauthorized := 401
  /** 413 Content Too Large, section 15.5.14 of RFC 9110. */
  const StatusContentTooLarge := 413
  /** 422 Unprocessable Content, section 15.5.21 of RFC 9110. */
  const StatusUnprocessable := 422
  /** 429 Too Many Requests, section 4 of RFC 6585. */
  const StatusTooManyRequests := 429

  // ---------------------------------------------------------------------
  // Values, responses and attempts
  // ---------------------------------------------------------------------

  /** A JavaScript value as far as the client looks at it: a string, or anything else with its truthiness and String() form. */
  datatype JsValue = JsString(s: string) | JsOther(truthy: bool, text: string)
  {
    predicate Truthy()
    {
      match this
      case JsString(s) => s != []
      case JsOther(t, _) => t
    }

    /** String(value), which is also what new Error(value) takes as its message. */
    function Text(): string
    {
      match this
      case JsString(s) => s
      case JsOther(_, t) => t
    }
  }

  const Undefined := JsOther(false, "undefined")

  /** A response body: a JSON object with its fields, or text that response.json() rejects with a SyntaxError carrying the given message. */
  datatype Body = Json(fields: map<string, JsValue>) | NotJson(syntaxError: string)

  /** A property read on a parsed object: undefined when the field is missing. */
  function Field(fields: map<string, JsValue>, name: string): JsValue
  {
    if name in fields then fields[name] else Undefined
  }

  datatype Response = Response(status: int, statusText: string, body: Body)
  {
    /** response.ok: a status in the range 200-299. */
    predicate Ok()
    {
      200 <= status <= 299
    }
  }

  /** A thrown value: an Error instance with its message, or anything else. */
  datatype Thrown = ErrorValue(message: string) | NonErrorValue

  /** What one fetch gives: a response, or a rejection. */
  datatype Attempt = Responded(response: Response) | Threw(thrown: Thrown)

  type Network = string -> nat -> Attempt

  // ---------------------------------------------------------------------
  // fetchWithRetry
  // ---------------------------------------------------------------------

  /**
   * The detail a non-OK response carries: the body's detail field, or the
   * status text when the body is not JSON.
   */
  function ErrorDetail(response: Response): JsValue
  {
    match response.body
    case Json(fields) => Field(fields, "detail")
    case NotJson(_) => JsString(response.statusText)
  }

  /** The message of the Error thrown for a non-OK response. */
  function StatusMessage(response: Response): string
  {
    if response.status == StatusUnauthorized then UnauthorizedError
    else if response.status == StatusContentTooLarge then RequestTooLarge
    else if response.status == StatusTooManyRequests then RateLimitError
    else if response.status == StatusUnprocessable then ValidationError
    else if ErrorDetail(response).Truthy() then ErrorDetail(response).Text()
    else ApiError
  }

  /** One attempt on its own: an OK response is returned, anything else is thrown. */
  function Outcome(a: Attempt): Result<Response, Thrown>
  {
    match a
    case Threw(t) => Failure(t)
    case Responded(response) =>
      if response.Ok() then Success(response) else Failure(ErrorValue(StatusMessage(response)))
  }

  /** How many attempts a call with the given retry count may make. */
  function Budget(retries: int): (n: nat)
    ensures n >= 1
  {
    if retries > 0 then retries + 1 else 1
  }

  /** What fetchWithRetry settles with, and how many attempts it made. */
  datatype Call = Call(result: Result<Response, Thrown>, attempts: nat)

  /**
   * fetchWithRetry, starting at attempt number first. Every failure is
   * retried while retries > 0; the first OK response is returned at once,
   * and once retries run out the last failure is thrown.
   */
  function FetchWithRetry(attempts: nat -> Attempt, retries: int, first: nat): (c: Call)
    ensures first < c.attempts <= first + Budget(retries)
    ensures c.result == Outcome(attempts(c.attempts - 1))
    ensures forall j :: first <= j < c.attempts - 1 ==> Outcome(attempts(j)).Failure?
    ensures c.attempts < first + Budget(retries) ==> c.result.Success?
    decreases if retries > 0 then retries else 0
  {
    var outcome := Outcome(attempts(first));
    if outcome.Success? || retries <= 0 then Call(outcome, first + 1)
    else FetchWithRetry(attempts, retries - 1, first + 1)
  }

  /**
   * The first OK attempt within the budget decides the call: its response is
   * returned and no later attempt is made.
   */
  lemma FirstOkResponseReturned(attempts: nat -> Attempt, retries: int, k: nat)
    requires k < Budget(retries) && Outcome(attempts(k)).Success?
    requires forall j :: 0 <= j < k ==> Outcome(attempts(j)).Failure?
    ensures FetchWithRetry(attempts, retries, 0) == Call(Outcome(attempts(k)), k + 1)
  {
  }

  /**
   * When no attempt within the budget succeeds, every one of them is made and
   * the last one's error is thrown.
   */
  lemma AllFailuresRetried(attempts: nat -> Attempt, retries: int)
    requires forall j :: 0 <= j < Budget(retries) ==> Outcome(attempts(j)).Failure?
    ensures FetchWithRetry(attempts, retries, 0) == Call(Outcome(attempts(Budget(retries) - 1)), Budget(retries))
  {
  }

  /**
   * A server that keeps answering 401 is asked four times, and the call
   * fails with the unauthorised message: the mapped errors are retried like
   * any other.
   */
  lemma UnauthorizedIsRetried(attempts: nat -> Attempt)
    requires forall j :: attempts(j).Responded? && attempts(j).response.status == StatusUnauthorized
    ensures FetchWithRetry(attempts, MaxRetries, 0) == Call(Failure(ErrorValue(UnauthorizedError)), 4)
  {
    AllFailuresRetried(attempts, MaxRetries);
  }

  /**
   * The four statuses the client knows get fixed messages; any
   * other failed status shows its detail when that is truthy and the generic
   * API error otherwise, with the status text standing in for a body that
   * is not JSON.
   */
  lemma StatusMessages(response: Response)
    requires !response.Ok()
    ensures response.status == 401 ==> StatusMessage(response) == UnauthorizedError
    ensures response.status == 413 ==> StatusMessage(response) == RequestTooLarge
    ensures response.status == 429 ==> StatusMessage(response) == RateLimitError
    ensures response.status == 422 ==> StatusMessage(response) == ValidationError
    ensures response.status !in {401, 413, 422, 429} && response.body.NotJson? ==>
      StatusMessage(response) == if response.statusText != [] then response.statusText else ApiError
    ensures response.status !in {401, 413, 422, 429} && response.body.Json? ==>
      StatusMessage(response) == if ErrorDetail(response).Truthy() then ErrorDetail(response).Text() else ApiError
    ensures Outcome(Responded(response)) == Failure(ErrorValue(StatusMessage(response)))
  {
  }

  // ---------------------------------------------------------------------
  // Request headers
  // ---------------------------------------------------------------------

  /**
   * The headers fetchWithRetry sends: a JSON content type and the API key,
   * then the caller's own headers, which win on a clash.
   */
  function RequestHeaders(apiKey: string, callerHeaders: map<string, string>): (h: map<string, string>)
    ensures h.Keys == {"Content-Type", ApiKeyHeader} + callerHeaders.Keys
    ensures forall name :: name in callerHeaders ==> h[name] == callerHeaders[name]
    ensures "Content-Type" !in callerHeaders ==> h["Content-Type"] == "application/json"
    ensures ApiKeyHeader !in callerHeaders ==> h[ApiKeyHeader] == apiKey
  {
    map["Content-Type" := "application/json", ApiKeyHeader := apiKey] + callerHeaders
  }

  // ---------------------------------------------------------------------
  // The calls
  // ---------------------------------------------------------------------

  /** What generateResponse and chatResponse settle with: the body's response field, or a thrown value. */
  function AskAt(network: Network, url: string): Result<JsValue, Thrown>
  {
    var c := FetchWithRetry(network(url), MaxRetries, 0);
    match c.result
    case Failure(t) => Failure(if t.ErrorValue? then t else ErrorValue(DefaultErrorMessage))
    case Success(response) =>
      match response.body
      case NotJson(message) => Failure(ErrorValue(message))
      case Json(fields) => Success(Field(fields, "response"))
  }

  function GenerateUrl(baseUrl: string): string
  {
    baseUrl + "/generate/"
  }

  function ChatUrl(baseUrl: string): string
  {
    baseUrl + "/chat/"
  }

  function HealthUrl(baseUrl: string): string
  {
    baseUrl + "/"
  }

  /** generateResponse: POST the question to /generate/. */
  function GenerateResponse(network: Network, baseUrl: string): (r: Result<JsValue, Thrown>)
    ensures r.Failure? ==> r.error.ErrorValue?
  {
    CallsThrowOnlyErrors(network, GenerateUrl(baseUrl));
    AskAt(network, GenerateUrl(baseUrl))
  }

  /** chatResponse: POST the question to /chat/. */
  function ChatResponse(network: Network, baseUrl: string): (r: Result<JsValue, Thrown>)
    ensures r.Failure? ==> r.error.ErrorValue?
  {
    CallsThrowOnlyErrors(network, ChatUrl(baseUrl));
    AskAt(network, ChatUrl(baseUrl))
  }

  /**
   * Both calls rethrow an Error unchanged and replace any other thrown
   * value by an Error with the default message; so what they throw is
   * always an Error.
   */
  lemma CallsThrowOnlyErrors(network: Network, url: string)
    ensures var c := FetchWithRetry(network(url), MaxRetries, 0);
      c.result.Failure? && c.result.error.ErrorValue? ==> AskAt(network, url) == Failure(c.result.error)
    ensures var c := FetchWithRetry(network(url), MaxRetries, 0);
      c.result.Failure? && c.result.error.NonErrorValue? ==> AskAt(network, url) == Failure(ErrorValue(DefaultErrorMessage))
    ensures AskAt(network, url).Failure? ==> AskAt(network, url).error.ErrorValue?
  {
  }

  /**
   * What the calls return: the response field of the first OK response's
   * JSON body (undefined when absent); an OK body that is not JSON makes
   * response.json() throw its SyntaxError.
   */
  lemma AskAtSuccess(network: Network, url: string)
    ensures var c := FetchWithRetry(network(url), MaxRetries, 0);
      c.result.Success? && c.result.value.body.Json? ==>
        AskAt(network, url) == Success(Field(c.result.value.body.fields, "response"))
    ensures var c := FetchWithRetry(network(url), MaxRetries, 0);
      c.result.Success? && c.result.value.body.NotJson? ==>
        AskAt(network, url) == Failure(ErrorValue(c.result.value.body.syntaxError))
    ensures AskAt(network, url).Success? ==>
      var c := FetchWithRetry(network(url), MaxRetries, 0);
      c.result.Success? && c.result.value.Ok() && c.result.value.body.Json?
  {
  }

  /** checkHealth: whether GET / succeeds within the retry budget; it never throws. */
  function CheckHealth(network: Network, baseUrl: string): bool
  {
    var c := FetchWithRetry(network(HealthUrl(baseUrl)), MaxRetries, 0);
    c.result.Success? && c.result.value.Ok()
  }

  /** checkHealth is true exactly when one of the first four attempts gets an OK response. */
  lemma HealthMeansSomeAttemptOk(network: Network, baseUrl: string, k: nat)
    ensures CheckHealth(network, baseUrl) ==>
      var n := FetchWithRetry(network(HealthUrl(baseUrl)), MaxRetries, 0).attempts;
      n <= 4 && Outcome(network(HealthUrl(baseUrl))(n - 1)).Success?
    ensures k < 4 && Outcome(network(HealthUrl(baseUrl))(k)).Success? ==> CheckHealth(network, baseUrl)
  {
  }
}
