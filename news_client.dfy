/** `FinancialNewsClient.get_company_news` (api_client.py): up to three requests to the provider's
    company-news endpoint, with a wait after a rate-limited or failed attempt, and the
    classification of the final response. The network is a script: `script[k]` is what attempt
    `k` observes. Waiting is recorded as the list of sleep durations instead of being performed. */
module NewsClient {
  import opened Wrappers
  import opened Builtins

  const MAX_RETRIES: nat := 3
  /** The initial `retry_delay`, in seconds; it doubles after each network error. */
  const BASE_DELAY: nat := 1
  /** The wait, in seconds, when a 429 response carries no `Retry-After` header. */
  const DEFAULT_RETRY_AFTER: nat := 60
  const STATUS_OK: nat := 200
  const STATUS_TOO_MANY_REQUESTS: nat := 429

  /** The fields of a news item the caller reads; `None` is a missing key or JSON `null`. */
  datatype NewsItem = NewsItem(datetime: Option<int>, headline: Option<string>, summary: Option<string>)

  /** The decoded body, as far as the client looks at it: a list of items, a falsy value that is
      not a list (`{}`, `null`, `0`, `""`, `false`), or a truthy value that is not a list, with its
      printed form. An empty list is falsy too. */
  datatype Json = JsonList(items: seq<NewsItem>) | Falsy | Truthy(repr: string)

  /** `response.json()`: either it raises (with the exception's text) or it yields a value. */
  datatype Body = Unparseable(reason: string) | Parsed(json: Json)

  /** What one `requests.get` observes: a `RequestException` (connection error, timeout, ...), or a
      response with its status, its `Retry-After` header as a number of seconds if present, the
      text the error message would quote for a non-200 status, and its body. */
  datatype Attempt =
    | NetworkError(reason: string)
    | Response(status: nat, retryAfter: Option<nat>, details: string, body: Body)

  /** The exceptions the function raises, one per message it builds. */
  datatype FetchError =
    | RequestFailed(status: nat, details: string)
    | ParseFailed(reason: string)
    | UnexpectedFormat(repr: string)
    | ConnectFailed(reason: string)

  /** The outcome of a call: the value returned or raised, the sleeps performed, in order, and
      the number of requests issued. */
  datatype Fetched = Fetched(result: Result<seq<NewsItem>, FetchError>, sleeps: seq<nat>, requests: nat)

  /** The text of the raised exception, `str(e)`. */
  function Message(e: FetchError): (m: string)
    ensures e.RequestFailed? ==> "API request failed with status code " <= m
  {
    match e
    case RequestFailed(status, details) =>
      "API request failed with status code " + NatToString(status) + ": " + details
    case ParseFailed(reason) => "Failed to parse API response: " + reason
    case UnexpectedFormat(repr) => "Unexpected API response format: " + repr
    case ConnectFailed(reason) =>
      assert NatToString(MAX_RETRIES) == "3";
      "Failed to connect to Finnhub API after " + NatToString(MAX_RETRIES) + " attempts: " + reason
  }

  /** `news_items[:limit] if limit else news_items`: with a truthy limit a prefix of that length
      (a negative limit drops that many items from the end), otherwise the whole list. */
  function Truncate(items: seq<NewsItem>, limit: Option<int>): (r: seq<NewsItem>)
    ensures r <= items
    ensures limit.None? || limit.value == 0 ==> r == items
    ensures limit.Some? && limit.value > 0 ==> |r| == if limit.value < |items| then limit.value else |items|
    ensures limit.Some? && limit.value < 0 ==> |r| == if |items| + limit.value < 0 then 0 else |items| + limit.value
  {
    if limit.Some? && limit.value != 0 then Head(items, limit.value) else items
  }

  /** How a response that is not retried ends the call: a status other than 200 raises with the
      status code; a body that does not decode raises; a falsy value returns the empty list before
      its shape is looked at; a truthy non-list raises; a list is truncated to `limit`. */
  function Classify(status: nat, details: string, body: Body, limit: Option<int>): (r: Result<seq<NewsItem>, FetchError>)
    ensures status != STATUS_OK ==> r == Failure(RequestFailed(status, details))
    ensures r.Success? <==> status == STATUS_OK && body.Parsed? && !body.json.Truthy?
    ensures r.Success? && r.value != [] ==> body.json.JsonList? && r.value <= body.json.items
    ensures status == STATUS_OK && body == Parsed(Falsy) ==> r == Success([])
    ensures status == STATUS_OK && body.Unparseable? ==> r == Failure(ParseFailed(body.reason))
    ensures status == STATUS_OK && body.Parsed? && body.json.Truthy? ==> r == Failure(UnexpectedFormat(body.json.repr))
    ensures status == STATUS_OK && body.Parsed? && body.json.JsonList? ==> r == Success(Truncate(body.json.items, limit))
  {
    if status != STATUS_OK then Failure(RequestFailed(status, details))
    else
      match body
      case Unparseable(reason) => Failure(ParseFailed(reason))
      case Parsed(json) =>
        if json.Falsy? || json == JsonList([]) then Success([])
        else if json.Truthy? then Failure(UnexpectedFormat(json.repr))
        else Success(Truncate(json.items, limit))
  }

  /** Whether attempt number `attempt` (from 0) observing `a` waits and tries again rather than
      ending the call: a network error or a 429, but never on the last attempt. */
  predicate Retried(a: Attempt, attempt: nat) {
    attempt < MAX_RETRIES - 1 && (a.NetworkError? || a.status == STATUS_TOO_MANY_REQUESTS)
  }

  /** How an attempt that is not retried ends the call. */
  function Final(a: Attempt, limit: Option<int>): Result<seq<NewsItem>, FetchError> {
    match a
    case NetworkError(reason) => Failure(ConnectFailed(reason))
    case Response(status, _, details, body) => Classify(status, details, body, limit)
  }

  /** The remaining attempts, from attempt `attempt` with the current `retry_delay` `delay`. */
  function FetchFrom(script: seq<Attempt>, limit: Option<int>, attempt: nat, delay: nat): Fetched
    requires attempt < MAX_RETRIES <= |script|
    decreases MAX_RETRIES - attempt
  {
    var a := script[attempt];
    if !Retried(a, attempt) then Fetched(Final(a, limit), [], attempt + 1)
    else if a.NetworkError? then
      var rest := FetchFrom(script, limit, attempt + 1, delay * 2);
      Fetched(rest.result, [delay] + rest.sleeps, rest.requests)
    else
      var rest := FetchFrom(script, limit, attempt + 1, delay);
      Fetched(rest.result, [a.retryAfter.GetOr(DEFAULT_RETRY_AFTER)] + rest.sleeps, rest.requests)
  }

  /** A whole call. `script` holds an outcome for each request that could be issued. */
  function Fetch(script: seq<Attempt>, limit: Option<int>): Fetched
    requires MAX_RETRIES <= |script|
  {
    FetchFrom(script, limit, 0, BASE_DELAY)
  }

  /** The loop of `get_company_news`. */
  method GetCompanyNews(script: seq<Attempt>, limit: Option<int>)
    returns (result: Result<seq<NewsItem>, FetchError>, sleeps: seq<nat>, requests: nat)
    requires MAX_RETRIES <= |script|
    ensures Fetched(result, sleeps, requests) == Fetch(script, limit)
  {
    var retryDelay := BASE_DELAY;
    sleeps := [];
    var attempt := 0;
    while attempt < MAX_RETRIES
      invariant attempt < MAX_RETRIES
      invariant var rest := FetchFrom(script, limit, attempt, retryDelay);
        Fetch(script, limit) == Fetched(rest.result, sleeps + rest.sleeps, rest.requests)
      decreases MAX_RETRIES - attempt
    {
      var a := script[attempt];
      match a {
        case NetworkError(reason) =>
          if attempt < MAX_RETRIES - 1 {
            sleeps := sleeps + [retryDelay];
            retryDelay := retryDelay * 2;
          } else {
            return Failure(ConnectFailed(reason)), sleeps, attempt + 1;
          }
        case Response(status, retryAfter, details, body) =>
          if status == STATUS_TOO_MANY_REQUESTS && attempt < MAX_RETRIES - 1 {
            sleeps := sleeps + [retryAfter.GetOr(DEFAULT_RETRY_AFTER)];
          } else {
            return Classify(status, details, body, limit), sleeps, attempt + 1;
          }
      }
      attempt := attempt + 1;
    }
    // Every branch of the last attempt returns or raises: the trailing `return []` cannot run.
    assert false;
  }

  // ---------------------------------------------------------------------------------------------
  // Properties of a call

  /** Between one and three requests, and one sleep fewer than requests. */
  lemma {:induction false} FetchBounds(script: seq<Attempt>, limit: Option<int>, attempt: nat, delay: nat)
    requires attempt < MAX_RETRIES <= |script|
    ensures var f := FetchFrom(script, limit, attempt, delay);
      attempt < f.requests <= MAX_RETRIES && |f.sleeps| == f.requests - 1 - attempt
    decreases MAX_RETRIES - attempt
  {
    if Retried(script[attempt], attempt) {
      FetchBounds(script, limit, attempt + 1, if script[attempt].NetworkError? then delay * 2 else delay);
    }
  }

  function Pow2(n: nat): (r: nat)
    ensures r >= 1
  {
    if n == 0 then 1 else 2 * Pow2(n - 1)
  }

  /** How many of the attempts in `attempts` were network errors. */
  function NetworkErrors(attempts: seq<Attempt>): (n: nat)
    ensures n <= |attempts|
  {
    if attempts == [] then 0
    else NetworkErrors(attempts[..|attempts| - 1]) + if attempts[|attempts| - 1].NetworkError? then 1 else 0
  }

  /** The wait after retried attempt `k`, stated without the loop: a 429 waits its `Retry-After`
      (60 without one); a network error waits 2^j seconds, where j is the number of network errors
      before it, since only those double the delay. */
  function ExpectedSleep(script: seq<Attempt>, k: nat): nat
    requires k < |script|
  {
    if script[k].NetworkError? then BASE_DELAY * Pow2(NetworkErrors(script[..k]))
    else script[k].retryAfter.GetOr(DEFAULT_RETRY_AFTER)
  }

  lemma NetworkErrorsSnoc(script: seq<Attempt>, k: nat)
    requires k < |script|
    ensures NetworkErrors(script[..k + 1]) == NetworkErrors(script[..k]) + if script[k].NetworkError? then 1 else 0
  {
    assert script[..k + 1][..k] == script[..k];
  }

  /** The attempts from `attempt` on: each one before the last is retried and is followed by the
      expected wait; the last is not retried and decides the result. */
  lemma {:induction false} ScheduleFrom(script: seq<Attempt>, limit: Option<int>, attempt: nat, delay: nat)
    requires attempt < MAX_RETRIES <= |script|
    requires delay == BASE_DELAY * Pow2(NetworkErrors(script[..attempt]))
    ensures var f := FetchFrom(script, limit, attempt, delay);
      && attempt < f.requests <= MAX_RETRIES
      && |f.sleeps| == f.requests - 1 - attempt
      && (forall k :: attempt <= k < f.requests - 1 ==> Retried(script[k], k) && f.sleeps[k - attempt] == ExpectedSleep(script, k))
      && !Retried(script[f.requests - 1], f.requests - 1)
      && f.result == Final(script[f.requests - 1], limit)
    decreases MAX_RETRIES - attempt
  {
    var a := script[attempt];
    if Retried(a, attempt) {
      var next := if a.NetworkError? then delay * 2 else delay;
      NetworkErrorsSnoc(script, attempt);
      ScheduleFrom(script, limit, attempt + 1, next);
    }
  }

  /** A call issues between one and three requests and sleeps once fewer; every attempt before the
      last was a network error or a 429 and was followed by its expected wait; the last attempt is
      the first one not retried, and it alone decides what is returned or raised. */
  lemma FetchSchedule(script: seq<Attempt>, limit: Option<int>)
    requires MAX_RETRIES <= |script|
    ensures var f := Fetch(script, limit);
      && 1 <= f.requests <= MAX_RETRIES
      && |f.sleeps| == f.requests - 1
      && (forall k :: 0 <= k < f.requests - 1 ==> Retried(script[k], k) && f.sleeps[k] == ExpectedSleep(script, k))
      && !Retried(script[f.requests - 1], f.requests - 1)
      && f.result == Final(script[f.requests - 1], limit)
  {
    assert script[..0] == [];
    ScheduleFrom(script, limit, 0, BASE_DELAY);
    var f := FetchFrom(script, limit, 0, BASE_DELAY);
    assert Fetch(script, limit) == f;
    assert forall k :: 0 <= k < f.requests - 1 ==> f.sleeps[k] == f.sleeps[k - 0];
  }

  /** A first response with a status other than 429 ends the call at once: one request, no sleep,
      and the outcome is that response's classification (so a status other than 200 raises the
      status-code error). */
  lemma NoRetryWithoutCause(script: seq<Attempt>, limit: Option<int>)
    requires MAX_RETRIES <= |script|
    requires script[0].Response? && script[0].status != STATUS_TOO_MANY_REQUESTS
    ensures var f := Fetch(script, limit);
      && f.requests == 1 && f.sleeps == []
      && f.result == Classify(script[0].status, script[0].details, script[0].body, limit)
      && (script[0].status != STATUS_OK ==> f.result == Failure(RequestFailed(script[0].status, script[0].details)))
  {
  }

  /** A successful call returns a prefix, in provider order, of the list in the last response,
      at most `limit` items long when `limit` is positive. */
  lemma SuccessIsPrefix(script: seq<Attempt>, limit: Option<int>)
    requires MAX_RETRIES <= |script|
    ensures var f := Fetch(script, limit);
      f.result.Success? && f.result.value != [] ==>
        var a := script[f.requests - 1];
        && a.Response? && a.status == STATUS_OK && a.body.Parsed? && a.body.json.JsonList?
        && f.result.value == Truncate(a.body.json.items, limit)
        && (limit.None? ==> f.result.value == a.body.json.items)
        && (limit.Some? && limit.value > 0 ==>
              |f.result.value| == if limit.value < |a.body.json.items| then limit.value else |a.body.json.items|)
  {
    FetchSchedule(script, limit);
  }

  // ---------------------------------------------------------------------------------------------
  // Worked scripts

  function Ok(items: seq<NewsItem>): Attempt {
    Response(STATUS_OK, None, "", Parsed(JsonList(items)))
  }

  function RateLimited(retryAfter: Option<nat>): Attempt {
    Response(STATUS_TOO_MANY_REQUESTS, retryAfter, "rate limited", Parsed(Truthy("{}")))
  }

  /** A 429 asking for one second, then a list: one sleep of one second, the list returned. */
  lemma RateLimitThenList(items: seq<NewsItem>)
    requires 0 < |items| <= 50
    ensures Fetch([RateLimited(Some(1)), Ok(items), Ok([])], Some(50)) == Fetched(Success(items), [1], 2)
  {
    assert Truncate(items, Some(50)) == items;
  }

  /** Three network errors: sleeps of one and two seconds, then the connection error. */
  lemma BackoffDoubles()
    ensures Fetch([NetworkError("a"), NetworkError("b"), NetworkError("c")], Some(50))
      == Fetched(Failure(ConnectFailed("c")), [1, 2], 3)
  {
  }

  /** A 429 does not double the delay: the network error after it still waits one second. */
  lemma RateLimitKeepsDelay()
    ensures Fetch([RateLimited(None), NetworkError("b"), NetworkError("c")], None)
      == Fetched(Failure(ConnectFailed("c")), [60, 1], 3)
  {
  }

  /** A 429 on the last attempt is not retried: it raises the status-code error. */
  lemma LastRateLimitFails()
    ensures Fetch([RateLimited(Some(5)), RateLimited(Some(7)), RateLimited(Some(9))], None)
      == Fetched(Failure(RequestFailed(429, "rate limited")), [5, 7], 3)
  {
    var script := [RateLimited(Some(5)), RateLimited(Some(7)), RateLimited(Some(9))];
    assert FetchFrom(script, None, 2, 1) == Fetched(Failure(RequestFailed(429, "rate limited")), [], 3);
  }
}
