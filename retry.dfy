/** The retry helper and the Telegram API call built on it (`withRetry`,
    `callTelegramAPI`). The network is a script: `fetch` on its k-th attempt gives the
    k-th outcome; waiting is recorded as the list of delays asked for. */
module Retry {
  import opened Js
  import opened Validation

  /** `CONSTANTS.MAX_RETRIES` */
  const MaxRetries: nat := 3
  /** `CONSTANTS.RETRY_DELAY_MS` */
  const RetryDelayMs: nat := 1000

  /** One run of an operation: a value, or a thrown error. */
  datatype Attempt<T, E> = Returned(value: T) | Threw(error: E)

  /** What `withRetry` ends with: the first value, the error of the last attempt, or
      (with no attempts allowed) `undefined`. */
  datatype RetryOutcome<T, E> = Succeeded(value: T) | Failed(error: E) | NoAttempt

  /** Attempts `attempt` to `maxRetries` of `operation`: the outcome and the number of
      the last attempt made. */
  function Retrying<T, E>(operation: nat -> Attempt<T, E>, attempt: nat, maxRetries: nat): (RetryOutcome<T, E>, nat)
    requires attempt >= 1
    decreases maxRetries - attempt + 1
  {
    if attempt > maxRetries then (NoAttempt, attempt - 1)
    else match operation(attempt)
      case Returned(v) => (Succeeded(v), attempt)
      case Threw(e) => if attempt == maxRetries then (Failed(e), attempt) else Retrying(operation, attempt + 1, maxRetries)
  }

  /** The delays after the first `n` failures: 1000 ms, 2000 ms, … */
  function Backoff(n: nat): (waits: seq<nat>)
    ensures |waits| == n
    ensures forall i :: 0 <= i < n ==> waits[i] == RetryDelayMs * (i + 1)
  {
    if n == 0 then [] else Backoff(n - 1) + [RetryDelayMs * n]
  }

  function Sum(s: seq<nat>): nat {
    if s == [] then 0 else Sum(s[..|s| - 1]) + s[|s| - 1]
  }

  /** `withRetry(operation, context, maxRetries)`: attempts until one returns, waiting
      `1000·k` ms after the k-th failure, except after the last, whose error it rethrows. */
  method WithRetry<T, E>(operation: nat -> Attempt<T, E>, maxRetries: nat) returns (r: RetryOutcome<T, E>, calls: nat, waits: seq<nat>)
    ensures (r, calls) == Retrying(operation, 1, maxRetries)
    ensures waits == Backoff(if calls == 0 then 0 else calls - 1)
  {
    var attempt := 1;
    waits := [];
    while attempt <= maxRetries
      invariant 1 <= attempt && (maxRetries >= 1 ==> attempt <= maxRetries)
      invariant Retrying(operation, 1, maxRetries) == Retrying(operation, attempt, maxRetries)
      invariant waits == Backoff(attempt - 1)
      decreases maxRetries - attempt
    {
      match operation(attempt)
      case Returned(v) =>
        return Succeeded(v), attempt, waits;
      case Threw(e) =>
        if attempt == maxRetries {
          return Failed(e), attempt, waits;
        }
        waits := waits + [RetryDelayMs * attempt];
        attempt := attempt + 1;
    }
    return NoAttempt, 0, waits;
  }

  /** The outcome is the first attempt that returns, after failures only; or, when
      every allowed attempt throws, the last one's error after exactly `maxRetries`
      attempts. */
  lemma {:induction false} RetryingStopsAtFirstSuccess<T, E>(operation: nat -> Attempt<T, E>, attempt: nat, maxRetries: nat)
    requires 1 <= attempt <= maxRetries
    ensures var (r, calls) := Retrying(operation, attempt, maxRetries);
      attempt <= calls <= maxRetries
      && (forall k :: attempt <= k < calls ==> operation(k).Threw?)
      && (r.Succeeded? ==> operation(calls) == Returned(r.value))
      && (r.Failed? ==> calls == maxRetries && operation(calls) == Threw(r.error))
      && !r.NoAttempt?
    decreases maxRetries - attempt
  {
    if operation(attempt).Threw? && attempt < maxRetries {
      RetryingStopsAtFirstSuccess(operation, attempt + 1, maxRetries);
    }
  }

  /** A success at attempt `k`, after failures only, is what `withRetry` returns. */
  lemma {:induction false} RetryingFindsSuccess<T, E>(operation: nat -> Attempt<T, E>, attempt: nat, maxRetries: nat, k: nat)
    requires 1 <= attempt <= k <= maxRetries && operation(k).Returned?
    requires forall j :: attempt <= j < k ==> operation(j).Threw?
    ensures Retrying(operation, attempt, maxRetries) == (Succeeded(operation(k).value), k)
    decreases k - attempt
  {
    if attempt < k {
      RetryingFindsSuccess(operation, attempt + 1, maxRetries, k);
    }
  }

  lemma {:induction false} BackoffTotal(n: nat)
    ensures Sum(Backoff(n)) == RetryDelayMs * n * (n + 1) / 2
  {
    if n > 0 {
      assert Backoff(n)[..n - 1] == Backoff(n - 1);
      BackoffTotal(n - 1);
    }
  }

  /** With the default of three attempts, a run that fails every time waits
      1000 + 2000 = 3000 ms in all. */
  lemma AllFailuresWait<T, E>(operation: nat -> Attempt<T, E>)
    requires forall k :: 1 <= k <= MaxRetries ==> operation(k).Threw?
    ensures Retrying(operation, 1, MaxRetries) == (Failed(operation(MaxRetries).error), MaxRetries)
    ensures Sum(Backoff(MaxRetries - 1)) == 3000
  {
    BackoffTotal(MaxRetries - 1);
  }

  // ---------------------------------------------------------------- the API call

  /** What `fetch` resolves to: a status (`ok` for 2xx) and a body. */
  datatype Response = Response(status: int, ok: bool, body: Body)

  /** The body as `response.json()` reads it: not JSON (the parser throws), `null`, a
      value whose `typeof` is not `'object'`, or an object, with or without its own `ok`
      field. */
  datatype Body = NotJson | JsonNull | JsonScalar | JsonObject(hasOk: bool, okValue: bool)

  /** Why `fetch` throws: the 30-second abort (an `AbortError`), or anything else. */
  datatype FetchError = Aborted | NetworkFailure(message: string)

  datatype ApiError =
    | InvalidMethodName                   // the method name fails its text check
    | Timeout(methodName: string)         // "Telegram API timeout for <method>"
    | Network(message: string)
    | HttpError(status: int)              // "Telegram API error: <status> …"
    | BodyNotJson
    | NullBody                            // `null.hasOwnProperty` throws a TypeError
    | InvalidResponseFormat               // "Invalid API response format"

  /** What `callTelegramAPI` resolves to (the result's own `ok` field) or throws. */
  datatype ApiResult = Answer(ok: bool) | Error(error: ApiError)

  /** Everything after the retry loop: a non-2xx response becomes an error here, so it
      is never retried, and an `AbortError` of the last attempt becomes a timeout. */
  function Classify(methodName: string, outcome: RetryOutcome<Response, FetchError>): (r: ApiResult)
    requires !outcome.NoAttempt?
  {
    match outcome
    case Failed(Aborted) => Error(Timeout(methodName))
    case Failed(NetworkFailure(m)) => Error(Network(m))
    case Succeeded(resp) =>
      if !resp.ok then Error(HttpError(resp.status))
      else match resp.body
        case NotJson => Error(BodyNotJson)
        case JsonNull => Error(NullBody)
        case JsonScalar => Error(InvalidResponseFormat)
        case JsonObject(hasOk, okValue) => if hasOk then Answer(okValue) else Error(InvalidResponseFormat)
  }

  /** `callTelegramAPI(method, params, botToken)`: the method name checked, the fetch
      retried, then the response classified. */
  method CallTelegramApi(methodName: JsValue, fetch: nat -> Attempt<Response, FetchError>)
    returns (r: ApiResult, fetches: nat, waits: seq<nat>)
    ensures ValidateInput(methodName, TextCheck(100)).Some? ==> r == Error(InvalidMethodName) && fetches == 0 && waits == []
    ensures ValidateInput(methodName, TextCheck(100)).None? ==>
      var (outcome, calls) := Retrying(fetch, 1, MaxRetries);
      fetches == calls && !outcome.NoAttempt? && r == Classify(methodName.s, outcome)
      && waits == Backoff(calls - 1)
  {
    if ValidateInput(methodName, TextCheck(100)).Some? {
      return Error(InvalidMethodName), 0, [];
    }
    var outcome;
    outcome, fetches, waits := WithRetry(fetch, MaxRetries);
    RetryingStopsAtFirstSuccess(fetch, 1, MaxRetries);
    r := Classify(methodName.s, outcome);
  }

  /** A non-2xx first response is reported after one fetch: it is not retried. */
  lemma HttpErrorNotRetried(methodName: string, fetch: nat -> Attempt<Response, FetchError>)
    requires fetch(1).Returned? && !fetch(1).value.ok
    ensures Retrying(fetch, 1, MaxRetries).1 == 1
    ensures Classify(methodName, Retrying(fetch, 1, MaxRetries).0) == Error(HttpError(fetch(1).value.status))
  {
  }

  /** Three aborted attempts are a timeout of the method, after 3000 ms of waiting. */
  lemma AbortsAreTimeout(methodName: string, fetch: nat -> Attempt<Response, FetchError>)
    requires forall k :: 1 <= k <= MaxRetries ==> fetch(k) == Threw(Aborted)
    ensures Retrying(fetch, 1, MaxRetries) == (Failed(Aborted), MaxRetries)
    ensures Classify(methodName, Retrying(fetch, 1, MaxRetries).0) == Error(Timeout(methodName))
  {
    AllFailuresWait(fetch);
  }

  /** A 2xx response whose body has no own `ok` field is an invalid response, whichever
      attempt it came from. */
  lemma MissingOkInvalid(methodName: string, fetch: nat -> Attempt<Response, FetchError>, k: nat)
    requires 1 <= k <= MaxRetries && (forall j :: 1 <= j < k ==> fetch(j).Threw?)
    requires fetch(k).Returned? && fetch(k).value.ok
    requires fetch(k).value.body.JsonScalar? || (fetch(k).value.body.JsonObject? && !fetch(k).value.body.hasOk)
    ensures Classify(methodName, Retrying(fetch, 1, MaxRetries).0) == Error(InvalidResponseFormat)
  {
    RetryingFindsSuccess(fetch, 1, MaxRetries, k);
  }
}
