/**
 * The retry loop of the API client (frontend/lib/api-client.ts): which answers end it, how often it
 * fetches and how long it waits.
 */
module ApiClient {
  import opened Options

  datatype ErrorType =
    | NetworkError | AuthError | ForbiddenError | ValidationError
    | NotFoundError | ConflictError | ServerError | UnknownError

  datatype ApiError = ApiError(status: int, errorType: ErrorType)

  datatype Response<T> = Success(value: T) | Failure(error: ApiError)

  /** What one fetch comes to. */
  datatype Outcome<T> =
    | Delivered(value: T)
    /** A status outside 200-299. */
    | HttpError(status: int)
    /** A 2xx answer whose body is not JSON. */
    | Unparsable
    | Unreachable

  function ClassifyError(status: int): ErrorType {
    if status == 401 then AuthError
    else if status == 403 then ForbiddenError
    else if status == 400 then ValidationError
    else if status == 404 then NotFoundError
    else if status == 409 then ConflictError
    else if status >= 500 then ServerError
    else UnknownError
  }

  /** A success or a client error ends the loop whatever retries are left. */
  predicate Decisive<T>(o: Outcome<T>) {
    o.Delivered? || (o.HttpError? && 400 <= o.status < 500)
  }

  /** An unreadable 2xx body is thrown inside the same try and reported like an unreachable server. */
  function Report<T>(o: Outcome<T>): Response<T> {
    match o
    case Delivered(value) => Success(value)
    case HttpError(status) => Failure(ApiError(status, ClassifyError(status)))
    case Unparsable => Failure(ApiError(0, NetworkError))
    case Unreachable => Failure(ApiError(0, NetworkError))
  }

  function MaxRetries(httpMethod: string, retry: Option<int>): int {
    retry.GetOr(if httpMethod == "GET" then 2 else 0)
  }

  ghost predicate NoneDecisive<T>(outcomes: nat -> Outcome<T>, n: nat) {
    forall i: nat :: i < n ==> !Decisive(outcomes(i))
  }

  /** The attempt that decides: the first decisive one, or the last one allowed. */
  ghost predicate EndsAt<T>(outcomes: nat -> Outcome<T>, maxRetries: int, k: nat) {
    && k <= maxRetries
    && NoneDecisive(outcomes, k)
    && (Decisive(outcomes(k)) || k == maxRetries)
  }

  function Pow3(n: nat): nat {
    if n == 0 then 1 else 3 * Pow3(n - 1)
  }

  function Sum(waits: seq<nat>): nat
    decreases |waits|
  {
    if waits == [] then 0 else Sum(waits[..|waits| - 1]) + waits[|waits| - 1]
  }

  /** 300, 900, 2700, ... milliseconds. */
  predicate Geometric(waits: seq<nat>) {
    forall i :: 0 <= i < |waits| ==> waits[i] == 300 * Pow3(i)
  }

  /** The backoff before k retries adds up to 150 * (3^k - 1) milliseconds. */
  lemma {:induction false} TotalBackoff(waits: seq<nat>)
    requires Geometric(waits)
    ensures Sum(waits) == 150 * (Pow3(|waits|) - 1)
    decreases |waits|
  {
    if waits != [] {
      TotalBackoff(waits[..|waits| - 1]);
    }
  }

  /** What the caller sees of the deciding attempt, case by case. */
  ghost predicate Answers<T>(response: Response<T>, last: Outcome<T>) {
    && (last.Delivered? ==> response == Success(last.value))
    && (last.Unparsable? || last.Unreachable? ==> response == Failure(ApiError(0, NetworkError)))
    && (last.HttpError? ==>
          && response.Failure? && response.error.status == last.status
          && var kind := response.error.errorType;
             && (kind == ValidationError <==> last.status == 400) && (kind == AuthError <==> last.status == 401)
             && (kind == ForbiddenError <==> last.status == 403) && (kind == NotFoundError <==> last.status == 404)
             && (kind == ConflictError <==> last.status == 409) && (kind == ServerError <==> last.status >= 500)
             && kind != NetworkError)
  }

  /** The attempt leaves room for another: it neither delivered nor met a client error. */
  predicate MayRetry<T>(o: Outcome<T>) {
    o.Unparsable? || o.Unreachable? || (o.HttpError? && (o.status < 400 || 500 <= o.status))
  }

  /**
   * One call, its method already defaulted to GET and upper-cased; `outcomes(i)` is what the attempt with
   * index i meets. Returned besides the answer are the number of fetches and the waits between them, in
   * milliseconds.
   */
  method Call<T>(httpMethod: string, retry: Option<int>, outcomes: nat -> Outcome<T>)
    returns (response: Response<T>, fetches: nat, waits: seq<nat>)
    ensures MaxRetries(httpMethod, retry) < 0 ==>
              response == Failure(ApiError(0, UnknownError)) && fetches == 0 && waits == []
    ensures MaxRetries(httpMethod, retry) >= 0 ==>
              && fetches > 0
              && EndsAt(outcomes, MaxRetries(httpMethod, retry), fetches - 1)
              && response == Report(outcomes(fetches - 1))
              && |waits| == fetches - 1
              && Geometric(waits)
              && Sum(waits) == 150 * (Pow3(fetches - 1) - 1)
    ensures httpMethod != "GET" && retry.None? ==> fetches == 1 && waits == []
    ensures response.Failure? && !(400 <= response.error.status < 500) && fetches > 0 ==>
              fetches == MaxRetries(httpMethod, retry) + 1
    ensures var allowed := if retry.Some? then retry.value + 1 else if httpMethod == "GET" then 3 else 1;
            && (fetches <= allowed || fetches == 0)
            && (fetches < allowed ==> fetches > 0 && !MayRetry(outcomes(fetches - 1)))
            && (fetches == 0 <==> allowed <= 0)
    ensures forall i: nat :: i + 1 < fetches ==> MayRetry(outcomes(i))
    ensures if fetches > 0 then Answers(response, outcomes(fetches - 1))
            else response == Failure(ApiError(0, UnknownError))
    ensures (fetches > 1 ==> waits[0] == 300) && forall i: nat :: i + 1 < |waits| ==> waits[i + 1] == 3 * waits[i]
  {
    var maxRetries := MaxRetries(httpMethod, retry);
    var lastError: Option<ApiError> := None;
    var attempt: nat := 0;
    fetches, waits := 0, [];
    var backoff: nat := 300;
    while attempt <= maxRetries
      invariant attempt == fetches && (attempt == 0 || attempt <= maxRetries + 1)
      invariant NoneDecisive(outcomes, attempt)
      invariant |waits| == (if attempt <= maxRetries || attempt == 0 then attempt else attempt - 1)
      invariant Geometric(waits)
      invariant backoff == 300 * Pow3(|waits|)
      invariant if attempt == 0 then lastError.None?
                else lastError.Some? && Report(outcomes(attempt - 1)) == Failure(lastError.value)
      decreases maxRetries - attempt
    {
      var outcome := outcomes(attempt);
      fetches := fetches + 1;
      match outcome {
        case Delivered(value) =>
          TotalBackoff(waits);
          return Success(value), fetches, waits;
        case HttpError(status) =>
          var error := ApiError(status, ClassifyError(status));
          if 400 <= status < 500 {
            TotalBackoff(waits);
            return Failure(error), fetches, waits;
          }
          lastError := Some(error);
        case Unparsable =>
          lastError := Some(ApiError(0, NetworkError));
        case Unreachable =>
          lastError := Some(ApiError(0, NetworkError));
      }
      if attempt < maxRetries {
        waits := waits + [backoff];
        backoff := 3 * backoff;
      }
      attempt := attempt + 1;
    }
    TotalBackoff(waits);
    response := Failure(lastError.GetOr(ApiError(0, UnknownError)));
  }
}
