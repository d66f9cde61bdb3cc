/** The retry loop shared by `Fetcher._fetch_with_retries` and
    `ShnatonFetcher._afetch_with_retries`: one request per attempt, numbered
    from 1, at most `retries` attempts, a return on the first success, the
    last failure re-raised as it is, and a back-off of `2^n` seconds (plus a
    random fraction that is not modelled) after each failed attempt `n` but
    the last. The network is a function from the attempt number to what that
    request did. */
module RetryLoop {
  import opened Wrappers
  import opened Text

  datatype Response = Response(status: int, body: string)

  /** What one request did. */
  datatype Outcome =
    | Responded(response: Response)
    | ClientFailure(detail: string)   // an aiohttp.ClientError while requesting
    | TimedOut                        // asyncio.TimeoutError
    | OtherFailure(detail: string)    // any other exception

  /** How the loop's `except` clause sees an attempt. */
  datatype Verdict = Success(response: Response) | Retryable(error: Exception) | Fatal(error: Exception)

  /** The exception `raise_for_status` raises for an error status. */
  function StatusError(status: int): Exception {
    ClientError(IntToString(status))
  }

  /** `checkStatus` says whether the attempt calls `raise_for_status`, which
      raises a ClientError subclass for any status of 400 or more. */
  function Judge(o: Outcome, checkStatus: bool): (v: Verdict)
    ensures v.Success? <==> o.Responded? && !(checkStatus && o.response.status >= 400)
    ensures v.Success? ==> v.response == o.response
    ensures v.Fatal? <==> o.OtherFailure?
    ensures v.Retryable? ==> v.error.ClientError? || v.error.TimeoutError?
  {
    match o
    case Responded(r) => if checkStatus && r.status >= 400 then Retryable(StatusError(r.status)) else Success(r)
    case ClientFailure(d) => Retryable(ClientError(d))
    case TimedOut => Retryable(TimeoutError)
    case OtherFailure(d) => Fatal(OtherError(d))
  }

  /** What a call did: its result (a response, the `None` that falls out of
      an empty loop, or the exception raised), how many requests it issued,
      and the whole seconds of each back-off, in order. */
  datatype Run = Run(result: Result<Option<Response>>, attempts: nat, backoffs: seq<nat>)

  function Pow2(n: nat): (p: nat)
    ensures p >= 1
  {
    if n == 0 then 1 else 2 * Pow2(n - 1)
  }

  /** The result an attempt ends the call with, when it ends it. */
  function Final(v: Verdict): Result<Option<Response>> {
    match v
    case Success(r) => Ok(Some(r))
    case Retryable(e) => Err(e)
    case Fatal(e) => Err(e)
  }

  /** The call from attempt `attempt` on. */
  function RetryFrom(attempt: nat, retries: int, outcome: nat -> Outcome, checkStatus: bool): (run: Run)
    requires 1 <= attempt <= retries
    ensures attempt <= run.attempts <= retries
    ensures |run.backoffs| == run.attempts - attempt
    ensures run.result == Final(Judge(outcome(run.attempts), checkStatus))
    decreases retries - attempt
  {
    var v := Judge(outcome(attempt), checkStatus);
    if v.Retryable? && attempt < retries then
      var rest := RetryFrom(attempt + 1, retries, outcome, checkStatus);
      rest.(backoffs := [Pow2(attempt)] + rest.backoffs)
    else
      Run(Final(v), attempt, [])
  }

  /** A whole call: with fewer than one retry the loop body never runs. */
  function Retry(retries: int, outcome: nat -> Outcome, checkStatus: bool): (run: Run)
    ensures retries < 1 ==> run == Run(Ok(None), 0, [])
    ensures retries >= 1 ==> 1 <= run.attempts <= retries && |run.backoffs| == run.attempts - 1
    ensures retries >= 1 ==> run.result == Final(Judge(outcome(run.attempts), checkStatus))
  {
    if retries < 1 then Run(Ok(None), 0, []) else RetryFrom(1, retries, outcome, checkStatus)
  }

  /** The retry loop. */
  method FetchWithRetries(retries: int, outcome: nat -> Outcome, checkStatus: bool) returns (run: Run)
    ensures run == Retry(retries, outcome, checkStatus)
  {
    var backoffs: seq<nat> := [];
    var attempt := 1;
    while attempt <= retries
      invariant 1 <= attempt
      invariant attempt > retries ==> retries < 1
      invariant |backoffs| == attempt - 1
      invariant forall i :: 0 <= i < |backoffs| ==> backoffs[i] == Pow2(i + 1)
      invariant forall j :: 1 <= j < attempt ==> Judge(outcome(j), checkStatus).Retryable?
      decreases retries - attempt
    {
      // the request, `raise_for_status` and the `except` clause
      var verdict := Judge(outcome(attempt), checkStatus);
      if !verdict.Retryable? || attempt == retries {
        RetryStopsAt(retries, outcome, checkStatus, attempt);
        RetryShape(retries, outcome, checkStatus);
        return Run(Final(verdict), attempt, backoffs);
      }
      backoffs := backoffs + [Pow2(attempt)];
      attempt := attempt + 1;
    }
    return Run(Ok(None), 0, []);
  }

  /** `Fetcher.fetch` and `ShnatonFetcher.afetch` read the body of what the
      loop returned; the `None` of an empty loop has no `text`. */
  function ResponseText(run: Run): (r: Result<string>)
    ensures r.Ok? <==> run.result.Ok? && run.result.value.Some?
    ensures r.Ok? ==> r.value == run.result.value.value.body
    ensures run.result.Err? ==> r == Err(run.result.error)
    ensures run.result == Ok(None) ==> r == Err(AttributeError("'NoneType' object has no attribute 'text'"))
  {
    match run.result
    case Ok(Some(response)) => Ok(response.body)
    case Ok(None) => Err(AttributeError("'NoneType' object has no attribute 'text'"))
    case Err(e) => Err(e)
  }

  lemma {:induction false} RetryFromShape(attempt: nat, retries: int, outcome: nat -> Outcome, checkStatus: bool)
    requires 1 <= attempt <= retries
    ensures var run := RetryFrom(attempt, retries, outcome, checkStatus);
      && attempt <= run.attempts <= retries
      && |run.backoffs| == run.attempts - attempt
      && (forall i :: 0 <= i < |run.backoffs| ==> run.backoffs[i] == Pow2(attempt + i))
      && (forall j :: attempt <= j < run.attempts ==> Judge(outcome(j), checkStatus).Retryable?)
      && run.result == Final(Judge(outcome(run.attempts), checkStatus))
      && (run.attempts == retries || !Judge(outcome(run.attempts), checkStatus).Retryable?)
    decreases retries - attempt
  {
    var v := Judge(outcome(attempt), checkStatus);
    if v.Retryable? && attempt < retries {
      RetryFromShape(attempt + 1, retries, outcome, checkStatus);
    }
  }

  /** At most `retries` requests; none, and a `None` result, when `retries`
      is below 1; one back-off of `2^n` after each attempt `n` but the last;
      every attempt before the last failed in a retryable way, and the last
      one decided the result: its response, or its own exception unchanged. */
  lemma RetryShape(retries: int, outcome: nat -> Outcome, checkStatus: bool)
    ensures var run := Retry(retries, outcome, checkStatus);
      && run.attempts <= (if retries < 1 then 0 else retries)
      && (retries < 1 ==> run.result == Ok(None) && run.attempts == 0 && run.backoffs == [])
      && (retries >= 1 ==>
            && 1 <= run.attempts
            && |run.backoffs| == run.attempts - 1
            && (forall i :: 0 <= i < |run.backoffs| ==> run.backoffs[i] == Pow2(i + 1))
            && (forall j :: 1 <= j < run.attempts ==> Judge(outcome(j), checkStatus).Retryable?)
            && run.result == Final(Judge(outcome(run.attempts), checkStatus))
            && (run.attempts == retries || !Judge(outcome(run.attempts), checkStatus).Retryable?))
  {
    if retries >= 1 {
      RetryFromShape(1, retries, outcome, checkStatus);
    }
  }

  /** The call stops at the first attempt that does not fail retryably, or
      at attempt `retries`, and that attempt decides the result. */
  lemma {:induction false} RetryStopsAt(retries: int, outcome: nat -> Outcome, checkStatus: bool, k: nat)
    requires 1 <= k <= retries
    requires forall j :: 1 <= j < k ==> Judge(outcome(j), checkStatus).Retryable?
    requires k == retries || !Judge(outcome(k), checkStatus).Retryable?
    ensures Retry(retries, outcome, checkStatus).attempts == k
    ensures Retry(retries, outcome, checkStatus).result == Final(Judge(outcome(k), checkStatus))
  {
    RetryShape(retries, outcome, checkStatus);
  }

  /** When every attempt fails retryably, all `retries` requests are made and
      the last one's exception is the one raised. */
  lemma AllAttemptsFail(retries: int, outcome: nat -> Outcome, checkStatus: bool)
    requires retries >= 1
    requires forall j :: 1 <= j <= retries ==> Judge(outcome(j), checkStatus).Retryable?
    ensures Retry(retries, outcome, checkStatus).attempts == retries
    ensures Retry(retries, outcome, checkStatus).result == Err(Judge(outcome(retries), checkStatus).error)
    ensures |Retry(retries, outcome, checkStatus).backoffs| == retries - 1
  {
    RetryStopsAt(retries, outcome, checkStatus, retries);
    RetryShape(retries, outcome, checkStatus);
  }

  /** A response is only returned when the request that produced it was made,
      and, with the status check, only when its status is below 400. */
  lemma ReturnedResponse(retries: int, outcome: nat -> Outcome, checkStatus: bool)
    ensures var run := Retry(retries, outcome, checkStatus);
      run.result.Ok? && run.result.value.Some? ==>
        && 1 <= run.attempts
        && outcome(run.attempts) == Responded(run.result.value.value)
        && (checkStatus ==> run.result.value.value.status < 400)
  {
    RetryShape(retries, outcome, checkStatus);
  }

  /** An exception outside ClientError and TimeoutError is raised at once. */
  lemma FatalNotRetried(retries: int, outcome: nat -> Outcome, checkStatus: bool, k: nat, detail: string)
    requires 1 <= k <= retries && outcome(k) == OtherFailure(detail)
    requires forall j :: 1 <= j < k ==> Judge(outcome(j), checkStatus).Retryable?
    ensures Retry(retries, outcome, checkStatus) == Retry(k, outcome, checkStatus)
    ensures Retry(retries, outcome, checkStatus).result == Err(OtherError(detail))
  {
    RetryStopsAt(retries, outcome, checkStatus, k);
    RetryStopsAt(k, outcome, checkStatus, k);
    RetryShape(retries, outcome, checkStatus);
    RetryShape(k, outcome, checkStatus);
  }

  /** Without the status check any response ends the loop, whatever its
      status; with it an error status is retried. */
  lemma StatusCheck(retries: int, outcome: nat -> Outcome, response: Response)
    requires retries >= 2 && outcome(1) == Responded(response) && response.status >= 400
    ensures Retry(retries, outcome, false).result == Ok(Some(response))
    ensures Retry(retries, outcome, true).attempts >= 2
  {
    RetryStopsAt(retries, outcome, false, 1);
    RetryShape(retries, outcome, true);
  }

  /** With fewer than one retry, reading the body fails. */
  lemma NoAttemptNoText(retries: int, outcome: nat -> Outcome, checkStatus: bool)
    requires retries < 1
    ensures ResponseText(Retry(retries, outcome, checkStatus)).Err?
    ensures ResponseText(Retry(retries, outcome, checkStatus)).error.AttributeError?
  {
  }
}
