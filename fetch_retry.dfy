/**
 * `fetchWithRetry`: call `fetch` up to `retries + 1` times, waiting `backoffMs * 2^k` after the
 * failed attempt `k` (except the last), and return the first OK response or throw.
 * The network is the function `fetch`, giving what the call numbered `k` (from 0) did;
 * the waits are returned instead of slept.
 */
module FetchRetry {
  import opened Wrappers
  import opened Strings

  const DefaultRetries: int := 2
  const DefaultBackoffMs: int := 300
  const GenericFailureMessage: string := "fetchWithRetry failed"

  /** A thrown JavaScript value: an `Error` instance with its message, or anything else. */
  datatype Thrown = ErrorInstance(message: string) | NonErrorValue

  datatype Response = Response(ok: bool, status: int)

  /** What one call of `fetch` did: resolve to a response, or reject with a thrown value. */
  datatype Outcome = Responded(response: Response) | Rejected(reason: Thrown)

  /** One run: its result, the number of `fetch` calls made, and the waits between them. */
  datatype Run = Run(result: Result<Response, Thrown>, calls: nat, waits: seq<int>)

  function IntToString(n: int): string {
    if n < 0 then "-" + NatToString(-n) else NatToString(n)
  }

  /** Only an OK response ends the loop; every other outcome is retried alike. */
  predicate Succeeded(o: Outcome) {
    o.Responded? && o.response.ok
  }

  /** The value caught for a failed attempt: a non-OK response becomes `Error('HTTP <status>')`. */
  function AttemptError(o: Outcome): (e: Thrown)
    requires !Succeeded(o)
    ensures o.Rejected? ==> e == o.reason
    ensures o.Responded? ==> e == ErrorInstance("HTTP " + IntToString(o.response.status))
  {
    match o
    case Responded(response) => ErrorInstance("HTTP " + IntToString(response.status))
    case Rejected(reason) => reason
  }

  /** The final `throw`: the last error when it is an `Error`, otherwise a generic one. */
  function Rethrown(lastError: Option<Thrown>): (e: Thrown)
    ensures e.ErrorInstance?
    ensures lastError.Some? && lastError.value.ErrorInstance? ==> e == lastError.value
    ensures !(lastError.Some? && lastError.value.ErrorInstance?) ==> e == ErrorInstance(GenericFailureMessage)
  {
    match lastError
    case Some(ErrorInstance(message)) => ErrorInstance(message)
    case _ => ErrorInstance(GenericFailureMessage)
  }

  function Pow2(k: nat): (r: nat)
    ensures r >= 1
  {
    if k == 0 then 1 else 2 * Pow2(k - 1)
  }

  /** The wait after failed attempt `k`. */
  function Backoff(backoffMs: int, k: nat): int {
    backoffMs * Pow2(k)
  }

  /** The loop from attempt number `attempt` on. */
  function AttemptsFrom(fetch: nat -> Outcome, retries: int, backoffMs: int, attempt: nat): (run: Run)
    requires attempt <= retries
    ensures attempt < run.calls <= retries + 1
    ensures |run.waits| == run.calls - 1 - attempt
    ensures forall j | 0 <= j < |run.waits| :: run.waits[j] == Backoff(backoffMs, attempt + j)
    ensures forall k | attempt <= k < run.calls - 1 :: !Succeeded(fetch(k))
    ensures run.result.Success? ==> Succeeded(fetch(run.calls - 1)) && run.result.value == fetch(run.calls - 1).response
    ensures run.result.Failure? ==>
      run.calls == retries + 1 && !Succeeded(fetch(retries))
      && run.result.error == Rethrown(Some(AttemptError(fetch(retries))))
    decreases retries - attempt
  {
    var o := fetch(attempt);
    if Succeeded(o) then Run(Success(o.response), attempt + 1, [])
    else if attempt == retries then Run(Failure(Rethrown(Some(AttemptError(o)))), attempt + 1, [])
    else
      var rest := AttemptsFrom(fetch, retries, backoffMs, attempt + 1);
      Run(rest.result, rest.calls, [Backoff(backoffMs, attempt)] + rest.waits)
  }

  /**
   * The whole call: at most `retries + 1` attempts, the first OK response returned at once,
   * a wait of `backoffMs * 2^k` after each failed attempt `k` but the last, and a negative
   * `retries` making no attempt at all.
   */
  function FetchSpec(fetch: nat -> Outcome, retries: int, backoffMs: int): (run: Run)
    ensures retries < 0 ==> run == Run(Failure(ErrorInstance(GenericFailureMessage)), 0, [])
    ensures retries >= 0 ==> 1 <= run.calls <= retries + 1 && |run.waits| == run.calls - 1
    ensures forall k | 0 <= k < |run.waits| :: run.waits[k] == Backoff(backoffMs, k)
    ensures forall k | 0 <= k < run.calls - 1 :: !Succeeded(fetch(k))
    ensures run.result.Success? ==> Succeeded(fetch(run.calls - 1)) && run.result.value == fetch(run.calls - 1).response
    ensures run.result.Failure? && retries >= 0 ==>
      run.calls == retries + 1 && !Succeeded(fetch(retries))
      && run.result.error == Rethrown(Some(AttemptError(fetch(retries))))
  {
    if retries < 0 then Run(Failure(Rethrown(None)), 0, [])
    else AttemptsFrom(fetch, retries, backoffMs, 0)
  }

  /** `waits` happened before the run `run` started. */
  function After(waits: seq<int>, run: Run): Run {
    Run(run.result, run.calls, waits + run.waits)
  }

  lemma AfterAfter(earlier: seq<int>, later: seq<int>, run: Run)
    ensures After(earlier, After(later, run)) == After(earlier + later, run)
  {
    assert earlier + (later + run.waits) == (earlier + later) + run.waits;
  }

  /** One turn of the loop: return the OK response, stop after the last attempt, or wait and go on. */
  lemma AttemptStep(fetch: nat -> Outcome, retries: int, backoffMs: int, attempt: nat)
    requires attempt <= retries
    ensures Succeeded(fetch(attempt)) ==>
      AttemptsFrom(fetch, retries, backoffMs, attempt) == Run(Success(fetch(attempt).response), attempt + 1, [])
    ensures !Succeeded(fetch(attempt)) && attempt == retries ==>
      AttemptsFrom(fetch, retries, backoffMs, attempt) == Run(Failure(Rethrown(Some(AttemptError(fetch(attempt))))), attempt + 1, [])
    ensures !Succeeded(fetch(attempt)) && attempt < retries ==>
      AttemptsFrom(fetch, retries, backoffMs, attempt) == After([Backoff(backoffMs, attempt)], AttemptsFrom(fetch, retries, backoffMs, attempt + 1))
  {
  }

  /** `fetchWithRetry`, with the attempt loop as written. */
  method FetchWithRetry(fetch: nat -> Outcome, retries: int, backoffMs: int)
    returns (result: Result<Response, Thrown>, calls: nat, waits: seq<int>)
    ensures Run(result, calls, waits) == FetchSpec(fetch, retries, backoffMs)
  {
    var attempt: nat := 0;
    var lastError: Option<Thrown> := None;
    waits := [];
    calls := 0;
    if retries >= 0 {
      assert [] + AttemptsFrom(fetch, retries, backoffMs, 0).waits == AttemptsFrom(fetch, retries, backoffMs, 0).waits;
    }
    while attempt <= retries
      invariant retries >= 0 ==> attempt <= retries
      invariant calls == attempt
      invariant retries < 0 ==> attempt == 0 && lastError.None? && waits == []
      invariant retries >= 0 ==> AttemptsFrom(fetch, retries, backoffMs, 0) == After(waits, AttemptsFrom(fetch, retries, backoffMs, attempt))
      decreases retries - attempt
    {
      var o := fetch(attempt);
      calls := calls + 1;
      if Succeeded(o) {
        AttemptStep(fetch, retries, backoffMs, attempt);
        assert waits + [] == waits;
        return Success(o.response), calls, waits;
      }
      lastError := Some(AttemptError(o));
      if attempt == retries {
        AttemptStep(fetch, retries, backoffMs, attempt);
        assert waits + [] == waits;
        return Failure(Rethrown(lastError)), calls, waits;
      }
      AttemptStep(fetch, retries, backoffMs, attempt);
      AfterAfter(waits, [Backoff(backoffMs, attempt)], AttemptsFrom(fetch, retries, backoffMs, attempt + 1));
      waits := waits + [Backoff(backoffMs, attempt)];
      attempt := attempt + 1;
    }
    result := Failure(Rethrown(lastError));
  }

  /** None of the attempts numbered `from` up to `n - 1` gets an OK response. */
  predicate AllFail(fetch: nat -> Outcome, from: nat, n: nat) {
    forall k | from <= k < n :: !Succeeded(fetch(k))
  }

  lemma {:induction false} FirstOkFrom(fetch: nat -> Outcome, retries: int, backoffMs: int, attempt: nat, k: nat)
    requires attempt <= k <= retries
    requires Succeeded(fetch(k)) && AllFail(fetch, attempt, k)
    ensures AttemptsFrom(fetch, retries, backoffMs, attempt).result == Success(fetch(k).response)
    ensures AttemptsFrom(fetch, retries, backoffMs, attempt).calls == k + 1
    decreases k - attempt
  {
    if attempt < k {
      assert !Succeeded(fetch(attempt));
      FirstOkFrom(fetch, retries, backoffMs, attempt + 1, k);
    }
  }

  /** The first OK response within the attempt budget is the one returned, after exactly that many calls. */
  lemma FirstOkReturned(fetch: nat -> Outcome, retries: int, backoffMs: int, k: nat)
    requires k <= retries
    requires Succeeded(fetch(k)) && AllFail(fetch, 0, k)
    ensures FetchSpec(fetch, retries, backoffMs).result == Success(fetch(k).response)
    ensures FetchSpec(fetch, retries, backoffMs).calls == k + 1
  {
    FirstOkFrom(fetch, retries, backoffMs, 0, k);
  }

  lemma {:induction false} ExhaustedFrom(fetch: nat -> Outcome, retries: int, backoffMs: int, attempt: nat)
    requires attempt <= retries && AllFail(fetch, attempt, retries + 1)
    ensures var run := AttemptsFrom(fetch, retries, backoffMs, attempt);
      run.calls == retries + 1 && run.result == Failure(Rethrown(Some(AttemptError(fetch(retries)))))
    decreases retries - attempt
  {
    assert !Succeeded(fetch(attempt));
    if attempt < retries {
      ExhaustedFrom(fetch, retries, backoffMs, attempt + 1);
    }
  }

  /** When every attempt fails, the run throws after exactly `retries + 1` calls and `retries` waits. */
  lemma ExhaustedRunThrows(fetch: nat -> Outcome, retries: int, backoffMs: int)
    requires retries >= 0 && AllFail(fetch, 0, retries + 1)
    ensures var run := FetchSpec(fetch, retries, backoffMs);
      run.calls == retries + 1 && |run.waits| == retries
      && run.result == Failure(Rethrown(Some(AttemptError(fetch(retries)))))
  {
    ExhaustedFrom(fetch, retries, backoffMs, 0);
  }

  /** With the default options and every attempt failing, there are three calls and the waits are 300 ms then 600 ms. */
  lemma DefaultWaits(fetch: nat -> Outcome)
    requires AllFail(fetch, 0, 3)
    ensures FetchSpec(fetch, DefaultRetries, DefaultBackoffMs).calls == 3
    ensures FetchSpec(fetch, DefaultRetries, DefaultBackoffMs).waits == [300, 600]
  {
    ExhaustedRunThrows(fetch, DefaultRetries, DefaultBackoffMs);
    var w := FetchSpec(fetch, DefaultRetries, DefaultBackoffMs).waits;
    assert w[0] == 300 * Pow2(0);
    assert w[1] == 300 * Pow2(1);
  }

  /** Each wait is twice the one before it. */
  lemma WaitsDouble(fetch: nat -> Outcome, retries: int, backoffMs: int, k: nat)
    requires k + 1 < |FetchSpec(fetch, retries, backoffMs).waits|
    ensures FetchSpec(fetch, retries, backoffMs).waits[k + 1] == 2 * FetchSpec(fetch, retries, backoffMs).waits[k]
  {
    var w := FetchSpec(fetch, retries, backoffMs).waits;
    var p := Pow2(k);
    assert w[k] == backoffMs * p;
    assert w[k + 1] == backoffMs * (2 * p);
    assert backoffMs * (2 * p) == 2 * (backoffMs * p);
  }

  /**
   * `fetch2` does what `fetch1` does, except that each failed attempt of `fetch1` is, in `fetch2`,
   * a rejection with the error that attempt is caught as.
   */
  predicate FailuresAsRejections(fetch1: nat -> Outcome, fetch2: nat -> Outcome, retries: int) {
    forall k | 0 <= k <= retries ::
      fetch2(k) == if Succeeded(fetch1(k)) then fetch1(k) else Rejected(AttemptError(fetch1(k)))
  }

  /** From attempt `attempt` on, the two networks give the same run. */
  lemma {:induction false} SameRunFrom(fetch1: nat -> Outcome, fetch2: nat -> Outcome, retries: int, backoffMs: int, attempt: nat)
    requires attempt <= retries && FailuresAsRejections(fetch1, fetch2, retries)
    ensures AttemptsFrom(fetch1, retries, backoffMs, attempt) == AttemptsFrom(fetch2, retries, backoffMs, attempt)
    decreases retries - attempt
  {
    var o1, o2 := fetch1(attempt), fetch2(attempt);
    assert Succeeded(o1) <==> Succeeded(o2);
    if !Succeeded(o1) {
      assert AttemptError(o2) == AttemptError(o1);
      if attempt < retries {
        SameRunFrom(fetch1, fetch2, retries, backoffMs, attempt + 1);
      }
    }
  }

  /**
   * A non-OK response and a rejection with the same `Error` are retried and reported alike, in any
   * run, successful or not: there is no status classification.
   */
  lemma NoStatusClassification(fetch1: nat -> Outcome, fetch2: nat -> Outcome, retries: int, backoffMs: int)
    requires FailuresAsRejections(fetch1, fetch2, retries)
    ensures FetchSpec(fetch1, retries, backoffMs) == FetchSpec(fetch2, retries, backoffMs)
  {
    if retries >= 0 {
      SameRunFrom(fetch1, fetch2, retries, backoffMs, 0);
    }
  }
}
