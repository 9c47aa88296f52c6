/** `_request_with_retry`, the wrapper every remote call of the three
    clients goes through. Each copy calls the request function up to
    `max_retries` times, sleeping `initial_delay * 2^k` seconds after the
    k-th failed attempt when that failure is retryable and another attempt
    remains. The copies differ only in which failures are retryable and in
    their defaults. The request function is an oracle: `attempt(k)` is what
    its k-th call (counting from 0) returns or raises. */
module Retry {

  /** What a failed call raised. */
  datatype Failure =
    | HttpStatus(code: int)        // requests.HTTPError with a response
    | HttpWithoutResponse          // requests.HTTPError whose response is None
    | ConnectionFailed             // requests.ConnectionError
    | TimedOut                     // requests.Timeout
    | OtherFailure(message: string)

  datatype Attempt<+T> = Ok(value: T) | Failed(failure: Failure)

  /** Which failures a copy retries. */
  datatype Policy =
    | ServerAndNetwork   // 429, 500, 502, 503, 504, connection errors and timeouts
    | RateLimitOnly      // 429 only

  predicate Retryable(policy: Policy, f: Failure)
    // only HTTP statuses, connection errors and timeouts are ever retried
    ensures Retryable(policy, f) ==> f.HttpStatus? || f.ConnectionFailed? || f.TimedOut?
    // rate limiting is retried by both copies, and is all the download service retries
    ensures f == HttpStatus(429) ==> Retryable(policy, f)
    ensures policy.RateLimitOnly? ==> (Retryable(policy, f) <==> f == HttpStatus(429))
  {
    match policy
    case ServerAndNetwork =>
      || (f.HttpStatus? && f.code in {429, 500, 502, 503, 504})
      || f.ConnectionFailed?
      || f.TimedOut?
    case RateLimitOnly => f.HttpStatus? && f.code == 429
  }

  /** `max_retries` and `initial_delay` (whole seconds) with the policy. */
  datatype Config = Config(policy: Policy, maxRetries: int, initialDelay: nat)

  /** Defaults of `HarunekoMangaService._request_with_retry`. */
  const MangaServiceDefaults := Config(ServerAndNetwork, 10, 3)
  /** Defaults of `HaruNekoDownloadService._request_with_retry`. */
  const DownloadServiceDefaults := Config(RateLimitOnly, 10, 3)
  /** Defaults of `ChapterPatternCollector._request_with_retry`. */
  const CollectorDefaults := Config(ServerAndNetwork, 5, 2)

  /** How the wrapper ends: with the request's value, by raising, or by
      falling out of an empty loop and returning `None`. */
  datatype Final<+T> = Returned(value: T) | Raised(failure: Failure) | ReturnedNone

  /** The observable trace of one wrapper call: how many times the request
      function ran, the sleeps in order, and how it ended. */
  datatype Run<+T> = Run(calls: nat, sleeps: seq<nat>, final: Final<T>)

  function Pow2(k: nat): (p: nat)
    ensures p >= 1
  {
    if k == 0 then 1 else 2 * Pow2(k - 1)
  }

  lemma NextDelay(d: nat, k: nat)
    ensures d * Pow2(k + 1) == (d * Pow2(k)) * 2
  {
    assert Pow2(k + 1) == 2 * Pow2(k);
  }

  /** The wrapper's loop from attempt `k` on. */
  function RetryFrom<T>(cfg: Config, attempt: nat -> Attempt<T>, k: nat): (r: Run<T>)
    ensures r.final.ReturnedNone? <==> k >= cfg.maxRetries
    ensures r.calls <= if k < cfg.maxRetries then cfg.maxRetries - k else 0
    ensures |r.sleeps| == if r.calls == 0 then 0 else r.calls - 1
    ensures forall i :: 0 <= i < |r.sleeps| ==> r.sleeps[i] == cfg.initialDelay * Pow2(k + i)
    ensures forall i: nat :: k <= i < k + r.calls - 1 ==>
              attempt(i).Failed? && Retryable(cfg.policy, attempt(i).failure)
    ensures r.final.Returned? ==> r.calls > 0 && attempt(k + r.calls - 1) == Ok(r.final.value)
    ensures r.final.Raised? ==>
              && r.calls > 0
              && attempt(k + r.calls - 1) == Failed(r.final.failure)
              && (!Retryable(cfg.policy, r.final.failure) || k + r.calls == cfg.maxRetries)
    decreases cfg.maxRetries - k
  {
    if k >= cfg.maxRetries then Run(0, [], ReturnedNone)
    else match attempt(k)
      case Ok(v) => Run(1, [], Returned(v))
      case Failed(f) =>
        if !Retryable(cfg.policy, f) || k == cfg.maxRetries - 1 then Run(1, [], Raised(f))
        else
          var rest := RetryFrom(cfg, attempt, k + 1);
          Run(rest.calls + 1, [cfg.initialDelay * Pow2(k)] + rest.sleeps, rest.final)
  }

  /** One call of `_request_with_retry`. */
  function Retry<T>(cfg: Config, attempt: nat -> Attempt<T>): Run<T> {
    RetryFrom(cfg, attempt, 0)
  }

  /** The wrapper as the source writes it: a counted loop with a doubling
      delay. It produces the same trace as the recursive model. */
  method RequestWithRetry<T>(cfg: Config, attempt: nat -> Attempt<T>) returns (run: Run<T>)
    ensures run == Retry(cfg, attempt)
  {
    var delay := cfg.initialDelay;
    var sleeps: seq<nat> := [];
    var k: nat := 0;
    while k < cfg.maxRetries
      invariant k == 0 || k < cfg.maxRetries
      invariant delay == cfg.initialDelay * Pow2(k)
      invariant
        var rest := RetryFrom(cfg, attempt, k);
        Retry(cfg, attempt) == Run(k + rest.calls, sleeps + rest.sleeps, rest.final)
      decreases cfg.maxRetries - k
    {
      match attempt(k) {
        case Ok(v) =>
          return Run(k + 1, sleeps, Returned(v));
        case Failed(f) =>
          if !Retryable(cfg.policy, f) || k == cfg.maxRetries - 1 {
            return Run(k + 1, sleeps, Raised(f));
          }
          ghost var rest := RetryFrom(cfg, attempt, k + 1);
          assert RetryFrom(cfg, attempt, k)
              == Run(rest.calls + 1, [delay] + rest.sleeps, rest.final);
          assert sleeps + ([delay] + rest.sleeps) == (sleeps + [delay]) + rest.sleeps;
          sleeps := sleeps + [delay];
          NextDelay(cfg.initialDelay, k);
          delay := delay * 2;
      }
      k := k + 1;
    }
    // Only an empty loop gets here: the source's closing `raise last_error`
    // is unreachable, because the last attempt always returns or raises.
    run := Run(0, sleeps, ReturnedNone);
  }

  /** At most `max_retries` calls; with `max_retries <= 0` none at all and
      the wrapper returns `None`. */
  lemma RetryCallBound<T>(cfg: Config, attempt: nat -> Attempt<T>)
    ensures Retry(cfg, attempt).calls <= if cfg.maxRetries > 0 then cfg.maxRetries else 0
    ensures Retry(cfg, attempt).final.ReturnedNone? <==> cfg.maxRetries <= 0
    ensures cfg.maxRetries <= 0 ==> Retry(cfg, attempt) == Run(0, [], ReturnedNone)
  {
  }

  /** A failure the policy does not retry is raised after the call that
      produced it, with no sleep and no further call. */
  lemma NonRetryableRaisedAtOnce<T>(cfg: Config, attempt: nat -> Attempt<T>)
    requires cfg.maxRetries >= 1
    requires attempt(0).Failed? && !Retryable(cfg.policy, attempt(0).failure)
    ensures Retry(cfg, attempt) == Run(1, [], Raised(attempt(0).failure))
  {
  }

  /** When every attempt fails retryably, the wrapper makes exactly
      `max_retries` calls, sleeps between them but not after the last, and
      raises the last attempt's failure. */
  lemma {:induction false} ExhaustedRaisesLast<T>(cfg: Config, attempt: nat -> Attempt<T>, k: nat)
    requires k < cfg.maxRetries
    requires forall i: nat :: k <= i < cfg.maxRetries ==>
               attempt(i).Failed? && Retryable(cfg.policy, attempt(i).failure)
    ensures RetryFrom(cfg, attempt, k).calls == cfg.maxRetries - k
    ensures RetryFrom(cfg, attempt, k).final == Raised(attempt(cfg.maxRetries - 1).failure)
    decreases cfg.maxRetries - k
  {
    if k < cfg.maxRetries - 1 {
      ExhaustedRaisesLast(cfg, attempt, k + 1);
    }
  }

  function Sum(s: seq<nat>): nat {
    if |s| == 0 then 0 else Sum(s[..|s| - 1]) + s[|s| - 1]
  }

  lemma {:induction false} DoublingSum(s: seq<nat>, d: nat)
    requires forall i :: 0 <= i < |s| ==> s[i] == d * Pow2(i)
    ensures Sum(s) == d * (Pow2(|s|) - 1)
  {
    if |s| > 0 {
      var n := |s| - 1;
      DoublingSum(s[..n], d);
      calc {
        Sum(s);
        d * (Pow2(n) - 1) + d * Pow2(n);
        d * (2 * Pow2(n) - 1);
      }
    }
  }

  /** The total time slept is `initial_delay * (2^s - 1)` for `s` sleeps. */
  lemma TotalSleep<T>(cfg: Config, attempt: nat -> Attempt<T>)
    ensures var r := Retry(cfg, attempt);
            Sum(r.sleeps) == cfg.initialDelay * (Pow2(|r.sleeps|) - 1)
  {
    var r := Retry(cfg, attempt);
    DoublingSum(r.sleeps, cfg.initialDelay);
  }

  /** With the manga service's defaults, `503, 503, 200` succeeds on the
      third call after sleeping 3 s and 6 s: 9 s in all before that call. */
  lemma ServiceRecoversFromTwo503s(attempt: nat -> Attempt<string>)
    requires attempt(0) == Failed(HttpStatus(503))
    requires attempt(1) == Failed(HttpStatus(503))
    requires attempt(2) == Ok("200 OK")
    ensures Retry(MangaServiceDefaults, attempt) == Run(3, [3, 6], Returned("200 OK"))
    ensures Sum(Retry(MangaServiceDefaults, attempt).sleeps) == 9
  {
  }

  /** The download service retries only 429: a connection error or a 503
      is raised after one call. */
  lemma DownloadServiceDoesNotRetryNetworkErrors(attempt: nat -> Attempt<string>)
    requires attempt(0) == Failed(ConnectionFailed) || attempt(0) == Failed(HttpStatus(503))
    ensures Retry(DownloadServiceDefaults, attempt) == Run(1, [], Raised(attempt(0).failure))
  {
  }

  /** The collector retries like the manga service, but at most five times:
      a server that always answers 502 is called 5 times, with sleeps
      2, 4, 8, 16 s. */
  lemma CollectorGivesUpAfterFive(attempt: nat -> Attempt<string>)
    requires forall i: nat :: attempt(i) == Failed(HttpStatus(502))
    ensures Retry(CollectorDefaults, attempt) == Run(5, [2, 4, 8, 16], Raised(HttpStatus(502)))
  {
    ExhaustedRaisesLast(CollectorDefaults, attempt, 0);
    var r := Retry(CollectorDefaults, attempt);
    assert |r.sleeps| == 4;
    assert r.sleeps[3] == 2 * Pow2(3);
  }
}
