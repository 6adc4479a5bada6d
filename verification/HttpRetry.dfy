/** The retry loop of the HTTP client, over any sequence of transfer outcomes. */
module HttpRetry {
  import opened Common

  /** Setters and constructors clamp the counts and delays at zero. */
  datatype HttpOptions = HttpOptions(maxRetryCount: nat, baseBackoffMs: nat, maxBackoffMs: nat, caBundle: Result<string>)

  datatype Curl = CouldntConnect | CouldntResolveHost | OperationTimedOut | OtherCode(code: int)

  /** One `curl_easy_perform`, with the bytes its write callback delivered. */
  datatype Transfer =
    | Failed(code: Curl, received: string)
    | Answered(status: int, received: string)

  predicate Is2xx(status: int) { 200 <= status < 300 }

  predicate Retryable(status: int) { status in {408, 429, 500, 502, 503, 504} }

  predicate Fatal(t: Transfer) { t.Failed? && t.code.OtherCode? }

  /** A transfer after which no other is tried. */
  predicate Final(t: Transfer) { Fatal(t) || (t.Answered? && !Retryable(t.status)) }

  // ---------------------------------------------------------------------------
  // Delays
  // ---------------------------------------------------------------------------

  /** The upper end of the jitter before the `k`-th retry, as the loop maintains it. */
  function Window(options: HttpOptions, k: nat): nat
    requires k >= 1
  {
    if k == 1 then options.baseBackoffMs else Min(2 * Window(options, k - 1), options.maxBackoffMs)
  }

  function Pow2(k: nat): nat { if k == 0 then 1 else 2 * Pow2(k - 1) }

  /** Exponential backoff: base at first, then base doubled each time, capped. */
  lemma {:induction false} WindowExact(options: HttpOptions, k: nat)
    requires k >= 1
    ensures Window(options, k) ==
            if k == 1 then options.baseBackoffMs else Min(options.baseBackoffMs * Pow2(k - 1), options.maxBackoffMs)
  {
    if k == 2 {
      assert Pow2(1) == 2 * Pow2(0);
    } else if k > 2 {
      WindowExact(options, k - 1);
      var base, p := options.baseBackoffMs, Pow2(k - 2);
      assert base * Pow2(k - 1) == 2 * (base * p) by {
        assert Pow2(k - 1) == 2 * p;
      }
    }
  }

  /** The maximum is not applied to the first delay: it bounds them all iff base is below it. */
  lemma MaximumHoldsIff(options: HttpOptions)
    ensures (forall k: nat :: k >= 1 ==> Window(options, k) <= options.maxBackoffMs) <==> options.baseBackoffMs <= options.maxBackoffMs
  {
    assert Window(options, 1) == options.baseBackoffMs;
  }

  /** Doubling stays within twice the larger setting, so it fits a `long` whenever that does. */
  lemma {:induction false} WindowFits(options: HttpOptions, k: nat)
    requires k >= 1
    ensures 2 * Window(options, k) <= 2 * Max(options.baseBackoffMs, options.maxBackoffMs)
  {
    if k > 1 {
      WindowFits(options, k - 1);
    }
  }

  function Sum(delays: seq<nat>): nat {
    if delays == [] then 0 else Sum(delays[..|delays| - 1]) + delays[|delays| - 1]
  }

  ghost predicate Paced(options: HttpOptions, delays: seq<nat>) {
    forall k :: 0 <= k < |delays| ==> InWindow(options, delays[k], k + 1)
  }

  predicate InWindow(options: HttpOptions, delay: nat, k: nat) {
    k >= 1 && delay <= Window(options, k)
  }

  /** All the waiting of a request together. */
  lemma {:induction false} TotalDelay(options: HttpOptions, delays: seq<nat>)
    requires Paced(options, delays)
    ensures delays != [] ==> Sum(delays) <= options.baseBackoffMs + (|delays| - 1) * options.maxBackoffMs
  {
    if delays != [] {
      hide Window;
      var front, last := delays[..|delays| - 1], |delays| - 1;
      forall k | 0 <= k < |front| ensures InWindow(options, front[k], k + 1) {
        assert front[k] == delays[k] && InWindow(options, delays[k], k + 1);
      }
      TotalDelay(options, front);
      assert InWindow(options, delays[last], last + 1);
      Capped(options, last + 1);
      if front != [] {
        OneMore(|front|, options.maxBackoffMs);
      }
    }
  }

  lemma Capped(options: HttpOptions, k: nat)
    requires k >= 1
    ensures Window(options, k) <= if k == 1 then options.baseBackoffMs else options.maxBackoffMs
  {
  }

  lemma OneMore(n: nat, m: nat)
    requires n >= 1
    ensures n * m == (n - 1) * m + m
  {
  }

  // ---------------------------------------------------------------------------
  // The request
  // ---------------------------------------------------------------------------

  /** How many attempts a sequence of outcomes leads to. */
  ghost predicate Attempts(outcomes: nat -> Transfer, maxRetryCount: nat, n: nat) {
    && 1 <= n <= maxRetryCount + 1
    && (forall i :: 0 <= i < n - 1 ==> !Final(outcomes(i)))
    && (n == maxRetryCount + 1 || Final(outcomes(n - 1)))
  }

  lemma AttemptsDetermined(outcomes: nat -> Transfer, maxRetryCount: nat, n: nat, n': nat)
    requires Attempts(outcomes, maxRetryCount, n) && Attempts(outcomes, maxRetryCount, n')
    ensures n == n'
  {
    assert n == maxRetryCount + 1 || Final(outcomes(n - 1));
    assert n' == maxRetryCount + 1 || Final(outcomes(n' - 1));
  }

  /** The latest of the first `n` attempts that got an HTTP response. */
  function LatestAnswer(outcomes: nat -> Transfer, n: nat): (r: Option<nat>)
    ensures r.Some? ==> r.value < n && outcomes(r.value).Answered? && forall i :: r.value < i < n ==> !outcomes(i).Answered?
    ensures r.None? ==> forall i :: 0 <= i < n ==> !outcomes(i).Answered?
  {
    if n == 0 then None
    else if outcomes(n - 1).Answered? then Some(n - 1)
    else LatestAnswer(outcomes, n - 1)
  }

  /** What the caller is left with after `n` attempts. */
  datatype Reply = Reply(error: Option<Error>, status: int, body: string)

  ghost predicate IsReply(outcomes: nat -> Transfer, n: nat, initialStatus: int, reply: Reply)
    requires n >= 1
  {
    var answer := LatestAnswer(outcomes, n);
    && reply.error == (if answer.Some? && !Fatal(outcomes(n - 1)) then None else Some(InternalError))
    && reply.status == (if answer.Some? then outcomes(answer.value).status else initialStatus)
    && reply.body == outcomes(n - 1).received
  }

  /** `do_request_as_string`; `sleeps` are the delays it has slept. */
  method DoRequest(options: HttpOptions, initialStatus: int, outcomes: nat -> Transfer, random: nat -> nat)
    returns (reply: Reply, attempts: nat, sleeps: seq<nat>)
    ensures options.caBundle.Err? || options.caBundle.value == "" ==>
              attempts == 0 && sleeps == [] && reply == Reply(Some(InternalError), initialStatus, "")
    ensures options.caBundle.Ok? && options.caBundle.value != "" ==>
              && Attempts(outcomes, options.maxRetryCount, attempts)
              && IsReply(outcomes, attempts, initialStatus, reply)
              && |sleeps| == attempts - 1 && Paced(options, sleeps)
    ensures forall i :: 0 <= i < attempts - 1 && outcomes(i).Answered? ==>
              var s := outcomes(i).status; s == 408 || s == 429 || s == 500 || s == 502 || s == 503 || s == 504
    ensures forall i :: 0 <= i < attempts - 1 && outcomes(i).Failed? ==>
              var c := outcomes(i).code; c == CouldntConnect || c == CouldntResolveHost || c == OperationTimedOut
    ensures 1 <= attempts <= options.maxRetryCount && outcomes(attempts - 1).Answered? ==>
              var s := outcomes(attempts - 1).status; s != 408 && s != 429 && s != 500 && s != 502 && s != 503 && s != 504
    ensures 1 <= attempts <= options.maxRetryCount && outcomes(attempts - 1).Failed? ==> outcomes(attempts - 1).code.OtherCode?
  {
    sleeps := [];
    var status, response := initialStatus, "";
    if options.caBundle.Err? || options.caBundle.value == "" {
      return Reply(Some(InternalError), status, response), 0, sleeps;
    }
    var lastError := Some(InternalError);
    var curTry: nat := 0;
    var backoff: nat := options.baseBackoffMs;
    while curTry <= options.maxRetryCount
      invariant curTry <= options.maxRetryCount + 1
      invariant forall i :: 0 <= i < curTry ==> !Final(outcomes(i))
      invariant |sleeps| == Max(curTry - 1, 0) && Paced(options, sleeps)
      invariant curTry >= 1 ==> backoff == Window(options, curTry)
      invariant curTry == 0 ==> backoff == options.baseBackoffMs
      invariant curTry >= 1 ==> response == outcomes(curTry - 1).received
      invariant curTry == 0 ==> response == ""
      invariant var answer := LatestAnswer(outcomes, curTry);
                && status == (if answer.Some? then outcomes(answer.value).status else initialStatus)
                && lastError == (if answer.Some? then None else Some(InternalError))
      decreases options.maxRetryCount + 1 - curTry
    {
      if curTry > 0 {
        response := "";
        var jitter := random(curTry) % (backoff + 1);
        assert InWindow(options, jitter, curTry);
        sleeps := sleeps + [jitter];
        backoff := backoff * 2;
        backoff := Min(backoff, options.maxBackoffMs);
      }
      var transfer := outcomes(curTry);
      curTry := curTry + 1;
      response := response + transfer.received;
      assert response == transfer.received;
      if transfer.Failed? {
        if !transfer.code.OtherCode? {
          continue;
        }
        return Reply(Some(InternalError), status, response), curTry, sleeps;
      }
      status := transfer.status;
      if Is2xx(status) {
        return Reply(None, status, response), curTry, sleeps;
      }
      if !Retryable(status) {
        return Reply(None, status, response), curTry, sleeps;
      }
      lastError := None;
    }
    reply, attempts := Reply(lastError, status, response), curTry;
  }

  /**
   * The body handed out is always that of the last attempt, the status that of the latest
   * HTTP response. They come from one attempt exactly when the last attempt got a response.
   */
  lemma BodyAndStatus(outcomes: nat -> Transfer, n: nat, initialStatus: int, reply: Reply)
    requires n >= 1 && IsReply(outcomes, n, initialStatus, reply) && reply.error.None?
    ensures LatestAnswer(outcomes, n).Some?
    ensures var answer := LatestAnswer(outcomes, n).value;
            && reply.status == outcomes(answer).status
            && (answer == n - 1 <==> outcomes(n - 1).Answered?)
            && (outcomes(n - 1).Answered? ==> outcomes(n - 1) == Answered(reply.status, reply.body))
  {
  }

  /** A 503 with a body, then a timeout: the request succeeds with the status and no body. */
  lemma BodyLost(message: string)
    requires message != ""
    ensures var outcomes := (i: nat) => if i == 0 then Answered(503, message) else Failed(OperationTimedOut, "");
            && Attempts(outcomes, 1, 2)
            && IsReply(outcomes, 2, 0, Reply(None, 503, ""))
            && !IsReply(outcomes, 2, 0, Reply(None, 503, message))
  {
    var outcomes := (i: nat) => if i == 0 then Answered(503, message) else Failed(OperationTimedOut, "");
    assert !Final(outcomes(0));
    assert LatestAnswer(outcomes, 1) == Some(0);
    assert LatestAnswer(outcomes, 2) == LatestAnswer(outcomes, 1);
  }

  /** More retries never turn a success into a failure, unless a later transfer fails for good. */
  lemma MoreRetries(outcomes: nat -> Transfer, max: nat, max': nat, n: nat, n': nat, initialStatus: int, reply: Reply, reply': Reply)
    requires max <= max' && Attempts(outcomes, max, n) && Attempts(outcomes, max', n')
    requires IsReply(outcomes, n, initialStatus, reply) && IsReply(outcomes, n', initialStatus, reply')
    requires reply.error.None?
    ensures n <= n' && (reply'.error.None? <==> !Fatal(outcomes(n' - 1)))
  {
    assert n' == max' + 1 || Final(outcomes(n' - 1));
  }
}
