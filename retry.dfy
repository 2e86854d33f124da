/** `executeWithRateLimitAndRetries` (src/pull.ts): one rate-limiter token,
    then up to ten invocations of the remote call, sleeping `i + 1` seconds
    after a transient failure of invocation `i`.  The limiter and the timer
    are outside the model: the method reports them as a log of effects. */
module Retry {
  import opened Common
  import opened Notion

  const Retries: nat := 10

  const RequestTimeoutCode := "notionhq_client_request_timeout"
  const ResponseErrorCode := "notionhq_client_response_error"
  const ServiceUnavailableCode := "service_unavailable"

  /** The TypeError JavaScript raises when the classifier calls `includes` on
      the missing `message` of a thrown value. */
  const MessageTypeError := Exception(None, Some("Cannot read properties of undefined (reading 'includes')"))

  /** What the wrapper does beside calling: take a limiter token, invoke the
      remote call for the given attempt, or sleep for some seconds. */
  datatype Effect = TakeToken | Invoke(attempt: nat) | Sleep(seconds: nat)

  /** How a wrapped call settles, with the effects it performed in order. */
  datatype Run<+T> = Run(outcome: Settled<T>, effects: seq<Effect>)

  /** The words of an error message that make the wrapper retry. */
  const TransientWords := ["timeout", "Timeout", "limit", "Limit"]

  /** The condition of the `catch` block: `Some(true)` retries, `Some(false)`
      rethrows, `None` means evaluating it threw a TypeError.  The `||` chain
      short-circuits, so a timeout code is recognised before `message` is read,
      while the two other codes are only looked at after it. */
  function Classify(e: Exception): (r: Option<bool>)
    // the timeout code is retried whatever the message
    ensures e.code == Some(RequestTimeoutCode) ==> r == Some(true)
    // any other thrown value without a message makes the test itself throw,
    // even one carrying one of the two codes tested last
    ensures r.None? <==> e.code != Some(RequestTimeoutCode) && e.message.None?
    // a message-bearing error with one of those two codes is retried whatever it says
    ensures e.message.Some? && (e.code == Some(ResponseErrorCode) || e.code == Some(ServiceUnavailableCode)) ==>
              r == Some(true)
    // otherwise only the four words decide
    ensures e.message.Some? && e.code != Some(RequestTimeoutCode) && e.code != Some(ResponseErrorCode) &&
            e.code != Some(ServiceUnavailableCode) ==>
              (r == Some(true) <==> exists w :: w in TransientWords && Contains(e.message.value, w))
  {
    if e.code == Some(RequestTimeoutCode) then Some(true)
    else match e.message
      case None => None
      case Some(m) =>
        Some(Contains(m, "timeout") || Contains(m, "Timeout") ||
             Contains(m, "limit") || Contains(m, "Limit") ||
             e.code == Some(ResponseErrorCode) || e.code == Some(ServiceUnavailableCode))
  }

  /** An attempt outcome after which the wrapper sleeps and tries again. */
  predicate IsRetried<T>(s: Settled<T>) {
    s.Rejected? && Classify(s.error) == Some(true)
  }

  /** Invocations `i` .. 9 of the loop, as the code runs them. */
  function Attempts<T>(asyncFunction: nat -> Settled<T>, i: nat): Run<T>
    requires i < Retries
    decreases Retries - i
  {
    match asyncFunction(i)
    case Resolved(v) => Run(Resolved(v), [Invoke(i)])
    case Rejected(e) =>
      match Classify(e)
      case None => Run(Rejected(MessageTypeError), [Invoke(i)])
      case Some(transient) =>
        if !transient then Run(Rejected(e), [Invoke(i)])
        else if i + 1 == Retries then Run(Rejected(e), [Invoke(i), Sleep(i + 1)])
        else
          var rest := Attempts(asyncFunction, i + 1);
          Run(rest.outcome, [Invoke(i), Sleep(i + 1)] + rest.effects)
  }

  /** The whole wrapped call: one token, then the attempts. */
  function Execution<T>(asyncFunction: nat -> Settled<T>): Run<T> {
    var r := Attempts(asyncFunction, 0);
    Run(r.outcome, [TakeToken] + r.effects)
  }

  method ExecuteWithRateLimitAndRetries<T>(asyncFunction: nat -> Settled<T>)
    returns (outcome: Settled<T>, effects: seq<Effect>)
    ensures Run(outcome, effects) == Execution(asyncFunction)
  {
    effects := [TakeToken];
    var lastException: Option<Exception> := None;
    var i: nat := 0;
    while i < Retries
      invariant i <= Retries
      invariant i < Retries ==>
        Execution(asyncFunction) ==
        Run(Attempts(asyncFunction, i).outcome, effects + Attempts(asyncFunction, i).effects)
      invariant i == Retries ==>
        lastException.Some? && Execution(asyncFunction) == Run(Rejected(lastException.value), effects)
    {
      var attempt := asyncFunction(i);
      ghost var before := effects;
      effects := effects + [Invoke(i)];
      if attempt.Resolved? {
        outcome := attempt;
        return;
      }
      var e := attempt.error;
      lastException := Some(e);
      var transient := Classify(e);
      if transient.None? {
        outcome := Rejected(MessageTypeError);
        return;
      }
      if !transient.value {
        outcome := Rejected(e);
        return;
      }
      var secondsToWait := i + 1;
      AttemptsRetried(asyncFunction, i, before);
      effects := effects + [Sleep(secondsToWait)];
      i := i + 1;
    }
    outcome := Rejected(lastException.value);
  }

  /** One transient failure: the loop's invariant moves to the next attempt. */
  lemma AttemptsRetried<T>(asyncFunction: nat -> Settled<T>, i: nat, effects: seq<Effect>)
    requires i < Retries && IsRetried(asyncFunction(i))
    ensures var run := Attempts(asyncFunction, i);
      var step := effects + [Invoke(i)] + [Sleep(i + 1)];
      && (i + 1 < Retries ==>
            Run(run.outcome, effects + run.effects) ==
            Run(Attempts(asyncFunction, i + 1).outcome, step + Attempts(asyncFunction, i + 1).effects))
      && (i + 1 == Retries ==> Run(run.outcome, effects + run.effects) == Run(Rejected(asyncFunction(i).error), step))
  {
    if i + 1 < Retries {
      var rest := Attempts(asyncFunction, i + 1);
      assert effects + ([Invoke(i), Sleep(i + 1)] + rest.effects) == effects + [Invoke(i)] + [Sleep(i + 1)] + rest.effects;
    } else {
      assert effects + [Invoke(i), Sleep(i + 1)] == effects + [Invoke(i)] + [Sleep(i + 1)];
    }
  }

  // ---------------------------------------------------------------------
  // A closed form of the retry policy, and what follows from it.

  /** The first attempt at or after `i` that is not retried, or 10. */
  function FirstSettling<T>(asyncFunction: nat -> Settled<T>, i: nat): (k: nat)
    requires i <= Retries
    ensures i <= k <= Retries
    ensures forall j :: i <= j < k ==> IsRetried(asyncFunction(j))
    ensures k < Retries ==> !IsRetried(asyncFunction(k))
    decreases Retries - i
  {
    if i == Retries then Retries
    else if IsRetried(asyncFunction(i)) then FirstSettling(asyncFunction, i + 1)
    else i
  }

  /** Invocations `i` .. `k - 1`, each followed by its backoff sleep. */
  function Backoff(i: nat, k: nat): seq<Effect>
    requires i <= k
    decreases k - i
  {
    if i == k then [] else [Invoke(i), Sleep(i + 1)] + Backoff(i + 1, k)
  }

  /** The `j`-th backed-off invocation is attempt `i + j`, and the sleep after
      it lasts `i + j + 1` seconds: delays grow linearly. */
  lemma {:induction false} BackoffAt(i: nat, k: nat, j: nat)
    requires i <= k && j < k - i
    ensures |Backoff(i, k)| == 2 * (k - i)
    ensures Backoff(i, k)[2 * j] == Invoke(i + j) && Backoff(i, k)[2 * j + 1] == Sleep(i + j + 1)
    decreases k - i
  {
    if j == 0 {
      BackoffLength(i + 1, k);
    } else {
      BackoffAt(i + 1, k, j - 1);
    }
  }

  lemma {:induction false} BackoffLength(i: nat, k: nat)
    requires i <= k
    ensures |Backoff(i, k)| == 2 * (k - i)
    decreases k - i
  {
    if i < k { BackoffLength(i + 1, k); }
  }

  lemma {:induction false} NoTokenInBackoff(i: nat, k: nat)
    requires i <= k
    ensures TakeToken !in Backoff(i, k)
    decreases k - i
  {
    if i < k { NoTokenInBackoff(i + 1, k); }
  }

  /** How an attempt that is not retried ends the call. */
  function Settle<T>(s: Settled<T>): Settled<T> {
    match s
    case Resolved(v) => Resolved(v)
    case Rejected(e) => if Classify(e).None? then Rejected(MessageTypeError) else Rejected(e)
  }

  /** The policy stated without the loop: find the first attempt that is not
      a transient failure; everything before it backed off. */
  function ClosedForm<T>(asyncFunction: nat -> Settled<T>): Run<T> {
    var k := FirstSettling(asyncFunction, 0);
    if k < Retries then Run(Settle(asyncFunction(k)), [TakeToken] + Backoff(0, k) + [Invoke(k)])
    else Run(Rejected(asyncFunction(Retries - 1).error), [TakeToken] + Backoff(0, k))
  }

  lemma {:induction false} AttemptsClosedForm<T>(asyncFunction: nat -> Settled<T>, i: nat)
    requires i < Retries
    ensures var k := FirstSettling(asyncFunction, i);
      Attempts(asyncFunction, i) ==
        if k < Retries then Run(Settle(asyncFunction(k)), Backoff(i, k) + [Invoke(k)])
        else Run(Rejected(asyncFunction(Retries - 1).error), Backoff(i, k))
    decreases Retries - i
  {
    if IsRetried(asyncFunction(i)) && i + 1 < Retries {
      AttemptsClosedForm(asyncFunction, i + 1);
      var k := FirstSettling(asyncFunction, i + 1);
      if k < Retries {
        assert [Invoke(i), Sleep(i + 1)] + (Backoff(i + 1, k) + [Invoke(k)])
            == Backoff(i, k) + [Invoke(k)];
      }
    }
  }

  /** The loop and the closed form agree on every remote behaviour. */
  lemma ExecutionIsClosedForm<T>(asyncFunction: nat -> Settled<T>)
    ensures Execution(asyncFunction) == ClosedForm(asyncFunction)
  {
    AttemptsClosedForm(asyncFunction, 0);
    var k := FirstSettling(asyncFunction, 0);
    if k < Retries {
      assert [TakeToken] + (Backoff(0, k) + [Invoke(k)]) == [TakeToken] + Backoff(0, k) + [Invoke(k)];
    }
  }

  /** The first attempt that is not retried is pinned down by the attempts
      before it. */
  lemma FirstSettlingIs<T>(asyncFunction: nat -> Settled<T>, k: nat)
    requires k <= Retries
    requires forall j :: 0 <= j < k ==> IsRetried(asyncFunction(j))
    requires k < Retries ==> !IsRetried(asyncFunction(k))
    ensures FirstSettling(asyncFunction, 0) == k
  {
    var f := FirstSettling(asyncFunction, 0);
    var atF, atK := IsRetried(asyncFunction(f)), IsRetried(asyncFunction(k));
  }

  /** `k < 10` transient failures and then a success: that value is returned
      after exactly `k` backoff sleeps of 1, 2, .., k seconds. */
  lemma RetrySucceedsAfterTransientFailures<T>(asyncFunction: nat -> Settled<T>, k: nat, v: T)
    requires k < Retries
    requires forall j :: 0 <= j < k ==> IsRetried(asyncFunction(j))
    requires asyncFunction(k) == Resolved(v)
    ensures Execution(asyncFunction).outcome == Resolved(v)
    ensures Execution(asyncFunction).effects == [TakeToken] + Backoff(0, k) + [Invoke(k)]
  {
    FirstSettlingIs(asyncFunction, k);
    ExecutionIsClosedForm(asyncFunction);
  }

  /** A failure that is not transient is rethrown at once: nothing after the
      failing invocation is performed. */
  lemma FatalErrorIsRethrownImmediately<T>(asyncFunction: nat -> Settled<T>, k: nat, e: Exception)
    requires k < Retries
    requires forall j :: 0 <= j < k ==> IsRetried(asyncFunction(j))
    requires asyncFunction(k) == Rejected(e) && Classify(e) == Some(false)
    ensures Execution(asyncFunction).outcome == Rejected(e)
    ensures Execution(asyncFunction).effects == [TakeToken] + Backoff(0, k) + [Invoke(k)]
  {
    FirstSettlingIs(asyncFunction, k);
    ExecutionIsClosedForm(asyncFunction);
  }

  /** Ten transient failures: the last exception itself is rethrown, after
      ten invocations and ten sleeps. */
  lemma LastExceptionRethrownAfterTenFailures<T>(asyncFunction: nat -> Settled<T>)
    requires forall j :: 0 <= j < Retries ==> IsRetried(asyncFunction(j))
    ensures asyncFunction(Retries - 1).Rejected?
    ensures Execution(asyncFunction).outcome == Rejected(asyncFunction(Retries - 1).error)
    ensures Execution(asyncFunction).effects == [TakeToken] + Backoff(0, Retries)
  {
    FirstSettlingIs(asyncFunction, Retries);
    ExecutionIsClosedForm(asyncFunction);
  }

  /** Exactly one token is taken per wrapped call, before the first
      invocation, however many retries follow. */
  lemma TokenTakenOncePerCall<T>(asyncFunction: nat -> Settled<T>)
    ensures var effects := Execution(asyncFunction).effects;
      |effects| >= 2 && effects[0] == TakeToken && effects[1] == Invoke(0) &&
      TakeToken !in effects[1..]
  {
    ExecutionIsClosedForm(asyncFunction);
    ClosedFormTakesOneToken(asyncFunction);
  }

  lemma ClosedFormTakesOneToken<T>(asyncFunction: nat -> Settled<T>)
    ensures var effects := ClosedForm(asyncFunction).effects;
      |effects| >= 2 && effects[0] == TakeToken && effects[1] == Invoke(0) &&
      TakeToken !in effects[1..]
  {
    var k := FirstSettling(asyncFunction, 0);
    var b := Backoff(0, k);
    var rest := if k < Retries then b + [Invoke(k)] else b;
    assert ClosedForm(asyncFunction).effects == [TakeToken] + rest;
    NoTokenInBackoff(0, k);
    assert TakeToken !in rest;
    if k > 0 {
      BackoffAt(0, k, 0);
      assert rest[0] == b[0];
    }
    TokenFirst(rest);
  }

  lemma TokenFirst(rest: seq<Effect>)
    requires |rest| >= 1 && rest[0] == Invoke(0) && TakeToken !in rest
    ensures var effects := [TakeToken] + rest;
      |effects| >= 2 && effects[0] == TakeToken && effects[1] == Invoke(0) &&
      TakeToken !in effects[1..]
  {
    assert ([TakeToken] + rest)[1..] == rest;
  }

  /** Only the first ten invocations can influence the call. */
  lemma AtMostTenAttempts<T>(f: nat -> Settled<T>, g: nat -> Settled<T>)
    requires forall j :: 0 <= j < Retries ==> f(j) == g(j)
    ensures Execution(f) == Execution(g)
  {
    ExecutionIsClosedForm(f);
    ExecutionIsClosedForm(g);
    FirstSettlingAgrees(f, g, 0);
  }

  lemma {:induction false} FirstSettlingAgrees<T>(f: nat -> Settled<T>, g: nat -> Settled<T>, i: nat)
    requires i <= Retries
    requires forall j :: 0 <= j < Retries ==> f(j) == g(j)
    ensures FirstSettling(f, i) == FirstSettling(g, i)
    decreases Retries - i
  {
    if i < Retries { FirstSettlingAgrees(f, g, i + 1); }
  }
}
