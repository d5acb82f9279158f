/**
 * The retrying HTTP transport. Each round trip reads its retry count from the request context,
 * asks the strategy for the delay and whether retries are used up, makes one call through the
 * base transport, and, when the policy says the outcome is worth another try, waits out the
 * delay and starts over with the count one higher, unless the context finishes first.
 *
 * The base transport and the context are oracles: attempt(n) is what the base returns on the
 * call made at retry count n, and cancelled(n) says whether the context finishes before the
 * timer started after that call fires.
 */
module RetryTransport {
  import opened Wrappers
  import opened RetryStrategy
  import opened RetryOn

  /** What the context holds under the retry-count key: nothing, a uint, or a value of another type. */
  datatype ContextValue = Missing | UintValue(n: nat) | OtherValue

  /** getRetryCount: the stored uint, or 0 when there is none or it has another type. */
  function GetRetryCount(v: ContextValue): (n: nat)
    ensures v.UintValue? ==> n == v.n
    ensures !v.UintValue? ==> n == 0
  {
    match v
    case UintValue(n) => n
    case _ => 0
  }

  /** setRetryCount: the context value that carries the count. */
  function SetRetryCount(n: nat): (v: ContextValue)
    ensures v.UintValue?
  {
    UintValue(n)
  }

  /** A count stored with setRetryCount is read back unchanged. */
  lemma GetSetRetryCount(n: nat)
    ensures GetRetryCount(SetRetryCount(n)) == n
  {
  }

  /** A transport's optional strategy and optional retry policy; a missing base is the default transport. */
  datatype Transport = Transport(strategy: Option<Strategy>, retryOn: Option<On>)

  /** retryStrategy: the configured strategy, or Never. */
  function StrategyOf(t: Transport): (s: Strategy)
    ensures t.strategy.Some? ==> s == t.strategy.value
    ensures t.strategy.None? ==> s.Never?
  {
    match t.strategy
    case Some(s) => s
    case None => Never
  }

  /** What one call through the base transport gives: a response with a status code, or an error. */
  datatype Outcome = Response(code: int) | Error(failure: Failure)

  /** What RoundTrip returns: a response, an error, or the context's error after cancellation. */
  datatype Reply = Served(code: int) | Failed(failure: Failure) | Cancelled

  function ReplyOf(o: Outcome): (r: Reply)
    ensures r.Served? <==> o.Response?
    ensures o.Response? ==> r.code == o.code
    ensures o.Error? ==> r == Failed(o.failure)
  {
    match o
    case Response(code) => Served(code)
    case Error(f) => Failed(f)
  }

  /** The policy is present and its check for this kind of outcome says retry. */
  predicate WantsRetry(t: Transport, o: Outcome)
  {
    t.retryOn.Some? &&
    match o
    case Response(code) => RetriableStatus(t.retryOn.value, code)
    case Error(f) => RetriableError(t.retryOn.value, f)
  }

  /** The retries left from count n: what the recursion of RoundTrip consumes. */
  function Remaining(s: Strategy, n: nat): (k: nat)
    ensures s.ExponentialBackOff? && n < s.maxRetryCount ==> k == s.maxRetryCount - n
  {
    if s.ExponentialBackOff? && n < s.maxRetryCount then s.maxRetryCount - n else 0
  }

  /** The result of a round trip, with the number of base calls made and the delays of the timers started. */
  datatype Trace = Trace(reply: Reply, calls: nat, waits: seq<int>)

  /**
   * RoundTrip at retry count n: one base call, then a retry when retries are not used up and
   * the policy accepts the outcome; a cancelled wait returns the context's error.
   */
  function RoundTrip(t: Transport, n: nat, attempt: nat -> Outcome, cancelled: nat -> bool): (r: Trace)
    requires WellTyped(StrategyOf(t))
    ensures r.calls >= 1
    ensures |r.waits| == if r.reply.Cancelled? then r.calls else r.calls - 1
    decreases Remaining(StrategyOf(t), n)
  {
    var (sleep, exceeded) := Sleep(StrategyOf(t), n);
    var outcome := attempt(n);
    if !exceeded && WantsRetry(t, outcome) then
      if cancelled(n) then Trace(Cancelled, 1, [sleep])
      else
        var rest := RoundTrip(t, n + 1, attempt, cancelled);
        Trace(rest.reply, rest.calls + 1, [sleep] + rest.waits)
    else Trace(ReplyOf(outcome), 1, [])
  }

  /** Every call before the last was retriable, with retries left, and its wait ran out. */
  lemma {:induction false} RetriedBeforeLast(t: Transport, n: nat, attempt: nat -> Outcome, cancelled: nat -> bool)
    requires WellTyped(StrategyOf(t))
    ensures var r := RoundTrip(t, n, attempt, cancelled);
            forall k :: n <= k < n + r.calls - 1 ==>
              !Sleep(StrategyOf(t), k).1 && WantsRetry(t, attempt(k)) && !cancelled(k)
    decreases Remaining(StrategyOf(t), n)
  {
    if !Sleep(StrategyOf(t), n).1 && WantsRetry(t, attempt(n)) && !cancelled(n) {
      RetriedBeforeLast(t, n + 1, attempt, cancelled);
    }
  }

  /** Each timer started waits the strategy's delay for the retry count of the call before it. */
  lemma {:induction false} WaitsAreDelays(t: Transport, n: nat, attempt: nat -> Outcome, cancelled: nat -> bool)
    requires WellTyped(StrategyOf(t))
    ensures forall i :: 0 <= i < |RoundTrip(t, n, attempt, cancelled).waits| ==>
              RoundTrip(t, n, attempt, cancelled).waits[i] == Sleep(StrategyOf(t), n + i).0
    decreases Remaining(StrategyOf(t), n)
  {
    var s := StrategyOf(t);
    var r := RoundTrip(t, n, attempt, cancelled);
    if !Sleep(s, n).1 && WantsRetry(t, attempt(n)) && !cancelled(n) {
      WaitsAreDelays(t, n + 1, attempt, cancelled);
      var rest := RoundTrip(t, n + 1, attempt, cancelled);
      assert forall j :: 0 <= j < |rest.waits| ==> rest.waits[j] == Sleep(s, n + 1 + j).0;
      assert r.waits == [Sleep(s, n).0] + rest.waits;
      forall i | 0 <= i < |r.waits|
        ensures r.waits[i] == Sleep(s, n + i).0
      {
        if i > 0 {
          assert r.waits[i] == rest.waits[i - 1];
          assert rest.waits[i - 1] == Sleep(s, n + 1 + (i - 1)).0;
        }
      }
    }
  }

  /**
   * The last call was either cut short by the context during its wait, or is returned as it
   * came because retries were used up or the policy declined it.
   */
  lemma {:induction false} LastCall(t: Transport, n: nat, attempt: nat -> Outcome, cancelled: nat -> bool)
    requires WellTyped(StrategyOf(t))
    ensures var r := RoundTrip(t, n, attempt, cancelled);
            var last := n + r.calls - 1;
            (r.reply.Cancelled? ==> !Sleep(StrategyOf(t), last).1 && WantsRetry(t, attempt(last)) && cancelled(last)) &&
            (!r.reply.Cancelled? ==>
               r.reply == ReplyOf(attempt(last)) && (Sleep(StrategyOf(t), last).1 || !WantsRetry(t, attempt(last))))
    decreases Remaining(StrategyOf(t), n)
  {
    if !Sleep(StrategyOf(t), n).1 && WantsRetry(t, attempt(n)) && !cancelled(n) {
      LastCall(t, n + 1, attempt, cancelled);
    }
  }

  /** The number of base calls is at most one more than the retries left at the starting count. */
  lemma {:induction false} CallsBounded(t: Transport, n: nat, attempt: nat -> Outcome, cancelled: nat -> bool)
    requires WellTyped(StrategyOf(t))
    ensures RoundTrip(t, n, attempt, cancelled).calls <= Remaining(StrategyOf(t), n) + 1
    decreases Remaining(StrategyOf(t), n)
  {
    var s := StrategyOf(t);
    if !Sleep(s, n).1 && WantsRetry(t, attempt(n)) && !cancelled(n) {
      CallsBounded(t, n + 1, attempt, cancelled);
    }
  }

  /** Without a strategy, with Never, or without a policy, a round trip is exactly one base call. */
  lemma SingleCall(t: Transport, n: nat, attempt: nat -> Outcome, cancelled: nat -> bool)
    requires WellTyped(StrategyOf(t))
    requires t.strategy.None? || t.strategy == Some(Never) || t.retryOn.None?
    ensures RoundTrip(t, n, attempt, cancelled) == Trace(ReplyOf(attempt(n)), 1, [])
  {
  }

  /** A first outcome the policy declines is returned as it came, whatever the strategy. */
  lemma DeclinedIsFinal(t: Transport, n: nat, attempt: nat -> Outcome, cancelled: nat -> bool)
    requires WellTyped(StrategyOf(t)) && !WantsRetry(t, attempt(n))
    ensures RoundTrip(t, n, attempt, cancelled) == Trace(ReplyOf(attempt(n)), 1, [])
  {
  }

  /** A request that starts with its retries used up gets one call, with no wait. */
  lemma UsedUpIsFinal(t: Transport, n: nat, attempt: nat -> Outcome, cancelled: nat -> bool)
    requires WellTyped(StrategyOf(t)) && StrategyOf(t).ExponentialBackOff? && n >= StrategyOf(t).maxRetryCount
    ensures RoundTrip(t, n, attempt, cancelled) == Trace(ReplyOf(attempt(n)), 1, [])
  {
  }

  /** A context that finishes during every wait lets through only the first call. */
  lemma CancelledAtFirstWait(t: Transport, n: nat, attempt: nat -> Outcome, cancelled: nat -> bool)
    requires WellTyped(StrategyOf(t)) && cancelled(n)
    ensures RoundTrip(t, n, attempt, cancelled).calls == 1
  {
  }

  /** The transport tests' setup: back-off with five retries and the policy of the given keywords. */
  function TestTransport(base: int, max: int, entropy: int -> int, keywords: seq<string>): Transport
  {
    Transport(Some(ExponentialBackOff(base, max, 5, entropy)), Some(Parsed(keywords)))
  }

  /** The tests' two policy strings, split: the three default keywords in another order give the default. */
  lemma TestPolicies()
    ensures Parsed(["gateway-error", "retriable-4xx", "connect-failure"]) == Default
    ensures Parsed(["gateway-error", "retriable-4xx"]) == Default.(connectFailure := false)
  {
    var toks := ["gateway-error", "retriable-4xx", "connect-failure"];
    assert toks[..1][..0] == [] && toks[..1] == ["gateway-error"];
    assert toks[..2][..1] == toks[..1] && toks[..2] == ["gateway-error", "retriable-4xx"];
    assert Codes(toks[..1]) == [];
    assert Codes(toks[..2]) == [];
    assert toks[..|toks| - 1] == toks[..2];
  }

  /** The transport tests: what each sequence of base outcomes comes back as. */
  lemma TransportExamples(base: int, max: int, entropy: int -> int)
    requires InInt64(base) && InInt64(max)
    ensures var t := TestTransport(base, max, entropy, ["gateway-error", "retriable-4xx", "connect-failure"]);
            var never := (k: nat) => false;
            // always 200: one call
            RoundTrip(t, 0, (k: nat) => Response(200), never) == Trace(Served(200), 1, []) &&
            // an error that is not temporary: returned after one call
            RoundTrip(t, 0, (k: nat) => Error(OtherError), never) == Trace(Failed(OtherError), 1, []) &&
            // a temporary error, then 200: the retry succeeds on the second call
            RoundTrip(t, 0, (k: nat) => if k == 0 then Error(Temporary) else Response(200), never).reply == Served(200) &&
            // 503, then 200: the retry succeeds on the second call
            RoundTrip(t, 0, (k: nat) => if k == 0 then Response(503) else Response(200), never).reply == Served(200)
    ensures var t := TestTransport(base, max, entropy, ["gateway-error", "retriable-4xx"]);
            // without connect-failure a temporary error is returned at once
            RoundTrip(t, 0, (k: nat) => if k == 0 then Error(Temporary) else Response(200), (k: nat) => false) ==
              Trace(Failed(Temporary), 1, [])
  {
    TestPolicies();
    DefaultStatuses(200);
    DefaultStatuses(503);
  }
}
