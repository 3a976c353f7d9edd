/**
 * `PollyInterceptor`: calls the continuation once and wraps the awaiting of its
 * response in a retry policy for RpcExceptions with one of the six transient
 * statuses. Every attempt awaits the same pending response, so every attempt has the same
 * outcome as the first.
 */
module PollyInterceptor {
  import opened Wrappers
  import opened Grpc
  import Retry

  /** `Handle<RpcException>(ex => GRpcErrors.Contains(ex.StatusCode))`; the handled exception is the one thrown. */
  function Classify<T>(o: Outcome<T>): (v: Retry.Verdict<T>)
    ensures v.outcome == o
  {
    Retry.Verdict(o.Thrown? && o.error.kind.RpcException? && IsRetryableStatus(o.error.kind.status), o)
  }

  /** Only an RpcException whose status is one of the six transient statuses is retried. */
  lemma ClassifyIff<T>(o: Outcome<T>)
    ensures Classify(o).handled <==>
      o.Thrown? && o.error.kind.RpcException? && o.error.kind.status in RetryableStatusCodes
  {
  }

  /** One line logged by the on-retry hook: the status and the wait in seconds. */
  datatype RetryLog = RetryLog(status: StatusCode, wait: int)

  /** The on-retry hook: logs the status and the wait for an RpcException; logs nothing otherwise. */
  function OnRetry<T>(log: seq<RetryLog>, o: Outcome<T>, wait: int, retryAttempt: int): (r: Result<seq<RetryLog>, Exception>)
    ensures r.Success?
    ensures o.Thrown? && o.error.kind.RpcException? ==> r.value == log + [RetryLog(o.error.kind.status, wait)]
    ensures !(o.Thrown? && o.error.kind.RpcException?) ==> r.value == log
  {
    if o.Thrown? && o.error.kind.RpcException? then Success(log + [RetryLog(o.error.kind.status, wait)])
    else Success(log)
  }

  /** `WaitAndRetryAsync(3, n => 3 + n seconds, hook)` over `Classify`. */
  function Policy<T>(origin: nat): (p: Retry.Policy<seq<RetryLog>, T>)
    ensures p.retryCount == 3 && p.origin == origin
  {
    Retry.Policy(Classify, 3, origin, (log, n) => (log, Retry.Backoff(n)), OnRetry)
  }

  /**
   * Every attempt awaits the same pending response `t`. The ensures only unfolds the
   * body for the provers; what the attempts see is stated by `RunSame`.
   */
  function AwaitSame<T>(t: Outcome<T>): (op: (seq<RetryLog>, nat) -> Outcome<T>)
    ensures forall log, i :: op(log, i) == t
  {
    (log: seq<RetryLog>, i: nat) => t
  }

  /** The trace of awaiting `t` under the policy, from the attempt with index `tries`. */
  function PollyRun<T>(origin: nat, t: Outcome<T>, log: seq<RetryLog>, tries: nat): Retry.Trace<seq<RetryLog>, T>
    requires tries <= 3
  {
    Retry.Run(Policy(origin), AwaitSame(t), log, tries)
  }

  /** `k` log lines for `status`, with waits counting up from `wait`. */
  function Entries(status: StatusCode, wait: int, k: nat): (e: seq<RetryLog>)
    ensures |e| == k
    decreases k
  {
    if k == 0 then [] else [RetryLog(status, wait)] + Entries(status, wait + 1, k - 1)
  }

  /**
   * From the attempt with index `tries`: a failure with a retryable status is awaited
   * until the retries are used up and then rethrown; anything else is awaited once.
   * Every attempt sees `t` and the result is `t`.
   */
  lemma {:induction false} RunSame<T>(origin: nat, t: Outcome<T>, log: seq<RetryLog>, tries: nat)
    requires tries <= 3
    ensures |PollyRun(origin, t, log, tries).outcomes| == if Classify(t).handled then 4 - tries else 1
    ensures forall i :: 0 <= i < |PollyRun(origin, t, log, tries).outcomes| ==> PollyRun(origin, t, log, tries).outcomes[i] == t
    ensures PollyRun(origin, t, log, tries).result == t
    decreases 3 - tries
  {
    var p, op := Policy(origin), AwaitSame(t);
    var r := Retry.Run(p, op, log, tries);
    var step := Retry.Decide(p, log, op(log, tries), tries);
    if step.Next? {
      Retry.RunNext(p, op, log, tries, step.wait, step.state);
      RunSame(origin, t, step.state, tries + 1);
      var rest := Retry.Run(p, op, step.state, tries + 1);
      forall i | 0 < i < |r.outcomes| ensures r.outcomes[i] == t {
        assert r.outcomes[i] == rest.outcomes[i - 1];
      }
    }
  }

  /** A log line followed by `k` more is `k + 1` log lines. */
  lemma MoreEntries(log: seq<RetryLog>, status: StatusCode, wait: int, k: nat)
    ensures (log + [RetryLog(status, wait)]) + Entries(status, wait + 1, k) == log + Entries(status, wait, k + 1)
  {
  }

  /**
   * The log after awaiting `t` from the attempt with index `tries`: one line per retry,
   * with the status of `t` and each wait, when the status is retryable; otherwise
   * nothing is logged.
   */
  lemma {:induction false} RunSameLog<T>(origin: nat, t: Outcome<T>, log: seq<RetryLog>, tries: nat)
    requires tries <= 3
    ensures Classify(t).handled ==>
      PollyRun(origin, t, log, tries).final == log + Entries(t.error.kind.status, 3 + origin + tries, 3 - tries)
    ensures !Classify(t).handled ==> PollyRun(origin, t, log, tries).final == log
    decreases 3 - tries
  {
    var p, op := Policy(origin), AwaitSame(t);
    var step := Retry.Decide(p, log, op(log, tries), tries);
    if step.Next? {
      var w := Retry.Backoff(origin + tries);
      var log' := log + [RetryLog(t.error.kind.status, w)];
      assert step == Retry.Next(w, log');
      Retry.RunNext(p, op, log, tries, w, log');
      RunSameLog(origin, t, log', tries + 1);
      MoreEntries(log, t.error.kind.status, w, 3 - (tries + 1));
    } else if Classify(t).handled {
      assert log + Entries(t.error.kind.status, 3 + origin + tries, 0) == log;
    }
  }

  /**
   * `HandleResponse`: awaiting the wrapped response gives exactly the outcome of `t`: the
   * same response, or the same exception, after 4 awaits for a retryable status and
   * 1 otherwise.
   */
  function HandleResponse<T>(origin: nat, t: Outcome<T>): (r: Outcome<T>)
    ensures r == t
  {
    RunSame(origin, t, [], 0);
    Retry.Run(Policy(origin), AwaitSame(t), [], 0).result
  }

  /**
   * `AsyncUnaryCall`: the continuation is called once, and the returned call carries
   * that call's response (unchanged by the retries), headers, status, trailers and
   * dispose.
   */
  function AsyncUnaryCall<Req, Ctx, T>(origin: nat, request: Req, context: Ctx,
                                       continuation: (Req, Ctx) -> Grpc.AsyncUnaryCall<T>): (r: Grpc.AsyncUnaryCall<T>)
    ensures r == continuation(request, context)
  {
    var call := continuation(request, context);
    Grpc.AsyncUnaryCall(HandleResponse(origin, call.responseAsync), call.responseHeadersAsync,
                        call.getStatus, call.getTrailers, call.dispose)
  }

  /**
   * A failure with a transient status is awaited 4 times and rethrown as is, after
   * three retries logged with its status and waits summing to `12 + 3 * origin` seconds;
   * a success or any other failure is awaited once and nothing is logged.
   */
  lemma AwaitCount<T>(origin: nat, t: Outcome<T>)
    ensures Classify(t).handled ==>
      && |PollyRun(origin, t, [], 0).outcomes| == 4
      && PollyRun(origin, t, [], 0).final ==
         [RetryLog(t.error.kind.status, 3 + origin), RetryLog(t.error.kind.status, 4 + origin),
          RetryLog(t.error.kind.status, 5 + origin)]
      && Retry.Sum(PollyRun(origin, t, [], 0).waits) == 12 + 3 * origin
    ensures !Classify(t).handled ==> |PollyRun(origin, t, [], 0).outcomes| == 1 && PollyRun(origin, t, [], 0).final == []
    ensures PollyRun(origin, t, [], 0).result == t
  {
    RunSame(origin, t, [], 0);
    RunSameLog(origin, t, [], 0);
    var r := Retry.Run(Policy(origin), AwaitSame(t), [], 0);
    Retry.RunWaits(Policy(origin), AwaitSame(t), [], 0);
    Retry.SumOfWaits(r.waits, origin);
  }
}
