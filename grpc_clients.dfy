/**
 * `SimpleInterceptor`: a pass-through interceptor on the gRPC client. It calls the
 * continuation once and hands back that call, with the pending response wrapped in
 * a handler that only logs before returning the response or rethrowing.
 */
module SimpleInterceptor {
  import opened Grpc

  /** `HandleResponse`: awaits the response, logs, and returns it or rethrows the same exception. */
  function HandleResponse<T>(t: Outcome<T>): (r: Outcome<T>)
    ensures r == t
  {
    match t
    case Returned(response) => Returned(response)
    case Thrown(ex) => Thrown(ex)
  }

  /**
   * `AsyncUnaryCall`: the returned call is the continuation's call: the same
   * response or exception, and the headers, status, trailers and dispose of that
   * one physical call.
   */
  function AsyncUnaryCall<Req, Ctx, T>(request: Req, context: Ctx,
                                       continuation: (Req, Ctx) -> Grpc.AsyncUnaryCall<T>): (r: Grpc.AsyncUnaryCall<T>)
    ensures r == continuation(request, context)
  {
    var call := continuation(request, context);
    Grpc.AsyncUnaryCall(HandleResponse(call.responseAsync), call.responseHeadersAsync,
                        call.getStatus, call.getTrailers, call.dispose)
  }
}

/**
 * `GrpcClients`: recovering a gRPC status from an HTTP response, and the retry
 * policy installed on the HTTP handler of the Greeter client.
 */
module GrpcClients {
  import opened Wrappers
  import opened Grpc
  import opened NumberParsing
  import Retry

  const HttpOK: int := 200

  /** One response header. Names are compared exactly as given. */
  datatype Header = Header(name: string, value: string)

  /** An `HttpResponseMessage`: the HTTP status and the response headers, in order. */
  datatype HttpResponse = HttpResponse(statusCode: int, headers: seq<Header>)

  const GrpcStatusHeader: string := "grpc-status"

  /** `headers.Contains(name)` */
  predicate HasHeader(headers: seq<Header>, name: string) {
    exists i :: 0 <= i < |headers| && headers[i].name == name
  }

  /** Entry `i` is the first entry named `name`. */
  predicate FirstWith(headers: seq<Header>, name: string, i: int) {
    0 <= i < |headers| && headers[i].name == name && forall j :: 0 <= j < i ==> headers[j].name != name
  }

  /** `headers.GetValues(name)`: the values of the entries with that name, in order. */
  function GetValues(headers: seq<Header>, name: string): (vs: seq<string>)
    ensures |vs| > 0 <==> HasHeader(headers, name)
    ensures forall k :: 0 <= k < |vs| ==> exists i :: 0 <= i < |headers| && headers[i].name == name && headers[i].value == vs[k]
    ensures |vs| > 0 ==> exists i :: FirstWith(headers, name, i) && headers[i].value == vs[0]
  {
    if |headers| == 0 then []
    else (if headers[0].name == name then [headers[0].value] else []) + GetValues(headers[1..], name)
  }

  /**
   * `GetStatusCode`: the gRPC status of a possibly null response. Null gives Unknown;
   * no `grpc-status` header on an HTTP 200 gives OK; a `grpc-status` header gives the
   * 32-bit integer parse of its first value whatever the HTTP status (a non-numeric
   * value raises instead of giving null); no header and any other status gives null.
   */
  function GetStatusCode(response: Option<HttpResponse>): (r: Result<Option<StatusCode>, Exception>)
    ensures r.Failure? ==> response.Some? && HasHeader(response.value.headers, GrpcStatusHeader)
    ensures r.Failure? ==> r.error.kind == FormatException || r.error.kind == OverflowException
    ensures r == Success(None) ==> response.Some? && response.value.statusCode != HttpOK
  {
    if response.None? then Success(Some(Unknown))
    else
      var headers := response.value.headers;
      if !HasHeader(headers, GrpcStatusHeader) && response.value.statusCode == HttpOK then Success(Some(OK))
      else if HasHeader(headers, GrpcStatusHeader) then
        match ParseInt32(GetValues(headers, GrpcStatusHeader)[0])
        case Success(code) => Success(Some(code))
        case Failure(e) => Failure(e)
      else Success(None)
  }

  /** The status is null exactly for a non-null response without the header and with a status other than 200. */
  lemma StatusCodeNullIff(response: Option<HttpResponse>)
    ensures GetStatusCode(response) == Success(None) <==>
      response.Some? && !HasHeader(response.value.headers, GrpcStatusHeader) && response.value.statusCode != HttpOK
  {
  }

  /**
   * Whatever the HTTP status, a response whose first `grpc-status` value is the
   * decimal rendering of a code yields that code.
   */
  lemma StatusCodeFromHeader(response: HttpResponse, code: StatusCode)
    requires HasHeader(response.headers, GrpcStatusHeader)
    requires GetValues(response.headers, GrpcStatusHeader)[0] == Format(code)
    ensures GetStatusCode(Some(response)) == Success(Some(code))
  {
    ParseFormat(code);
  }

  /**
   * A first `grpc-status` value that is not a number (an optional sign and digits,
   * with white space around them) raises a FormatException rather than giving null.
   */
  lemma StatusCodeMalformed(response: HttpResponse)
    requires HasHeader(response.headers, GrpcStatusHeader)
    requires !IsNumberText(GetValues(response.headers, GrpcStatusHeader)[0])
    ensures GetStatusCode(Some(response)) == Failure(Exception(FormatException, None))
  {
    ParseIff(GetValues(response.headers, GrpcStatusHeader)[0]);
  }

  /**
   * Whatever the HTTP status, a response with the header gives the parse of its
   * first `grpc-status` value: a code exactly when that value is white space, an
   * optional sign and digits with an Int32 value (" 5", "+5" and "05" all give 5),
   * and an OverflowException exactly when such a number does not fit in an Int32.
   */
  lemma StatusCodeFromNumber(response: HttpResponse, lead: string, sign: string, digits: string, trail: string)
    requires HasHeader(response.headers, GrpcStatusHeader)
    ensures var v := GetValues(response.headers, GrpcStatusHeader)[0];
      && (GetStatusCode(Some(response)).Success? <==> IsInt32Text(v))
      && (GetStatusCode(Some(response)) == Failure(Exception(OverflowException, None)) <==> IsNumberText(v) && !IsInt32Text(v))
    ensures IsNumberParts(lead, sign, digits, trail)
         && GetValues(response.headers, GrpcStatusHeader)[0] == Text(lead, sign, digits, trail)
         && MinInt32 <= SignedValue(sign, digits) <= MaxInt32
         ==> GetStatusCode(Some(response)) == Success(Some(SignedValue(sign, digits)))
  {
    var v := GetValues(response.headers, GrpcStatusHeader)[0];
    ParseIff(v);
    if IsNumberParts(lead, sign, digits, trail) && v == Text(lead, sign, digits, trail) {
      ParseParts(lead, sign, digits, trail);
    }
  }

  /** Null and a plain 200 without the header are the two cases giving a status without a header. */
  lemma StatusCodeWithoutHeader(response: Option<HttpResponse>)
    requires response.Some? ==> !HasHeader(response.value.headers, GrpcStatusHeader)
    ensures response.None? ==> GetStatusCode(response) == Success(Some(Unknown))
    ensures response.Some? && response.value.statusCode == HttpOK ==> GetStatusCode(response) == Success(Some(OK))
  {
  }

  /**
   * The result predicate of the policy: the status is not null, the HTTP status is
   * 200 and the status is one of the six retryable codes. It raises whatever
   * `GetStatusCode` raises.
   */
  function HandlesResult(response: HttpResponse): (r: Result<bool, Exception>)
    ensures r.Failure? <==> GetStatusCode(Some(response)).Failure?
    ensures r.Failure? ==> r.error == GetStatusCode(Some(response)).error
    ensures r == Success(true) ==> response.statusCode == HttpOK && HasHeader(response.headers, GrpcStatusHeader)
  {
    match GetStatusCode(Some(response))
    case Failure(e) => Failure(e)
    case Success(status) =>
      Success(status.Some? && response.statusCode == HttpOK && IsRetryableStatus(status.value))
  }

  /**
   * The result predicate accepts a response exactly when it is an HTTP 200 carrying
   * a well-formed `grpc-status` header with a retryable code; in particular a plain
   * 200 without the header is never accepted.
   */
  lemma HandlesResultIff(response: HttpResponse)
    ensures HandlesResult(response) == Success(true) <==>
      && response.statusCode == HttpOK
      && HasHeader(response.headers, GrpcStatusHeader)
      && ParseInt32(GetValues(response.headers, GrpcStatusHeader)[0]).Success?
      && IsRetryableStatus(ParseInt32(GetValues(response.headers, GrpcStatusHeader)[0]).value)
  {
  }

  /**
   * `HttpPolicyExtensions.HandleTransientHttpError()`, which is not part of this model:
   * the exceptions and the results it classifies as transient.
   */
  datatype TransientHttpError = TransientHttpError(
    handlesException: Exception -> bool,
    handlesResult: HttpResponse -> bool)

  /** The exception predicates: transient HTTP errors, every RpcException and every TaskCanceledException. */
  function ClassifyException(transient: TransientHttpError, e: Exception): (v: Retry.Verdict<HttpResponse>)
    ensures v.outcome == Thrown(e)
    ensures e.kind.RpcException? || e.kind == TaskCanceledException ==> v.handled
    ensures v.handled <==> transient.handlesException(e) || e.kind.RpcException? || e.kind == TaskCanceledException
  {
    Retry.Verdict(transient.handlesException(e) || e.kind.RpcException? || e.kind == TaskCanceledException, Thrown(e))
  }

  /**
   * The handling predicates of the policy in the order the library evaluates them.
   * A result is first offered to the transient check and only then to the status
   * predicate; an exception the status predicate raises is classified like an
   * exception thrown by the call.
   */
  function Classify(transient: TransientHttpError, o: Outcome<HttpResponse>): (v: Retry.Verdict<HttpResponse>)
    ensures v.outcome == o || (o.Returned? && HandlesResult(o.value).Failure? && v.outcome == Thrown(HandlesResult(o.value).error))
    ensures o.Returned? && transient.handlesResult(o.value) ==> v == Retry.Verdict(true, o)
    ensures o.Thrown? ==>
      (v.handled <==> transient.handlesException(o.error) || o.error.kind.RpcException? || o.error.kind == TaskCanceledException)
    ensures o.Returned? && !transient.handlesResult(o.value) && HandlesResult(o.value).Failure? ==>
      (v.handled <==> transient.handlesException(HandlesResult(o.value).error))
  {
    match o
    case Thrown(e) => ClassifyException(transient, e)
    case Returned(response) =>
      if transient.handlesResult(response) then Retry.Verdict(true, o)
      else
        match HandlesResult(response)
        case Success(b) => Retry.Verdict(b, o)
        case Failure(e) => ClassifyException(transient, e)
  }

  /** Every RpcException and every TaskCanceledException is retried, whatever its code. */
  lemma RpcAndCancelledAlwaysHandled(transient: TransientHttpError, e: Exception)
    requires e.kind.RpcException? || e.kind == TaskCanceledException
    ensures Classify(transient, Thrown(e)) == Retry.Verdict(true, Thrown(e))
  {
  }

  /**
   * A response the transient check does not accept is retried exactly when the
   * status predicate accepts it; when the status predicate raises, its exception
   * takes the place of the response.
   */
  lemma ClassifyResult(transient: TransientHttpError, response: HttpResponse)
    requires !transient.handlesResult(response)
    ensures var v := Classify(transient, Returned(response));
      && (HandlesResult(response).Success? ==> v == Retry.Verdict(HandlesResult(response).value, Returned(response)))
      && (HandlesResult(response).Failure? ==> v.outcome == Thrown(HandlesResult(response).error))
  {
  }

  /** One logged retry: the status recovered from the outcome and the wait in seconds. */
  datatype RetryLog = RetryLog(status: Option<StatusCode>, wait: int)

  /**
   * The on-retry hook: logs the status of the outcome's response (null, hence
   * Unknown, when the outcome is an exception). The status lookup can raise, and
   * the exception then escapes the policy.
   */
  function OnRetry(log: seq<RetryLog>, outcome: Outcome<HttpResponse>, wait: int, retryAttempt: int): (r: Result<seq<RetryLog>, Exception>)
    ensures r.Success? ==> |r.value| == |log| + 1 && r.value[..|log|] == log && r.value[|log|].wait == wait
    ensures r.Failure? <==> outcome.Returned? && GetStatusCode(Some(outcome.value)).Failure?
    ensures r.Failure? ==> r.error == GetStatusCode(Some(outcome.value)).error
    ensures r.Success? && outcome.Returned? ==> r.value[|log|].status == GetStatusCode(Some(outcome.value)).value
    ensures outcome.Thrown? ==> r.Success? && r.value[|log|].status == Some(Unknown)
  {
    var response := if outcome.Returned? then Some(outcome.value) else None;
    match GetStatusCode(response)
    case Failure(e) => Failure(e)
    case Success(status) => Success(log + [RetryLog(status, wait)])
  }

  /** `WaitAndRetryAsync(3, n => 3 + n seconds, OnRetry)` over the handling predicates above. */
  function HttpPolicy(transient: TransientHttpError, origin: nat): (p: Retry.Policy<seq<RetryLog>, HttpResponse>)
    ensures p.retryCount == 3 && p.origin == origin
  {
    Retry.Policy(
      o => Classify(transient, o),
      3,
      origin,
      (log, n) => (log, Retry.Backoff(n)),
      OnRetry)
  }

  /** An HTTP request sent through the handler: at most 4 attempts, waits `3 + n` seconds for the n supplied. */
  lemma HttpPolicyBounds(transient: TransientHttpError, origin: nat, send: (seq<RetryLog>, nat) -> Outcome<HttpResponse>)
    ensures var t := Retry.Run(HttpPolicy(transient, origin), send, [], 0);
      && 1 <= |t.outcomes| <= 4
      && (forall k :: 0 <= k < |t.waits| ==> t.waits[k] == 3 + origin + k)
      && (forall j, k :: 0 <= j < k < |t.waits| ==> t.waits[j] < t.waits[k])
  {
    Retry.RunWaits(HttpPolicy(transient, origin), send, [], 0);
  }

  /**
   * The hook raises only for a response that the transient check accepted and whose
   * `grpc-status` header does not parse: a response accepted by the status predicate
   * has already been parsed, and an exception outcome is looked up as null.
   */
  lemma OnRetryFailsOnlyForTransientMalformed(transient: TransientHttpError, o: Outcome<HttpResponse>,
                                              log: seq<RetryLog>, wait: int, n: int)
    requires Classify(transient, o).handled
    requires OnRetry(log, Classify(transient, o).outcome, wait, n).Failure?
    ensures o.Returned? && transient.handlesResult(o.value)
    ensures GetStatusCode(Some(o.value)).Failure?
    ensures OnRetry(log, Classify(transient, o).outcome, wait, n).error == GetStatusCode(Some(o.value)).error
  {
  }

  /**
   * What the caller of an HTTP request gets, for every transport: every attempt but
   * the last was retried, and when the request stops at an outcome the predicates do
   * not handle, or after the last retry, the caller gets that outcome as classified.
   */
  lemma HttpRequestEnds(transient: TransientHttpError, origin: nat, send: (seq<RetryLog>, nat) -> Outcome<HttpResponse>)
    ensures var t := Retry.Run(HttpPolicy(transient, origin), send, [], 0);
      var o := t.outcomes[|t.outcomes| - 1];
      && (forall i :: 0 <= i < |t.outcomes| - 1 ==> Classify(transient, t.outcomes[i]).handled)
      && (!Classify(transient, o).handled || |t.outcomes| == 4 ==> t.result == Classify(transient, o).outcome)
  {
    Retry.RunStopsAsClassified(HttpPolicy(transient, origin), send, [], 0);
    ClassifiedEnds(transient, origin, Retry.Run(HttpPolicy(transient, origin), send, [], 0));
  }

  /** A trace of the policy: earlier attempts were retried, and an unhandled or exhausted last outcome is given back as classified. */
  lemma ClassifiedEnds(transient: TransientHttpError, origin: nat, t: Retry.Trace<seq<RetryLog>, HttpResponse>)
    requires 1 <= |t.outcomes| == |t.states|
    requires Retry.StopsAsClassified(HttpPolicy(transient, origin), t, 0)
    ensures var o := t.outcomes[|t.outcomes| - 1];
      && (forall i :: 0 <= i < |t.outcomes| - 1 ==> Classify(transient, t.outcomes[i]).handled)
      && (!Classify(transient, o).handled || |t.outcomes| == 4 ==> t.result == Classify(transient, o).outcome)
  {
    var p := HttpPolicy(transient, origin);
    forall i | 0 <= i < |t.outcomes| ensures p.classify(t.outcomes[i]) == Classify(transient, t.outcomes[i]) {
    }
  }

  /**
   * A request that stops with retries left stopped because the hook raised: the last
   * outcome is a transient response whose `grpc-status` does not parse, and the
   * caller gets the FormatException or OverflowException of that parse.
   */
  lemma HttpRequestHookEnds(transient: TransientHttpError, origin: nat, send: (seq<RetryLog>, nat) -> Outcome<HttpResponse>)
    ensures var t := Retry.Run(HttpPolicy(transient, origin), send, [], 0);
      var o := t.outcomes[|t.outcomes| - 1];
      Classify(transient, o).handled && |t.outcomes| < 4 ==>
        && o.Returned? && transient.handlesResult(o.value)
        && GetStatusCode(Some(o.value)).Failure?
        && t.result == Thrown(GetStatusCode(Some(o.value)).error)
        && t.result.error.kind in {FormatException, OverflowException}
  {
    Retry.RunEnds(HttpPolicy(transient, origin), send, [], 0);
    HookEnds(transient, origin, Retry.Run(HttpPolicy(transient, origin), send, [], 0));
  }

  /** A trace of the policy that ends with retries left ends with the hook's exception, as the hook allows. */
  lemma HookEnds(transient: TransientHttpError, origin: nat, t: Retry.Trace<seq<RetryLog>, HttpResponse>)
    requires 1 <= |t.outcomes| == |t.states| == |t.waits| + 1
    requires Retry.EndsAsPolicySays(HttpPolicy(transient, origin), t, 0)
    ensures var o := t.outcomes[|t.outcomes| - 1];
      Classify(transient, o).handled && |t.outcomes| < 4 ==>
        && o.Returned? && transient.handlesResult(o.value)
        && GetStatusCode(Some(o.value)).Failure?
        && t.result == Thrown(GetStatusCode(Some(o.value)).error)
        && t.result.error.kind in {FormatException, OverflowException}
  {
    var p, last := HttpPolicy(transient, origin), |t.outcomes| - 1;
    var o, log, n := t.outcomes[last], t.states[last], origin + last;
    if Classify(transient, o).handled && last < 3 {
      assert p.classify(o) == Classify(transient, o);
      assert p.sleepDuration(log, n) == (log, Retry.Backoff(n));
      var h := OnRetry(log, Classify(transient, o).outcome, Retry.Backoff(n), n);
      assert h.Failure? && t.result == Thrown(h.error);
      OnRetryFailsOnlyForTransientMalformed(transient, o, log, Retry.Backoff(n), n);
    }
  }

  /**
   * A trace of the policy that meets, at an attempt with retries left, a response
   * the transient check accepts and whose `grpc-status` does not parse, ends there
   * with the parse's exception: the hook cannot have let a later attempt run.
   */
  lemma MalformedEnds(transient: TransientHttpError, origin: nat, t: Retry.Trace<seq<RetryLog>, HttpResponse>, k: nat)
    requires 1 <= |t.outcomes| == |t.states| == |t.waits| + 1
    requires Retry.EndsAsPolicySays(HttpPolicy(transient, origin), t, 0)
    requires k < 3 && k < |t.outcomes| && t.outcomes[k].Returned? && transient.handlesResult(t.outcomes[k].value)
    requires GetStatusCode(Some(t.outcomes[k].value)).Failure?
    ensures |t.outcomes| == k + 1 && t.result == Thrown(GetStatusCode(Some(t.outcomes[k].value)).error)
  {
    var p, o := HttpPolicy(transient, origin), t.outcomes[k];
    var n := origin + k;
    assert p.classify(o) == Retry.Verdict(true, o);
    assert p.sleepDuration(t.states[k], n) == (t.states[k], Retry.Backoff(n));
    assert p.onRetry(t.states[k], o, Retry.Backoff(n), n) == Failure(GetStatusCode(Some(o.value)).error);
    assert k < |t.outcomes| - 1 ==> Retry.RetriedAs(p, t.states[k], o, k, t.waits[k], t.states[k + 1]);
  }

  /**
   * For every transport: a response that the transient check accepts and whose
   * `grpc-status` does not parse, at an attempt with retries left, ends the request
   * at that attempt, and the caller gets the parse's exception instead of a retry.
   */
  lemma MalformedTransientEndsAt(transient: TransientHttpError, origin: nat,
                                 send: (seq<RetryLog>, nat) -> Outcome<HttpResponse>, k: nat)
    requires k < 3 && k < |Retry.Run(HttpPolicy(transient, origin), send, [], 0).outcomes|
    requires Retry.Run(HttpPolicy(transient, origin), send, [], 0).outcomes[k].Returned?
    requires transient.handlesResult(Retry.Run(HttpPolicy(transient, origin), send, [], 0).outcomes[k].value)
    requires GetStatusCode(Some(Retry.Run(HttpPolicy(transient, origin), send, [], 0).outcomes[k].value)).Failure?
    ensures var t := Retry.Run(HttpPolicy(transient, origin), send, [], 0);
      && |t.outcomes| == k + 1
      && t.result == Thrown(GetStatusCode(Some(t.outcomes[k].value)).error)
  {
    Retry.RunEnds(HttpPolicy(transient, origin), send, [], 0);
    MalformedEnds(transient, origin, Retry.Run(HttpPolicy(transient, origin), send, [], 0), k);
  }

  /**
   * For instance: a 503 response with `grpc-status: abc` that the transient check
   * accepts ends the request after one attempt with the hook's FormatException,
   * instead of being retried.
   */
  lemma MalformedTransientEndsRequest(transient: TransientHttpError, origin: nat,
                                      send: (seq<RetryLog>, nat) -> Outcome<HttpResponse>)
    requires send([], 0) == Returned(HttpResponse(503, [Header(GrpcStatusHeader, "abc")]))
    requires transient.handlesResult(HttpResponse(503, [Header(GrpcStatusHeader, "abc")]))
    ensures var t := Retry.Run(HttpPolicy(transient, origin), send, [], 0);
      |t.outcomes| == 1 && t.result == Thrown(Exception(FormatException, None))
  {
    var response := HttpResponse(503, [Header(GrpcStatusHeader, "abc")]);
    assert response.headers[0].name == GrpcStatusHeader;
    assert GetValues(response.headers, GrpcStatusHeader) == ["abc"];
    ParseWithoutDigits("abc");
    ParseIff("abc");
    StatusCodeMalformed(response);
  }
}
