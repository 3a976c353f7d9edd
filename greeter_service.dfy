/**
 * `GreeterService`: calls `SayHello` through a retry policy that handles
 * transient socket errors (at any depth of inner exceptions) and transient gRPC
 * statuses, and replaces the client stub with a new one on the same channel
 * before every retry.
 */
module Services {
  import opened Wrappers
  import opened Grpc
  import GrpcClients
  import NumberParsing
  import Retry

  /**
   * `HandleInner<SocketException>`: the first exception, outermost first, that is a
   * SocketException with a retryable code.
   */
  function FindRetryableSocket(e: Exception): (r: Option<Exception>)
    ensures r.Some? ==> r.value.kind.SocketException? && IsRetryableSocketError(r.value.kind.socketError)
    ensures r.Some? ==> r.value in Chain(e)
    decreases e
  {
    if e.kind.SocketException? && IsRetryableSocketError(e.kind.socketError) then Some(e)
    else match e.inner
      case None => None
      case Some(i) => FindRetryableSocket(i)
  }

  predicate IsRetryableSocket(e: Exception) {
    e.kind.SocketException? && IsRetryableSocketError(e.kind.socketError)
  }

  /** The inner-exception search finds the first retryable socket exception of the chain, if any. */
  lemma {:induction false} FindRetryableSocketInChain(e: Exception)
    ensures FindRetryableSocket(e).Some? <==> exists i :: 0 <= i < |Chain(e)| && IsRetryableSocket(Chain(e)[i])
    ensures FindRetryableSocket(e).Some? ==>
      exists i :: 0 <= i < |Chain(e)| && Chain(e)[i] == FindRetryableSocket(e).value &&
        (forall j :: 0 <= j < i ==> !IsRetryableSocket(Chain(e)[j]))
    decreases e
  {
    if !IsRetryableSocket(e) && e.inner.Some? {
      var i := e.inner.value;
      FindRetryableSocketInChain(i);
      assert Chain(e) == [e] + Chain(i);
      if FindRetryableSocket(i).Some? {
        assert FindRetryableSocket(e) == FindRetryableSocket(i);
        var k :| 0 <= k < |Chain(i)| && Chain(i)[k] == FindRetryableSocket(i).value &&
          (forall j :: 0 <= j < k ==> !IsRetryableSocket(Chain(i)[j]));
        assert Chain(e)[k + 1] == Chain(i)[k];
        assert IsRetryableSocket(Chain(e)[k + 1]);
        forall j | 0 <= j < k + 1 ensures !IsRetryableSocket(Chain(e)[j]) {
          if j > 0 { assert Chain(e)[j] == Chain(i)[j - 1]; }
        }
      } else {
        forall j | 0 <= j < |Chain(e)| ensures !IsRetryableSocket(Chain(e)[j]) {
          if j > 0 { assert Chain(e)[j] == Chain(i)[j - 1]; }
        }
      }
    } else if IsRetryableSocket(e) {
      assert Chain(e)[0] == e;
    } else {
      assert Chain(e) == [e];
    }
  }

  /**
   * The handling predicates, in order: `HandleInner<SocketException>` (handled
   * exception: the socket exception found), then `Or<RpcException>`. Replies are
   * never retried.
   */
  function Classify(o: Outcome<HelloReply>): (v: Retry.Verdict<HelloReply>)
    ensures o.Returned? ==> v == Retry.Verdict(false, o)
    ensures v.outcome == o || (v.handled && v.outcome.Thrown? && IsRetryableSocket(v.outcome.error) && v.outcome.error in Chain(o.error))
  {
    match o
    case Returned(_) => Retry.Verdict(false, o)
    case Thrown(e) =>
      match FindRetryableSocket(e)
      case Some(socket) => Retry.Verdict(true, Thrown(socket))
      case None => Retry.Verdict(e.kind.RpcException? && IsRetryableStatus(e.kind.status), o)
  }

  /**
   * An exception is retried exactly when a SocketException with one of the five
   * socket errors occurs in its chain, or it is itself an RpcException with one of
   * the six statuses.
   */
  lemma ClassifyIff(e: Exception)
    ensures Classify(Thrown(e)).handled <==>
      (exists i :: 0 <= i < |Chain(e)| && IsRetryableSocket(Chain(e)[i])) ||
      (e.kind.RpcException? && IsRetryableStatus(e.kind.status))
  {
    FindRetryableSocketInChain(e);
  }

  /**
   * What the policy hands back for a thrown exception, and so what `SayHello`
   * rethrows once the retries run out: the outermost transient SocketException of
   * the chain when there is one, and otherwise the exception itself.
   */
  lemma ClassifyHandsBack(e: Exception)
    ensures (forall i :: 0 <= i < |Chain(e)| ==> !IsRetryableSocket(Chain(e)[i])) ==>
      Classify(Thrown(e)).outcome == Thrown(e)
    ensures forall i ::
      (0 <= i < |Chain(e)| && IsRetryableSocket(Chain(e)[i]) &&
       (forall j :: 0 <= j < i ==> !IsRetryableSocket(Chain(e)[j]))) ==>
      Classify(Thrown(e)).outcome == Thrown(Chain(e)[i])
  {
    FindRetryableSocketInChain(e);
    if FindRetryableSocket(e).Some? {
      var k :| 0 <= k < |Chain(e)| && Chain(e)[k] == FindRetryableSocket(e).value &&
        (forall j :: 0 <= j < k ==> !IsRetryableSocket(Chain(e)[j]));
      forall i | 0 <= i < |Chain(e)| && IsRetryableSocket(Chain(e)[i]) &&
          (forall j :: 0 <= j < i ==> !IsRetryableSocket(Chain(e)[j]))
        ensures Classify(Thrown(e)).outcome == Thrown(Chain(e)[i])
      {
        assert i == k;
      }
    }
  }

  /**
   * When every attempt throws the same exception with a transient SocketException
   * in its chain, the call makes all 4 attempts and then rethrows the outermost such
   * SocketException, not the exception the attempt threw.
   */
  lemma SocketErrorExhausts(origin: nat, channel: Channel, e: Exception, i: nat,
                            op: (GreeterClient, nat) -> Outcome<HelloReply>, client: GreeterClient)
    requires i < |Chain(e)| && IsRetryableSocket(Chain(e)[i])
    requires forall j :: 0 <= j < i ==> !IsRetryableSocket(Chain(e)[j])
    requires forall c: GreeterClient, n: nat :: op(c, n) == Thrown(e)
    ensures var t := Retry.Run(SayHelloPolicy(origin, channel), op, client, 0);
      |t.outcomes| == 4 && t.result == Thrown(Chain(e)[i])
  {
    var p := SayHelloPolicy(origin, channel);
    ClassifyHandsBack(e);
    ClassifyIff(e);
    Retry.RunExhausts(p, op, client, 0);
    Retry.RunStops(p, op, client, 0);
    Retry.RunOutcomes(p, op, client, 0);
    var t := Retry.Run(p, op, client, 0);
    assert t.outcomes[3] == op(t.states[3], 3) == Thrown(e);
  }

  /**
   * The case of an unreachable server: `RpcException(Unavailable)` wrapping a
   * `SocketException(ConnectionRefused)` on every attempt ends, after 4 attempts,
   * with the SocketException.
   */
  lemma ConnectionRefusedExhausts(origin: nat, channel: Channel, client: GreeterClient)
    ensures var socket := Exception(SocketException(ConnectionRefused), None);
      var e := Exception(RpcException(Unavailable), Some(socket));
      var t := Retry.Run(SayHelloPolicy(origin, channel), (c: GreeterClient, n: nat) => Thrown(e), client, 0);
      |t.outcomes| == 4 && t.result == Thrown(socket)
  {
    var socket := Exception(SocketException(ConnectionRefused), None);
    var e := Exception(RpcException(Unavailable), Some(socket));
    assert Chain(e) == [e, socket];
    assert IsRetryableSocket(Chain(e)[1]) && !IsRetryableSocket(Chain(e)[0]);
    SocketErrorExhausts(origin, channel, e, 1, (c: GreeterClient, n: nat) => Thrown(e), client);
  }

  /**
   * An RpcException with any other status, e.g. InvalidArgument, and no transient
   * socket error inside it ends the call after its attempt and is rethrown as is.
   */
  lemma FatalRpcEndsCall(origin: nat, channel: Channel, e: Exception, client: GreeterClient,
                         op: (GreeterClient, nat) -> Outcome<HelloReply>)
    requires e.kind.RpcException? && !IsRetryableStatus(e.kind.status)
    requires forall i :: 0 <= i < |Chain(e)| ==> !IsRetryableSocket(Chain(e)[i])
    requires op(client, 0) == Thrown(e)
    ensures var t := Retry.Run(SayHelloPolicy(origin, channel), op, client, 0);
      |t.outcomes| == 1 && t.waits == [] && t.final == client && t.result == Thrown(e)
  {
    FindRetryableSocketInChain(e);
    Retry.ShortCircuit(SayHelloPolicy(origin, channel), op, client, 0);
  }

  /** The on-retry hook: `_greeterClient = new Greeter.GreeterClient(_grpcChannel)`. */
  function Rebuild(channel: Channel, client: GreeterClient): (c: GreeterClient)
    ensures c.channel == channel && c.serial == client.serial + 1
  {
    GreeterClient(channel, client.serial + 1)
  }

  /** `WaitAndRetryAsync(3, n => 3 + n seconds, hook)` over the predicates above. */
  function SayHelloPolicy(origin: nat, channel: Channel): (p: Retry.Policy<GreeterClient, HelloReply>)
    ensures p.retryCount == 3 && p.origin == origin
  {
    Retry.Policy(
      Classify,
      3,
      origin,
      (client, n) => (client, Retry.Backoff(n)),
      (client, outcome, wait, n) => Success(Rebuild(channel, client)))
  }

  /**
   * One attempt: `SayHelloAsync` on the current client with name "Me!" and a
   * deadline one second after the attempt starts. The ensures only unfolds the body
   * for the provers; the requests each attempt sends are stated by `SayHelloRequests`.
   */
  function SayHelloAttempt(transport: Transport, clock: Clock): (op: (GreeterClient, nat) -> Outcome<HelloReply>)
    ensures forall client, i :: op(client, i) == transport(client, AttemptRequest(clock, i))
  {
    (client: GreeterClient, i: nat) => transport(client, AttemptRequest(clock, i))
  }

  /** The request of the attempt with index `i`: name "Me!", deadline one second after the attempt starts. */
  function AttemptRequest(clock: Clock, i: nat): HelloRequest {
    HelloRequest("Me!", clock(i) + 1)
  }

  /** After k rebuilds the field holds the k-th client built after `client`, on the same channel. */
  lemma {:induction false} RebuildIterate(channel: Channel, client: GreeterClient, k: nat)
    ensures k > 0 ==> Retry.Iterate(c => Rebuild(channel, c), client, k) == GreeterClient(channel, client.serial + k)
    decreases k
  {
    if k > 1 {
      RebuildIterate(channel, Rebuild(channel, client), k - 1);
    }
  }

  /** Attempt k (counting from 0) runs on the k-th client built after the starting one, on the same channel. */
  lemma SayHelloClients(origin: nat, channel: Channel, op: (GreeterClient, nat) -> Outcome<HelloReply>, client: GreeterClient)
    ensures var t := Retry.Run(SayHelloPolicy(origin, channel), op, client, 0);
      && t.states[0] == client
      && (forall k :: 0 < k < |t.states| ==> t.states[k] == GreeterClient(channel, client.serial + k))
      && t.final == t.states[|t.states| - 1]
  {
    var p, next := SayHelloPolicy(origin, channel), c => Rebuild(channel, c);
    Retry.RunStates(p, op, client, 0, next);
    var t := Retry.Run(p, op, client, 0);
    forall k | 0 < k < |t.states| ensures t.states[k] == GreeterClient(channel, client.serial + k) {
      RebuildIterate(channel, client, k);
    }
  }

  /** The trace of the policy's run that `SayHello` awaits, starting from `client`. */
  function SayHelloRun(origin: nat, channel: Channel, transport: Transport, clock: Clock, client: GreeterClient): Retry.Trace<GreeterClient, HelloReply> {
    Retry.Run(SayHelloPolicy(origin, channel), SayHelloAttempt(transport, clock), client, 0)
  }

  /**
   * A `SayHello` call: at most 4 attempts; attempt k runs on the k-th rebuilt client,
   * all on the service's channel; each attempt's request has its own deadline, one
   * second after that attempt starts; the waits are `3 + n` seconds for the n supplied.
   */
  lemma SayHelloTrace(origin: nat, channel: Channel, transport: Transport, clock: Clock, client: GreeterClient)
    ensures |SayHelloRun(origin, channel, transport, clock, client).outcomes| <= 4
    ensures SayHelloRun(origin, channel, transport, clock, client).states[0] == client
    ensures forall k :: 0 < k < |SayHelloRun(origin, channel, transport, clock, client).states| ==>
      SayHelloRun(origin, channel, transport, clock, client).states[k] == GreeterClient(channel, client.serial + k)
    ensures forall k :: 0 <= k < |SayHelloRun(origin, channel, transport, clock, client).outcomes| ==>
      SayHelloRun(origin, channel, transport, clock, client).outcomes[k]
        == transport(SayHelloRun(origin, channel, transport, clock, client).states[k], AttemptRequest(clock, k))
    ensures forall k :: 0 <= k < |SayHelloRun(origin, channel, transport, clock, client).waits| ==>
      SayHelloRun(origin, channel, transport, clock, client).waits[k] == 3 + origin + k
  {
    var p, op := SayHelloPolicy(origin, channel), SayHelloAttempt(transport, clock);
    SayHelloClients(origin, channel, op, client);
    SayHelloRequests(origin, channel, transport, clock, client);
    Retry.RunWaits(p, op, client, 0);
  }

  /** Each attempt sends its own request on the client recorded for it. */
  lemma SayHelloRequests(origin: nat, channel: Channel, transport: Transport, clock: Clock, client: GreeterClient)
    ensures forall k :: 0 <= k < |SayHelloRun(origin, channel, transport, clock, client).outcomes| ==>
      SayHelloRun(origin, channel, transport, clock, client).outcomes[k]
        == transport(SayHelloRun(origin, channel, transport, clock, client).states[k], AttemptRequest(clock, k))
  {
    var p, op := SayHelloPolicy(origin, channel), SayHelloAttempt(transport, clock);
    var t := SayHelloRun(origin, channel, transport, clock, client);
    Retry.RunOutcomes(p, op, client, 0);
    forall k | 0 <= k < |t.outcomes|
      ensures t.outcomes[k] == transport(t.states[k], AttemptRequest(clock, k))
    {
      assert t.outcomes[k] == op(t.states[k], 0 + k);
    }
  }

  /** The result of `SayHello`: the `Message` of the reply, or the exception that escapes. */
  function MessageOf(o: Outcome<HelloReply>): (r: Outcome<string>)
    ensures r.Returned? <==> o.Returned?
    ensures o.Returned? ==> r.value == o.value.message
    ensures o.Thrown? ==> r.error == o.error
  {
    match o
    case Returned(reply) => Returned(reply.message)
    case Thrown(e) => Thrown(e)
  }

  /** `GreeterService.GetStatusCode`: the same text as `GrpcClients.GetStatusCode`, and the same function. */
  function GetStatusCode(response: Option<GrpcClients.HttpResponse>): (r: Result<Option<StatusCode>, Exception>)
    ensures r == GrpcClients.GetStatusCode(response)
  {
    if response.None? then Success(Some(Unknown))
    else
      var headers := response.value.headers;
      if !GrpcClients.HasHeader(headers, GrpcClients.GrpcStatusHeader) && response.value.statusCode == GrpcClients.HttpOK then
        Success(Some(OK))
      else if GrpcClients.HasHeader(headers, GrpcClients.GrpcStatusHeader) then
        match NumberParsing.ParseInt32(GrpcClients.GetValues(headers, GrpcClients.GrpcStatusHeader)[0])
        case Success(code) => Success(Some(code))
        case Failure(e) => Failure(e)
      else Success(None)
  }

  class GreeterService {
    var greeterClient: GreeterClient
    const grpcChannel: Channel
    var channelDisposed: bool

    ghost predicate Valid()
      reads this
    {
      greeterClient.channel == grpcChannel
    }

    /** Opens the channel (the given serial is its identity) and the first client on it. */
    constructor(channelSerial: nat)
      ensures Valid() && !channelDisposed
      ensures grpcChannel == Channel(ServerAddress, channelSerial)
      ensures greeterClient == GreeterClient(grpcChannel, 0)
    {
      grpcChannel := Channel(ServerAddress, channelSerial);
      greeterClient := GreeterClient(Channel(ServerAddress, channelSerial), 0);
      channelDisposed := false;
    }

    /**
     * `SayHello`: the message of the reply of the attempt that succeeded, or the
     * exception that ends the call. The name argument is not used: every request
     * carries the name "Me!". Afterwards the field holds the last client built, on
     * the same channel.
     */
    method SayHello(name: string, transport: Transport, clock: Clock, origin: nat) returns (r: Outcome<string>, t: Retry.Trace<GreeterClient, HelloReply>)
      requires Valid()
      modifies this`greeterClient
      ensures Valid()
      ensures t == Retry.Run(SayHelloPolicy(origin, grpcChannel), SayHelloAttempt(transport, clock), old(greeterClient), 0)
      ensures r == MessageOf(t.result)
      ensures r.Returned? <==> t.result.Returned?
      ensures t.result.Returned? ==> r.value == t.result.value.message
      ensures t.result.Thrown? ==> r == Thrown(t.result.error)
      ensures greeterClient == t.final
      ensures greeterClient == GreeterClient(grpcChannel, old(greeterClient.serial) + |t.states| - 1)
    {
      t := Retry.Execute(SayHelloPolicy(origin, grpcChannel), SayHelloAttempt(transport, clock), greeterClient);
      SayHelloClients(origin, grpcChannel, SayHelloAttempt(transport, clock), greeterClient);
      greeterClient := t.final;
      r := MessageOf(t.result);
    }

    /** `Dispose`: disposes the channel, which is never null once the service is constructed. */
    method Dispose()
      modifies this`channelDisposed
      ensures channelDisposed
    {
      channelDisposed := true;
    }
  }
}
