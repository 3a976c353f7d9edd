/**
 * `ConsoleHostedService`: once the application has started, calls `SayHello`
 * through a retry policy that handles only DeadlineExceeded. Before each retry's
 * wait the sleep duration provider disposes the current channel and replaces the
 * channel and the client with new ones. The exit code records whether an
 * exception escaped, and the application is stopped on both paths.
 */
module Hosting {
  import opened Wrappers
  import opened Grpc
  import Retry

  /** The captured locals `channel` and `client`, and the channels disposed so far, in order. */
  datatype Connection = Connection(channel: Channel, client: GreeterClient, disposed: seq<Channel>)

  /** The first channel and client, created before the first attempt. */
  function InitialConnection(): Connection {
    Connection(Channel(ServerAddress, 0), GreeterClient(Channel(ServerAddress, 0), 0), [])
  }

  /** `Handle<RpcException>(ex => ex.StatusCode == DeadlineExceeded)`; replies are never retried. */
  function Classify(o: Outcome<HelloReply>): (v: Retry.Verdict<HelloReply>)
    ensures v.outcome == o
  {
    Retry.Verdict(o.Thrown? && o.error.kind == RpcException(DeadlineExceeded), o)
  }

  /** Only an RpcException with DeadlineExceeded (at the top of its chain) is retried. */
  lemma ClassifyIff(o: Outcome<HelloReply>)
    ensures Classify(o).handled <==> o.Thrown? && o.error.kind.RpcException? && o.error.kind.status == DeadlineExceeded
  {
  }

  /** Disposes the current channel and opens a new channel and a client on it. */
  function Reopen(c: Connection): (r: Connection)
    ensures r.disposed == c.disposed + [c.channel]
    ensures r.channel != c.channel && r.client.channel == r.channel
  {
    var channel := Channel(ServerAddress, c.channel.serial + 1);
    Connection(channel, GreeterClient(channel, c.client.serial + 1), c.disposed + [c.channel])
  }

  /**
   * The sleep duration provider: reopens the connection and returns `3 + n` seconds.
   * The ensures only unfolds the body for the provers; what the reopening achieves
   * is stated by `StartConnections` and `StartTrace`.
   */
  function Reconnect(c: Connection, n: int): (r: (Connection, int))
    ensures r.0 == Reopen(c) && r.1 == Retry.Backoff(n)
  {
    (Reopen(c), Retry.Backoff(n))
  }

  /** `WaitAndRetryAsync(3, Reconnect)`, with no on-retry hook. */
  function StartPolicy(origin: nat): (p: Retry.Policy<Connection, HelloReply>)
    ensures p.retryCount == 3 && p.origin == origin
  {
    Retry.Policy(Classify, 3, origin, Reconnect, (c, o, w, n) => Success(c))
  }

  /**
   * One attempt: `SayHelloAsync` on the current client, name "Me!", deadline one second
   * after the attempt starts. The ensures only unfolds the body for the provers; the
   * requests each attempt sends are stated by `StartRequests`.
   */
  function StartAttempt(transport: Transport, clock: Clock): (op: (Connection, nat) -> Outcome<HelloReply>)
    ensures forall c, i :: op(c, i) == transport(c.client, HelloRequest("Me!", clock(i) + 1))
  {
    (c: Connection, i: nat) => transport(c.client, HelloRequest("Me!", clock(i) + 1))
  }

  /** The first `k` channels, in the order they were opened: the i-th has serial number i. */
  function Opened(k: nat): (cs: seq<Channel>)
    ensures |cs| == k
    ensures forall i :: 0 <= i < k ==> cs[i] == Channel(ServerAddress, i)
  {
    if k == 0 then [] else Opened(k - 1) + [Channel(ServerAddress, k - 1)]
  }

  /** The channels opened before the k-th all have smaller serial numbers. */
  lemma {:induction false} OpenedBefore(k: nat)
    ensures forall c :: c in Opened(k) ==> c.serial < k
  {
    if k > 0 {
      OpenedBefore(k - 1);
    }
  }

  /** The connection in use after `k` rebuilds: the k-th channel and its client, with the k earlier channels disposed. */
  function ConnectionAfter(k: nat): (c: Connection)
    ensures |c.disposed| == k
  {
    Connection(Channel(ServerAddress, k), GreeterClient(Channel(ServerAddress, k), k), Opened(k))
  }

  function StartRun(origin: nat, transport: Transport, clock: Clock): Retry.Trace<Connection, HelloReply> {
    Retry.Run(StartPolicy(origin), StartAttempt(transport, clock), InitialConnection(), 0)
  }

  /** Each rebuild moves the connection in use on by one. */
  lemma {:induction false} ReopenIterate(j: nat, k: nat)
    ensures Retry.Iterate(Reopen, ConnectionAfter(j), k) == ConnectionAfter(j + k)
    decreases k
  {
    if k > 0 {
      assert Reopen(ConnectionAfter(j)) == ConnectionAfter(j + 1);
      ReopenIterate(j + 1, k - 1);
    }
  }

  /**
   * Attempt k runs on the connection built by the k-th rebuild: the first attempt on
   * the initial channel with nothing disposed, and after k retries the k earlier
   * channels have been disposed, in order, and the client is on the newest channel.
   */
  lemma StartConnections(origin: nat, op: (Connection, nat) -> Outcome<HelloReply>)
    ensures forall k :: 0 <= k < |Retry.Run(StartPolicy(origin), op, InitialConnection(), 0).states| ==>
      Retry.Run(StartPolicy(origin), op, InitialConnection(), 0).states[k] == ConnectionAfter(k)
    ensures Retry.Run(StartPolicy(origin), op, InitialConnection(), 0).final
         == Retry.Run(StartPolicy(origin), op, InitialConnection(), 0).states[|Retry.Run(StartPolicy(origin), op, InitialConnection(), 0).states| - 1]
  {
    var p := StartPolicy(origin);
    assert InitialConnection() == ConnectionAfter(0);
    Retry.RunStates(p, op, InitialConnection(), 0, Reopen);
    var t := Retry.Run(p, op, InitialConnection(), 0);
    forall k | 0 <= k < |t.states| ensures t.states[k] == ConnectionAfter(k) {
      ReopenIterate(0, k);
    }
  }

  /** The channel in use after k rebuilds is never one of the channels already disposed. */
  lemma ConnectionFresh(k: nat)
    ensures ConnectionAfter(k).channel !in ConnectionAfter(k).disposed
  {
    OpenedBefore(k);
  }

  /** Attempt k sends "Me!" with its own deadline on the client of the k-th channel. */
  lemma StartRequests(origin: nat, transport: Transport, clock: Clock)
    ensures forall k :: 0 <= k < |StartRun(origin, transport, clock).outcomes| ==>
      StartRun(origin, transport, clock).outcomes[k]
        == transport(GreeterClient(Channel(ServerAddress, k), k), HelloRequest("Me!", clock(k) + 1))
  {
    var p, op := StartPolicy(origin), StartAttempt(transport, clock);
    var t := StartRun(origin, transport, clock);
    StartConnections(origin, op);
    Retry.RunOutcomes(p, op, InitialConnection(), 0);
    forall k | 0 <= k < |t.outcomes|
      ensures t.outcomes[k] == transport(GreeterClient(Channel(ServerAddress, k), k), HelloRequest("Me!", clock(k) + 1))
    {
      assert t.outcomes[k] == op(t.states[k], 0 + k);
      assert t.states[k] == ConnectionAfter(k);
    }
  }

  /**
   * The whole retry block: at most 4 attempts; attempt k uses the client on the k-th
   * channel, with a deadline one second after its start, the k earlier channels
   * having been disposed in order; the waits are `3 + n` seconds for the n supplied;
   * and the channel in use at the end is not among the disposed.
   */
  lemma StartTrace(origin: nat, transport: Transport, clock: Clock)
    ensures InitialConnection() == ConnectionAfter(0)
    ensures |StartRun(origin, transport, clock).outcomes| <= 4
    ensures forall k :: 0 <= k < |StartRun(origin, transport, clock).states| ==>
      StartRun(origin, transport, clock).states[k] == ConnectionAfter(k)
    ensures forall k :: 0 <= k < |StartRun(origin, transport, clock).outcomes| ==>
      StartRun(origin, transport, clock).outcomes[k]
        == transport(GreeterClient(Channel(ServerAddress, k), k), HelloRequest("Me!", clock(k) + 1))
    ensures forall k :: 0 <= k < |StartRun(origin, transport, clock).waits| ==>
      StartRun(origin, transport, clock).waits[k] == 3 + origin + k
    ensures StartRun(origin, transport, clock).final.channel !in StartRun(origin, transport, clock).final.disposed
  {
    var p, op := StartPolicy(origin), StartAttempt(transport, clock);
    var t := StartRun(origin, transport, clock);
    assert InitialConnection() == ConnectionAfter(0);
    StartConnections(origin, op);
    StartRequests(origin, transport, clock);
    Retry.RunWaits(p, op, InitialConnection(), 0);
    ConnectionFresh(|t.states| - 1);
  }

  /** The exit code: 0 when the call returned, 1 when an exception escaped. */
  function ExitCode(o: Outcome<HelloReply>): (code: int)
    ensures code == 0 <==> o.Returned?
    ensures code == 1 <==> o.Thrown?
  {
    if o.Returned? then 0 else 1
  }

  class ConsoleHostedService {
    var exitCode: Option<int>
    var stopApplicationCalls: nat

    constructor()
      ensures exitCode == None && stopApplicationCalls == 0
    {
      exitCode := None;
      stopApplicationCalls := 0;
    }

    /**
     * The work registered on `ApplicationStarted`: runs the retry block from a fresh
     * channel and client, sets the exit code from its result, and stops the
     * application once whether or not an exception escaped.
     */
    method RunOnStarted(transport: Transport, clock: Clock, origin: nat) returns (t: Retry.Trace<Connection, HelloReply>)
      modifies this
      ensures t == StartRun(origin, transport, clock)
      ensures exitCode == Some(ExitCode(t.result))
      ensures exitCode == Some(0) <==> t.result.Returned?
      ensures exitCode == Some(1) <==> t.result.Thrown?
      ensures stopApplicationCalls == old(stopApplicationCalls) + 1
    {
      t := Retry.Execute(StartPolicy(origin), StartAttempt(transport, clock), InitialConnection());
      exitCode := Some(ExitCode(t.result));
      stopApplicationCalls := stopApplicationCalls + 1;
    }
  }
}
