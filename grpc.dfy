/**
 * The vocabulary shared by every variant: gRPC status codes, socket error codes,
 * the exceptions a call can raise, the outcome of one attempt, the handles for
 * channels and clients, and the Greeter service's messages.
 */
module Grpc {
  import opened Wrappers

  const MinInt32: int := -0x8000_0000
  const MaxInt32: int := 0x7fff_ffff

  /** A 32-bit signed integer, the underlying type of the .NET enums used here. */
  type Int32 = x: int | MinInt32 <= x <= MaxInt32

  /**
   * A gRPC status code. The C# enum is a plain 32-bit integer: a cast such as
   * `(StatusCode)int.Parse(...)` accepts every Int32, named or not.
   */
  type StatusCode = Int32

  const OK: StatusCode := 0
  const Cancelled: StatusCode := 1
  const Unknown: StatusCode := 2
  const InvalidArgument: StatusCode := 3
  const DeadlineExceeded: StatusCode := 4
  const NotFound: StatusCode := 5
  const PermissionDenied: StatusCode := 7
  const ResourceExhausted: StatusCode := 8
  const Internal: StatusCode := 13
  const Unavailable: StatusCode := 14

  /** A .NET `SocketError` value (a 32-bit enum with the WinSock numbering). */
  type SocketError = Int32

  const ConnectionReset: SocketError := 10054
  const AddressNotAvailable: SocketError := 10049
  const TimedOut: SocketError := 10060
  const ConnectionRefused: SocketError := 10061
  const HostDown: SocketError := 10064
  const HostUnreachable: SocketError := 10065
  const HostNotFound: SocketError := 11001

  /** The six status codes every variant treats as transient, in source order. */
  const RetryableStatusCodes: seq<StatusCode> :=
    [DeadlineExceeded, Internal, NotFound, ResourceExhausted, Unavailable, Unknown]

  /** The five socket errors treated as transient, in source order. */
  const RetryableSocketErrors: seq<SocketError> :=
    [AddressNotAvailable, ConnectionRefused, HostNotFound, HostUnreachable, HostDown]

  /** `GRpcErrors.Contains(code)`: on the wire, the statuses 2, 4, 5, 8, 13 and 14. */
  function IsRetryableStatus(code: StatusCode): (b: bool)
    ensures b <==> code in {2, 4, 5, 8, 13, 14}
  {
    code in RetryableStatusCodes
  }

  /** `SocketErrors.Contains(code)`: the WinSock errors 10049, 10061, 10064, 10065 and 11001. */
  function IsRetryableSocketError(code: SocketError): (b: bool)
    ensures b <==> code in {10049, 10061, 10064, 10065, 11001}
  {
    code in RetryableSocketErrors
  }

  /** The type of an exception, with the payload the classifiers look at. */
  datatype ExceptionKind =
    | RpcException(status: StatusCode)
    | SocketException(socketError: SocketError)
    | TaskCanceledException
    | HttpRequestException
    | FormatException
    | OverflowException
    | OtherException

  /** An exception and the chain of `InnerException`s below it. */
  datatype Exception = Exception(kind: ExceptionKind, inner: Option<Exception>)

  /** The exception itself followed by its inner exceptions, outermost first. */
  function Chain(e: Exception): (c: seq<Exception>)
    ensures |c| >= 1 && c[0] == e
    decreases e
  {
    match e.inner
    case None => [e]
    case Some(i) => [e] + Chain(i)
  }

  /** What awaiting one attempt produces: a value, or the exception it throws. */
  datatype Outcome<+T> = Returned(value: T) | Thrown(error: Exception)

  /** Call metadata: a list of key/value entries. */
  type Metadata = seq<(string, string)>

  /**
   * The parts of an `AsyncUnaryCall<TResponse>`. `getStatus`, `getTrailers` and
   * `dispose` are delegates bound to one physical call; each is represented by the
   * identity of the call it belongs to.
   */
  datatype AsyncUnaryCall<T> = AsyncUnaryCall(
    responseAsync: Outcome<T>,
    responseHeadersAsync: Outcome<Metadata>,
    getStatus: nat,
    getTrailers: nat,
    dispose: nat)

  /** A `GrpcChannel`, identified by its address and a creation serial number. */
  datatype Channel = Channel(address: string, serial: nat)

  /** A `Greeter.GreeterClient` stub, identified by its channel and a serial number. */
  datatype GreeterClient = GreeterClient(channel: Channel, serial: nat)

  /** The request built for `SayHelloAsync`: the `Name` field and the call's deadline. */
  datatype HelloRequest = HelloRequest(name: string, deadline: int)

  datatype HelloReply = HelloReply(message: string)

  /** The address every variant connects to. */
  const ServerAddress: string := "https://localhost:5001"

  /** The gRPC transport: what a unary `SayHello` call on a client returns. */
  type Transport = (GreeterClient, HelloRequest) -> Outcome<HelloReply>

  /** `DateTime.Now`, in whole seconds, at the start of the attempt with the given index. */
  type Clock = nat -> int
}
