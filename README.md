# Retrying gRPC client of grpc-sample, in Dafny

This project models the client side of the `grpc-sample` repository. The client
calls the `Greeter` service's `SayHello` over gRPC. Every path to the server goes
through a retry policy built with Polly's `WaitAndRetryAsync`: three retries and
waits of `3 + n` seconds for retry number `n`. The variants differ in what they
retry and in what they rebuild between attempts:

- **GrpcClients** (`GrpcClients.cs`). `GetStatusCode` recovers a gRPC status from an
  HTTP response. The policy on the Greeter client's HTTP handler retries:
  - transient HTTP errors;
  - every `RpcException` and every `TaskCanceledException`;
  - an HTTP 200 whose `grpc-status` header carries one of six transient codes.

  Its on-retry hook logs the status it recovers from the outcome. `SimpleInterceptor`,
  in the same file, is a pass-through interceptor that only logs.
- **GreeterService** (`Services/GreeterService.cs`). `SayHello` retries two kinds of failure:
  - a `SocketException` with one of five transient socket errors, found anywhere in
    the chain of inner exceptions;
  - an `RpcException` with one of the six transient statuses.

  Before each retry it replaces its client stub with a new one on the same channel.
  `Dispose` disposes the channel.
- **PollyInterceptor** (`PollyInterceptor.cs`) wraps the awaiting of a call's
  response in the policy for the six transient statuses. Every attempt awaits the
  same pending response.
- **ConsoleHostedService** (`ConsoleHostedService.cs`) retries only DeadlineExceeded.
  Before each retry's wait it disposes the channel and opens a new channel and client.
  It records an exit code of 0 or 1 and stops the application.

The Polly engine itself is not in the repository. Module `Retry` models it as the
specification function `Retry.Run`, with the loop `Retry.Execute` proved equal to it.
For each attempt the engine, as modelled:
1. classifies the outcome;
2. stops if the outcome is not handled, or if the retries are used up;
3. otherwise calls the sleep duration provider with the retry number;
4. calls the on-retry hook;
5. sleeps, and runs the attempt again.

The number passed for the first retry is the parameter `origin`. Polly passes 1, so
the waits are 4, 5 and 6 seconds. The sleep duration provider runs
before the on-retry hook, and both run before the wait.

The state the hooks change (a rebuilt stub, a new channel, a log) is threaded
through the run as a value. Channels and stubs are handles with serial numbers.
The network is a parameter `transport`, a function from a stub and a request to the
attempt's outcome. The wall clock is a parameter `clock`, giving the time at which
each attempt starts.

Worth knowing from the code, all stated as contracts below except the last:
- The GrpcClients result predicate never retries a plain HTTP 200 without a
  `grpc-status` header. For that response `GetStatusCode` returns OK, which is not
  a transient code.
- The GrpcClients hook calls `GetStatusCode` and does not catch what it throws. A
  5xx response accepted as transient whose `grpc-status` header is not a number
  makes the hook throw a FormatException. That exception ends the request instead
  of the retry.
- `SayHello` ignores its `name` argument: every request carries the name "Me!".
- Every attempt gets its own deadline, one second after that attempt starts.
- GreeterService rebuilds only the stub and never replaces the channel.
- ConsoleHostedService rebuilds the channel and the client before every retry,
  whichever failure caused it, and never disposes the channel in use at the end.
- Because PollyInterceptor re-awaits one pending response, a retryable failure is seen four
  times and rethrown unchanged.
- The `SocketErrors` table of `GrpcClients` is never read.

Files: `wrappers.dfy` (Option, Result), `grpc.dfy` (codes, exceptions, handles),
`number_parsing.dfy` (`int.Parse`), `retry.dfy` (the engine), `grpc_clients.dfy`,
`greeter_service.dfy`, `polly_interceptor.dfy` and `console_hosted_service.dfy`.

## Model

| member | source | states |
|---|---|---|
| Grpc.IsRetryableStatus | src/client/GrpcClients.cs:91-98 | the six transient statuses are those with wire numbers 2, 4, 5, 8, 13 and 14; OK and every other status are not retried |
| Grpc.IsRetryableSocketError | src/client/Services/GreeterService.cs:31-38 | the five transient socket errors are the WinSock codes 10049, 10061, 10064, 10065 and 11001 |
| Retry.BackoffStrictlyIncreasing | src/client/Services/GreeterService.cs:78 | a later retry number always waits strictly longer |
| Retry.Decide | src/client/Services/GreeterService.cs:76-83 | after an attempt the call goes on only for a handled outcome with retries left; an outcome that is not handled, or one at the last retry, stops the call with what the predicates hand back, in the same state; otherwise the sleep duration provider and then the on-retry hook run with retry number `origin + tries`, and the call goes on with the provider's wait and the hook's state, or stops with the hook's exception when the hook throws |
| Retry.Run | src/client/Services/GreeterService.cs:76-87 | one logical call makes between 1 and `retryCount + 1` attempts; the first runs in the starting state; there is one wait fewer than attempts |
| Retry.Execute | src/client/Services/GreeterService.cs:76-87 | the engine's loop produces exactly the trace of `Run` from the starting state |
| Retry.RunOutcomes | src/client/Services/GreeterService.cs:84-87 | every attempt's outcome is the operation applied to the state recorded for that attempt and to its index |
| Retry.RunEnds | src/client/Services/GreeterService.cs:76-83 | whatever the hooks do, every attempt but the last was handled, was followed by the wait the sleep duration provider computed, and had an on-retry hook that succeeded with the state the next attempt ran in; a call that stops at an unhandled outcome or with the retries used up gives the last outcome as classified and the last attempt's state; a call that stops with retries left gives the exception the on-retry hook raised for the last attempt |
| Retry.PrependEnds | src/client/Services/GreeterService.cs:76-83 | a handled attempt whose hook succeeded, in front of a call that ends as the policy says, gives a call that ends as the policy says |
| Retry.RunStopsAsClassified | src/client/Services/GreeterService.cs:76-83 | whatever the hooks do, every attempt but the last was handled, and a call that stops at an unhandled outcome or with the retries used up gives the last outcome as classified and the last attempt's state |
| Retry.RunStops | src/client/Services/GreeterService.cs:76-83 | when the hook cannot throw, every attempt but the last was handled; the call stops exactly at an unhandled outcome or when the retries are used up; the caller gets the last outcome as classified; the final state is the last attempt's state |
| Retry.RunStates | src/client/Services/GreeterService.cs:79-83 | when every retry moves the state by the same `next`, attempt k runs in `next` applied k times |
| Retry.ShortCircuit | src/client/Services/GreeterService.cs:65-75 | an outcome the predicates do not handle ends the call after one attempt, with no wait and the state unchanged |
| Retry.RunExhausts | src/client/Services/GreeterService.cs:76-77 | when every outcome is handled and the hook cannot throw, exactly `retryCount + 1` attempts are made |
| Retry.RunWaits | src/client/Services/GreeterService.cs:78 | with the `3 + n` provider, the wait before the k-th retry is `3 + origin + k` seconds |
| Retry.SumOfWaits | src/client/PollyInterceptor.cs:43-45 | waits `3 + n + k` add up to `m * (3 + n) + m * (m - 1) / 2` for `m` waits |
| SimpleInterceptor.HandleResponse | src/client/GrpcClients.cs:65-85 | awaiting the wrapped response gives the same response, or rethrows the same exception; the handler only logs |
| SimpleInterceptor.AsyncUnaryCall | src/client/GrpcClients.cs:19-32 | the interceptor hands back the continuation's call unchanged: the response awaited through the logging handler is the same response or the same exception, and the headers, status, trailers and dispose are those of that call |
| GrpcClients.GetValues | src/client/GrpcClients.cs:119-120 | a header has values exactly when the headers contain its name; every value is the value of an entry with that name; the first value is the value of the first such entry |
| GrpcClients.GetStatusCode | src/client/GrpcClients.cs:109-123 | the lookup throws only for a response carrying the `grpc-status` header, and then only a FormatException or an OverflowException; it gives null only for a non-null response whose HTTP status is not 200 |
| GrpcClients.StatusCodeNullIff | src/client/GrpcClients.cs:109-123 | the status is null if and only if the response is not null, has no `grpc-status` header and has an HTTP status other than 200 |
| GrpcClients.StatusCodeFromHeader | src/client/GrpcClients.cs:119-120 | whatever the HTTP status, a first `grpc-status` value that is the decimal text of a code gives that code back |
| GrpcClients.StatusCodeFromNumber | src/client/GrpcClients.cs:119-120 | whatever the HTTP status, a response with the `grpc-status` header gives a code if and only if its first value is white space, an optional sign and digits with an Int32 value, and then the value of that sign and those digits (" 5", "+5" and "05" give 5); it throws an OverflowException if and only if that value is a number outside the Int32 range |
| GrpcClients.StatusCodeMalformed | src/client/GrpcClients.cs:119-120 | a first `grpc-status` value that is not an optional sign and digits with white space around them throws a FormatException instead of giving null |
| GrpcClients.StatusCodeWithoutHeader | src/client/GrpcClients.cs:111-117 | without the header, a null response gives Unknown and an HTTP 200 gives OK |
| GrpcClients.HandlesResult | src/client/GrpcClients.cs:145-151 | the result predicate throws exactly when the status lookup throws, with the same exception; it accepts only an HTTP 200 that carries the `grpc-status` header |
| GrpcClients.HandlesResultIff | src/client/GrpcClients.cs:145-151 | the result predicate accepts a response if and only if it is an HTTP 200 whose `grpc-status` parses to one of the six transient codes, so a plain 200 is never retried |
| GrpcClients.ClassifyException | src/client/GrpcClients.cs:134-144 | an exception is handled if and only if the transient check accepts it or it is an RpcException or a TaskCanceledException; every other exception is rethrown at once; the handled exception is the one thrown |
| GrpcClients.Classify | src/client/GrpcClients.cs:134-151 | the outcome handed back is the attempt's own, unless the status predicate threw, and then it is that exception; a response the transient check accepts is always retried; a thrown exception is retried if and only if the transient check accepts it or it is an RpcException or a TaskCanceledException; an exception thrown by the status predicate is retried if and only if the transient check accepts it |
| GrpcClients.RpcAndCancelledAlwaysHandled | src/client/GrpcClients.cs:136-144 | an RpcException of any status and every TaskCanceledException are retried as they are |
| GrpcClients.ClassifyResult | src/client/GrpcClients.cs:145-151 | a response the transient check rejects is retried exactly when the status predicate accepts it; an exception from the predicate takes the response's place |
| GrpcClients.OnRetry | src/client/GrpcClients.cs:155-166 | the hook throws if and only if the outcome is a response whose status lookup throws, and then with the lookup's exception; otherwise it appends exactly one log line carrying the looked-up status (Unknown for an exception) and the wait, and keeps the earlier lines |
| GrpcClients.HttpPolicy | src/client/GrpcClients.cs:152-154 | the policy retries three times and numbers the first retry `origin` |
| GrpcClients.HttpPolicyBounds | src/client/GrpcClients.cs:152-154 | an HTTP request makes at most 4 attempts; the waits are `3 + origin + k` seconds and strictly increase |
| GrpcClients.OnRetryFailsOnlyForTransientMalformed | src/client/GrpcClients.cs:155-158 | the hook throws only for a response accepted by the transient check whose `grpc-status` cannot be parsed |
| GrpcClients.HttpRequestEnds | src/client/GrpcClients.cs:134-167 | for every transport, every attempt but the last was retried; a request that stops at an outcome the predicates do not handle, or after the fourth attempt, gives that outcome as classified |
| GrpcClients.ClassifiedEnds | src/client/GrpcClients.cs:134-151 | a trace that stops as the policy's predicates decide had every earlier attempt retried by `Classify`, and gives an unhandled or exhausted last outcome as `Classify` hands it back |
| GrpcClients.HookEnds | src/client/GrpcClients.cs:155-158 | a trace of the policy that ends with retries left ends on a transient response whose `grpc-status` does not parse, with the parse's FormatException or OverflowException |
| GrpcClients.HttpRequestHookEnds | src/client/GrpcClients.cs:145-158 | for every transport, a request that stops with retries left ends on a transient response with a malformed `grpc-status`, and the caller gets the FormatException or OverflowException of its parse |
| GrpcClients.MalformedEnds | src/client/GrpcClients.cs:145-158 | a trace of the policy that meets, at attempt k < 3, a transient response whose `grpc-status` does not parse ends at attempt k with the parse's exception |
| GrpcClients.MalformedTransientEndsAt | src/client/GrpcClients.cs:145-158 | for every transport and every attempt k < 3: a transient response whose `grpc-status` does not parse ends the request at attempt k, and the caller gets the parse's exception instead of a retry |
| GrpcClients.MalformedTransientEndsRequest | src/client/GrpcClients.cs:145-158 | a transient 503 with `grpc-status: abc` ends the request after one attempt with a FormatException |
| NumberParsing.TrimStart | src/client/GrpcClients.cs:120 | leading white space is removed: the result is a suffix of the input, everything removed is white space, and the result does not start with white space |
| NumberParsing.TrimEnd | src/client/GrpcClients.cs:120 | trailing white space is removed: the result is a prefix of the input, everything removed is white space, and the result does not end with white space |
| NumberParsing.ParseInt32 | src/client/GrpcClients.cs:120 | `int.Parse` fails only with a FormatException or an OverflowException, never with an inner exception; when each happens is stated by ParseIff |
| NumberParsing.ParseIff | src/client/GrpcClients.cs:120 | `int.Parse` succeeds if and only if the text is white space, an optional sign, one or more digits and white space, with a value in the Int32 range; it throws an OverflowException if and only if the text has that form with a value outside the range; it throws a FormatException if and only if the text does not have that form |
| NumberParsing.ParseParts | src/client/GrpcClients.cs:120 | a text made of white space, a sign, digits and white space parses to the value of its sign and digits, or throws an OverflowException when that value is outside the Int32 range |
| NumberParsing.ParseShape | src/client/GrpcClients.cs:120 | a text that does not throw a FormatException splits into white space, a sign, digits and white space, and parses as those parts |
| NumberParsing.ParseFormat | src/client/GrpcClients.cs:120 | parsing the decimal text of any 32-bit integer gives the integer back |
| NumberParsing.ParseWithoutDigits | src/client/GrpcClients.cs:120 | a value without any digit, such as "abc", is a FormatException |
| NumberParsing.ParseOutOfRange | src/client/GrpcClients.cs:120 | the decimal text of every number outside the Int32 range throws an OverflowException and does not wrap around |
| Services.FindRetryableSocket | src/client/Services/GreeterService.cs:66-70 | what the inner-exception search finds is always a SocketException with one of the five transient socket errors, taken from the exception's chain |
| Services.FindRetryableSocketInChain | src/client/Services/GreeterService.cs:66-70 | the search finds something if and only if the exception chain holds a transient SocketException; it finds the outermost such exception |
| Services.Classify | src/client/Services/GreeterService.cs:65-75 | a reply is never retried and is handed back as it is; a thrown exception is handed back either as it is or as a transient SocketException from its chain (which one is fixed by `ClassifyHandsBack`) |
| Services.ClassifyHandsBack | src/client/Services/GreeterService.cs:65-75 | the exception the policy hands back, and so rethrows when the retries run out, is the outermost transient SocketException of the chain when there is one, and otherwise the thrown exception itself |
| Services.ClassifyIff | src/client/Services/GreeterService.cs:65-75 | an exception is retried if and only if its chain holds a transient SocketException, or it is an RpcException with one of the six statuses |
| Services.FatalRpcEndsCall | src/client/Services/GreeterService.cs:71-75 | for every origin and channel, any other RpcException without a transient socket error ends the call after its attempt, with no wait and the stub unchanged, and is rethrown as it is |
| Services.SocketErrorExhausts | src/client/Services/GreeterService.cs:65-91 | when every attempt throws the same exception with a transient SocketException in its chain, `SayHello` makes all 4 attempts and then rethrows the outermost such SocketException, not the exception the attempt threw |
| Services.ConnectionRefusedExhausts | src/client/Services/GreeterService.cs:65-91 | an RpcException(Unavailable) wrapping a SocketException(ConnectionRefused) on every attempt ends after 4 attempts with the SocketException |
| Services.SayHelloPolicy | src/client/Services/GreeterService.cs:76-78 | the policy retries three times and numbers the first retry `origin` |
| Services.RebuildIterate | src/client/Services/GreeterService.cs:82 | after k rebuilds the field holds the k-th stub built after the first one, on the same channel |
| Services.SayHelloClients | src/client/Services/GreeterService.cs:79-84 | attempt k runs on the k-th rebuilt stub, all on one channel; the field ends with the last stub |
| Services.SayHelloTrace | src/client/Services/GreeterService.cs:63-91 | a `SayHello` call makes at most 4 attempts; attempt k sends its own request on the k-th stub; the waits are `3 + origin + k` seconds |
| Services.SayHelloRequests | src/client/Services/GreeterService.cs:84-87 | each attempt's outcome is the transport applied to that attempt's stub and request |
| Services.GetStatusCode | src/client/Services/GreeterService.cs:47-61 | the duplicate `GetStatusCode` gives the same result as the one in `GrpcClients` on every response |
| Services.GreeterService.constructor | src/client/Services/GreeterService.cs:40-45 | the service opens one channel to the server and a first stub on it |
| Services.GreeterService.SayHello | src/client/Services/GreeterService.cs:63-91 | the call runs the policy from the current stub; it returns the reply's message exactly when the run returned a reply, and otherwise rethrows the run's exception; the field ends with the last stub built, on the same channel, one rebuild per retry |
| Services.GreeterService.Dispose | src/client/Services/GreeterService.cs:93-96 | the channel is disposed |
| PollyInterceptor.Classify | src/client/PollyInterceptor.cs:42 | the exception the predicate handles is handed back as it is |
| PollyInterceptor.ClassifyIff | src/client/PollyInterceptor.cs:42 | an outcome is retried if and only if it is an RpcException whose status is one of the six transient statuses |
| PollyInterceptor.Policy | src/client/PollyInterceptor.cs:41-45 | the policy retries three times and numbers the first retry `origin` |
| PollyInterceptor.RunSame | src/client/PollyInterceptor.cs:39-59 | a transient failure is awaited until the retries are used up, anything else once; every attempt sees the response's outcome and the caller gets it |
| PollyInterceptor.RunSameLog | src/client/PollyInterceptor.cs:46-53 | a transient failure logs one line per retry with its status and successive waits; anything else logs nothing |
| PollyInterceptor.HandleResponse | src/client/PollyInterceptor.cs:39-59 | awaiting the wrapped response gives exactly the outcome of the pending response |
| PollyInterceptor.AsyncUnaryCall | src/client/PollyInterceptor.cs:30-37 | the interceptor hands back the continuation's call unchanged |
| PollyInterceptor.AwaitCount | src/client/PollyInterceptor.cs:39-59 | a transient failure is awaited 4 times, logs waits `3 + origin`, `4 + origin` and `5 + origin` adding up to `12 + 3 * origin`, and is rethrown; anything else is awaited once with nothing logged |
| Hosting.Classify | src/client/ConsoleHostedService.cs:38-41 | the predicates hand back the outcome unchanged |
| Hosting.ClassifyIff | src/client/ConsoleHostedService.cs:38-41 | an outcome is retried if and only if it is an RpcException with DeadlineExceeded |
| Hosting.Reopen | src/client/ConsoleHostedService.cs:46-48 | the current channel joins the disposed ones; the new channel is a different one and the new client is on it |
| Hosting.StartPolicy | src/client/ConsoleHostedService.cs:38-42 | the policy retries three times and numbers the first retry `origin` |
| Hosting.ReopenIterate | src/client/ConsoleHostedService.cs:46-48 | k reopenings lead from the connection after j rebuilds to the connection after j + k |
| Hosting.StartConnections | src/client/ConsoleHostedService.cs:35-51 | attempt k uses the k-th channel and its client, the k earlier channels having been disposed in order; the final connection is the last attempt's |
| Hosting.ConnectionFresh | src/client/ConsoleHostedService.cs:46-48 | the channel in use is never among the disposed channels |
| Hosting.StartRequests | src/client/ConsoleHostedService.cs:52-58 | attempt k sends "Me!" with its own deadline on the client of the k-th channel |
| Hosting.StartTrace | src/client/ConsoleHostedService.cs:35-58 | the block makes at most 4 attempts, each on a fresh channel after the first; the waits are `3 + origin + k` seconds; the channel in use at the end is not disposed |
| Hosting.ConsoleHostedService.constructor | src/client/ConsoleHostedService.cs:19-23 | no exit code yet, and the application has not been stopped |
| Hosting.ConsoleHostedService.RunOnStarted | src/client/ConsoleHostedService.cs:27-73 | the work runs the retry block from a fresh channel and client; the exit code is 0 if and only if the block returned and 1 if and only if an exception escaped; the application is stopped exactly once |

## Left out

- Dependency-injection wiring (`AddGrpcClients`, `Program.cs`, the builder extensions) only registers the types above, so there is nothing more to state about it.
- Polly is a library and not part of this model. `Retry.Run` is the engine as this model assumes it. The number Polly passes for the first retry is the parameter `origin`. Contexts and cancellation tokens are left out.
- `HandleInner` also looks inside `AggregateException`s; the model follows only the `InnerException` chain.
- `HttpPolicyExtensions.HandleTransientHttpError` is a library call. It becomes the parameter `TransientHttpError`: one predicate on exceptions and one on responses.
- HTTP header names are compared exactly. The real header collection ignores case and has separate content headers.
- `int.Parse` is modelled for the invariant culture. Culture-specific signs, trailing NUL characters and other `NumberStyles` are left out.
- Logging through Serilog and the console is left out, except the values the two retry hooks log. In GrpcClients and PollyInterceptor those values are kept as a list.
- Real time: sleeping is recorded as the list of waits, in seconds. `DateTime.Now` is the parameter `clock`. `TimeSpan` and time zones are left out.
- The network is the parameter `transport`. Exceptions thrown by `GrpcChannel.ForAddress`, by `Dispose` or by the stub's constructor are left out.
- Concurrency: `Task.Run`, the `ApplicationStarted` callback and logical calls that run at the same time are left out. `RunOnStarted` models the callback's body run once.
- `ConsoleHostedService.StopAsync` only returns a completed task and has no state to model.
- `SimpleInterceptor.AddCallerMetadata` and `LogCall` are only referenced from commented-out lines, so they never run.
- Services.GreeterService.SayHello: a call after `Dispose` is not treated differently. `channelDisposed` only records that `Dispose` ran; the error a disposed channel raises would come from the transport, which is a parameter.
- GrpcClients.GetValues: the contract fixes the first value and says that every value belongs to an entry with the name; it does not state the order of the later values, because only the first value is read.
- GrpcClients.HttpPolicy, Services.SayHelloPolicy, PollyInterceptor.Policy and Hosting.StartPolicy: the builders' own contracts give only the retry count and the origin; the waits, the hooks and the predicates are stated about whole runs, by the lemmas that use each builder.
- Services.GreeterService.Dispose: the null check on the channel is not modelled, because the constructor always sets the channel.
