# Per-request clients, modelled in Dafny

This project models the per-request client policy of the linkerd2 proxy's
`src/svc/new_client_per_request.rs`. The policy sits in a layered service
stack that drives services through two phases: poll readiness, then call.
For every request the policy hands the call to a freshly built,
single-serving client.

- `NewClientPerRequest::new_client` builds one client right away, which
  validates the target. If that fails, it returns the inner factory's error.
  If it succeeds, it returns a `ClientPerRequest` service whose `next` slot
  holds that client.
- `poll_ready` polls the armed client if there is one. Otherwise it builds a
  client (`ValidNewClient::mk`), polls it, and keeps it only when the poll
  did not fail.
- `call` takes the armed client, or builds one on the spot, and delegates the
  request to it. The slot is empty afterwards.
- `mk` treats a refused construction as a broken invariant (`expect`).

How the model represents the system:

- A client is an identifier. Client `k` is the one built by the service's
  `k`-th construction, counting from 0. Client 0 is the validation-time
  client.
- The inner factory is a function `attempt(target, n)`. It says whether the
  `n`-th construction made for the service bound to `target` succeeds,
  counting the validation-time construction as the 0-th. Builds are counted
  per service, not per factory.
- The abort in `mk` is the precondition `BuildsAt`. At trace level it becomes
  `BuildsFrom`: every later construction succeeds.
- A client's answer to one readiness poll is an oracle
  `ClientId -> Readiness` that comes with the poll.
- A call is modelled as a `Delegation(client, request)`, not as a future.

Modules:

- `Wrappers`: option and result types.
- `Capabilities`: the opaque collaborators (clients, readiness, factory).
- `PerRequest`: the source file itself.
- `Lifecycle`: an independent reference machine. It has two phases, Armed and
  Empty, a transition table, and a count of the clients each operation builds.
- `Traces`: runs a sequence of operations against a service and proves
  properties of the run.
- `Scenarios`: end-to-end sequences, starting from the factory adapter.

## Model

| member | source | states |
|---|---|---|
| PerRequest.Mk | src/svc/new_client_per_request.rs:33-38 | Building a client requires the bound factory to accept the target (`mk` aborts via `expect` otherwise). The result is a client this service has never issued, and exactly one construction is added. |
| PerRequest.MakeClient | src/svc/new_client_per_request.rs:43-49 | The per-request adapter wraps the given inner factory unchanged. |
| PerRequest.NewClient | src/svc/new_client_per_request.rs:51-67 | Returns an error exactly when the inner factory refuses the first construction, and that error is passed through unchanged. On success, the service is armed with the one client built so far, and it is bound to the same inner factory and target. |
| PerRequest.PollReady | src/svc/new_client_per_request.rs:77-87 | The result is the polled client's own answer. With an armed slot, the armed client is polled and the service is unchanged, even on an error. With an empty slot, exactly one new client is built and polled. It is kept when its answer is ready or pending, and dropped, leaving the slot empty, when the answer is an error. The result is well-formed whenever the service was. |
| PerRequest.Call | src/svc/new_client_per_request.rs:89-95 | The request is delegated unchanged. The slot is empty afterwards. With an armed slot, the armed client serves the request and nothing is built. With an empty slot, exactly one new client is built and serves it. The serving client was issued by this service. |
| Traces.Run | src/svc/new_client_per_request.rs:77-95 | A sequence of polls and calls yields one event per operation. It builds at most one client per operation, keeps the factory binding, and keeps the service well-formed. |
| Traces.RunFollowsLifecycle | src/svc/new_client_per_request.rs:77-95 | Over any sequence of operations, the slot moves through the reference Armed/Empty table. The number of clients built equals the reference count: one per operation on an empty slot, none on an armed slot. |
| Traces.DelegationsFresh | src/svc/new_client_per_request.rs:17-20 | Every client a run delegates to was built by this service. It is either the client armed at the start or one built during the run. |
| Traces.DelegatedClientsDistinct | src/svc/new_client_per_request.rs:7 | Clients are single-serving: in any run, no two requests are delegated to the same client. |
| Traces.ArmedPollsBuildNothing | src/svc/new_client_per_request.rs:77-80 | Any number of polls on an armed service build nothing, change nothing and delegate nothing. Each poll reports the armed client's own answer, including errors. |
| Traces.EmptyPollsBuildOnce | src/svc/new_client_per_request.rs:82-86 | On an empty service, a non-empty sequence of polls builds exactly one new client and leaves it armed, provided that client does not fail the first poll. Later answers, pending or failed, never cause another construction. |
| Scenarios.FirstPollsReuseValidationClient | src/svc/new_client_per_request.rs:56-80 | After a target validates, any number of polls, including failing ones, leave the validation-time client armed, and the construction count stays at 1. |
| Scenarios.TwoRequestsTwoClients | src/svc/new_client_per_request.rs:56-95 | Take polls, a call, more polls, and a call, with any number of polls in between. The second client must not fail the first poll that builds it. Exactly two clients are built. The validation-time client serves the first request and the second client serves the second. The slot ends empty. |
| Scenarios.ReadyCallReadyCall | src/svc/new_client_per_request.rs:56-95 | ready, call, ready, call builds exactly two clients and delegates the two requests to clients 0 and 1. |

## Left out

- The `futures::Poll` and `Future` types. Readiness is a three-valued datatype, and a call is a delegation record. Neither the response nor the call's own error is modelled.
- The `trace!` log line in `poll_ready`. It has no effect on behaviour.
- The `Clone` and `Debug` derives, and the generic `MakeClient`/`NewClient`/`Service` trait plumbing. Those traits are defined outside this file. The inner factory is a function over target and construction index. The clone taken by `new_client` is modelled as the same function.
- The abort mechanics of `expect` in `mk`. The abort is modelled as a precondition. At trace level (`Traces.Run` and the lemmas built on it), the precondition is that every later construction succeeds. This is a sufficient condition; the exact one would cover only the constructions a particular run makes.
- The caller's side of the "no reuse after an error" contract is not enforced. The model continues after errors exactly as the code does: an armed client stays armed after a failed poll, and a freshly built client that fails its poll is dropped.
- PerRequest.NewClient: the adapter's own factory state is not threaded through successive `new_client` calls. Each service's construction index starts at 0, so a second `new_client` for the same target replays the same answers. A clone that shares state with the original factory cannot be expressed either.
- Requests are opaque, and readiness answers are inputs. The model never inspects either.
