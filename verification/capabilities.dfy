/** The collaborators the per-request policy consumes only through their
    contracts: clients, their readiness checks, and the inner client factory.
    Clients are opaque; what the model keeps of one is its identity. */
module Capabilities {

  /** A client handle, named by the construction that produced it: the
      client with id `k` is the one built by the `k`-th construction
      (counting from 0) of the service that owns it. */
  type ClientId = nat

  /** The outcome of one readiness check, `Poll<(), E>`: ready now, not yet
      ready (poll again later), or failed with the client's error. */
  datatype Readiness<+E> = Ready | Pending | Failed(error: E)

  /** The outcome of one attempt of a factory to build a client. */
  datatype Construction<+FE> = Built | Refused(error: FE)

  /** An inner client factory, seen from one per-request service: its answer
      may depend on how many clients were already built for that service, so
      `attempt(t, n)` is the outcome of the `n`-th construction made for the
      service bound to target `t` (the validation-time one being the 0-th). */
  datatype Factory<-T, FE> = Factory(attempt: (T, nat) -> Construction<FE>)

  /** What a `call` amounts to once its future is abstracted away: the
      request, forwarded to one particular client. */
  datatype Delegation<+Req> = Delegation(client: ClientId, request: Req)
}
