/** The per-request client policy of `src/svc/new_client_per_request.rs`:
    a factory adapter that validates a target with one eager construction,
    and a service that builds a single-serving client for each request,
    binding it ahead of time when readiness is polled. */
module PerRequest {
  import opened Wrappers
  import opened Capabilities

  /** Client `k` is among those issued by the first `n` constructions of a
      service. */
  predicate Issued(k: ClientId, n: nat)
  {
    k < n
  }

  /** A freshly built client together with the updated construction count. */
  datatype Minted = Minted(client: ClientId, constructions: nat)

  /** An inner factory bound to a target it is trusted to build for
      (`ValidNewClient`). */
  datatype ValidNewClient<!T, FE> = ValidNewClient(newClient: Factory<T, FE>, target: T)
  {
    /** The construction that would issue id `n` succeeds. */
    predicate BuildsAt(n: nat)
    {
      newClient.attempt(target, n).Built?
    }

    /** Every construction from the `n`-th on succeeds. */
    ghost predicate BuildsFrom(n: nat)
    {
      forall k: nat :: n <= k ==> BuildsAt(k)
    }
  }

  /** `ValidNewClient::mk`: build the next client of a service that has built
      `constructions` so far. `mk` aborts via `expect` when the bound factory
      refuses the target; that abort is this function's precondition. */
  function Mk<T, FE>(v: ValidNewClient<T, FE>, constructions: nat): (m: Minted)
    requires v.BuildsAt(constructions)
    ensures !Issued(m.client, constructions)
    ensures m.constructions == constructions + 1
    ensures forall k :: Issued(k, m.constructions) <==> Issued(k, constructions) || k == m.client
  {
    Minted(constructions, constructions + 1)
  }

  /** The outward-facing factory adapter (`NewClientPerRequest`). */
  datatype NewClientPerRequest<-T, FE> = NewClientPerRequest(inner: Factory<T, FE>)

  /** The per-request service (`ClientPerRequest`): an optional client bound
      ahead of time for the next request, the factory binding used to build
      further clients, and how many clients this service has built so far. */
  datatype ClientPerRequest<!T, FE> = ClientPerRequest(
    next: Option<ClientId>,
    constructions: nat,
    newClient: ValidNewClient<T, FE>)
  {
    /** The armed client, if any, is one this service built. */
    predicate WellFormed()
    {
      next.Some? ==> Issued(next.value, constructions)
    }

    /** The bound factory can build the client an operation would need:
        only an empty slot makes `poll_ready` or `call` construct. */
    predicate CanBuild()
    {
      next.None? ==> newClient.BuildsAt(constructions)
    }
  }

  /** `Make::make_client`: wrap an inner factory into the per-request adapter. */
  function MakeClient<T, FE>(next: Factory<T, FE>): (f: NewClientPerRequest<T, FE>)
    ensures f.inner == next
  {
    NewClientPerRequest(next)
  }

  /** `NewClientPerRequest::new_client`: validate the target by building one
      client right away; on success the service starts armed with it. */
  function NewClient<T, FE>(f: NewClientPerRequest<T, FE>, target: T)
    : (r: Result<ClientPerRequest<T, FE>, FE>)
    ensures r.Failure? <==> f.inner.attempt(target, 0).Refused?
    ensures r.Failure? ==> r.error == f.inner.attempt(target, 0).error
    ensures r.Success? ==>
      && r.value.next.Some?
      && (forall k :: Issued(k, r.value.constructions) <==> k == r.value.next.value)
      && r.value.newClient == ValidNewClient(f.inner, target)
      && r.value.WellFormed()
  {
    match f.inner.attempt(target, 0)
    case Refused(e) => Failure(e)
    case Built =>
      Success(ClientPerRequest(Some(0), 1, ValidNewClient(f.inner, target)))
  }

  /** What one `poll_ready` reports, which client it polled, and the service
      afterwards. */
  datatype Polled<!T, FE, E> = Polled(result: Readiness<E>, client: ClientId, after: ClientPerRequest<T, FE>)

  /** `poll_ready`. `readiness(k)` is what client `k` answers to this poll. */
  function PollReady<T, FE, E>(s: ClientPerRequest<T, FE>, readiness: ClientId -> Readiness<E>)
    : (p: Polled<T, FE, E>)
    requires s.CanBuild()
    // the polled client's answer is returned unchanged, whichever client it is
    ensures p.result == readiness(p.client)
    // armed: the armed client is polled and nothing changes, even on an error
    ensures s.next.Some? ==> p.client == s.next.value && p.after == s
    // empty: exactly one new client is built and polled ...
    ensures s.next.None? ==>
      && !Issued(p.client, s.constructions)
      && Issued(p.client, p.after.constructions)
      && p.after.constructions == s.constructions + 1
      && p.after.newClient == s.newClient
    // ... and kept for the next request unless its check failed
    ensures s.next.None? && !p.result.Failed? ==> p.after.next == Some(p.client)
    ensures s.next.None? && p.result.Failed? ==> p.after.next.None?
    ensures s.WellFormed() ==> p.after.WellFormed()
  {
    match s.next
    case Some(k) => Polled(readiness(k), k, s)
    case None =>
      var m := Mk(s.newClient, s.constructions);
      var built := s.(constructions := m.constructions);
      match readiness(m.client)
      case Failed(e) => Polled(Failed(e), m.client, built)
      case ready => Polled(ready, m.client, built.(next := Some(m.client)))
  }

  /** What one `call` was delegated to, and the service afterwards. */
  datatype Called<!T, FE, Req> = Called(delegation: Delegation<Req>, after: ClientPerRequest<T, FE>)

  /** `call`: consume the armed client, or build one on the spot, and hand it
      the request. */
  function Call<T, FE, Req>(s: ClientPerRequest<T, FE>, request: Req): (c: Called<T, FE, Req>)
    requires s.CanBuild()
    // the slot is empty afterwards, whatever it held before
    ensures c.after.next.None?
    ensures c.after.newClient == s.newClient
    ensures c.delegation.request == request
    // armed: the armed client serves the request and nothing is built
    ensures s.next.Some? ==>
      c.delegation.client == s.next.value && c.after.constructions == s.constructions
    // empty: exactly one new client is built and serves the request
    ensures s.next.None? ==>
      && !Issued(c.delegation.client, s.constructions)
      && Issued(c.delegation.client, c.after.constructions)
      && c.after.constructions == s.constructions + 1
    ensures s.WellFormed() ==> Issued(c.delegation.client, c.after.constructions)
  {
    match s.next
    case Some(k) => Called(Delegation(k, request), s.(next := None))
    case None =>
      var m := Mk(s.newClient, s.constructions);
      Called(Delegation(m.client, request), s.(next := None, constructions := m.constructions))
  }
}
