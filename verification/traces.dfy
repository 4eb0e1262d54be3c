/** Sequences of `poll_ready` and `call` operations driven against one
    per-request service, and what such sequences build and whom they serve. */
module Traces {
  import opened Wrappers
  import opened Capabilities
  import opened PerRequest
  import Lifecycle

  /** One operation of the caller: a readiness poll, in which client `k`
      answers `readiness(k)`, or a call carrying a request. */
  datatype Op<Req, E> = Poll(readiness: ClientId -> Readiness<E>) | Invoke(request: Req)

  /** What the caller observes of one operation. */
  datatype Event<+Req, +E> =
    | Checked(client: ClientId, result: Readiness<E>)
    | Delegated(delegation: Delegation<Req>)

  /** The service after a sequence of operations, with one event per
      operation. */
  datatype Trace<!T, FE, Req, E> = Trace(after: ClientPerRequest<T, FE>, events: seq<Event<Req, E>>)

  function Step<T, FE, Req, E>(s: ClientPerRequest<T, FE>, op: Op<Req, E>): (t: Trace<T, FE, Req, E>)
    requires s.CanBuild()
    ensures |t.events| == 1
    ensures t.after.newClient == s.newClient
    ensures s.constructions <= t.after.constructions <= s.constructions + 1
    ensures s.WellFormed() ==> t.after.WellFormed()
  {
    match op
    case Poll(readiness) =>
      var p := PollReady(s, readiness);
      Trace(p.after, [Checked(p.client, p.result)])
    case Invoke(request) =>
      var c := Call(s, request);
      Trace(c.after, [Delegated(c.delegation)])
  }

  /** Drive `ops` against `s`, in order. The bound factory must keep building
      for the target, as `mk` demands of every construction. */
  function Run<T, FE, Req, E>(s: ClientPerRequest<T, FE>, ops: seq<Op<Req, E>>): (t: Trace<T, FE, Req, E>)
    requires s.newClient.BuildsFrom(s.constructions)
    ensures |t.events| == |ops|
    ensures t.after.newClient == s.newClient
    // every operation builds at most one client
    ensures s.constructions <= t.after.constructions <= s.constructions + |ops|
    ensures s.WellFormed() ==> t.after.WellFormed()
    decreases |ops|
  {
    if ops == [] then Trace(s, [])
    else
      var first := Step(s, ops[0]);
      var rest := Run(first.after, ops[1..]);
      Trace(rest.after, first.events + rest.events)
  }

  /** The requests served, in order, and by which client. */
  function Delegations<Req, E>(events: seq<Event<Req, E>>): seq<Delegation<Req>>
    decreases |events|
  {
    if events == [] then []
    else
      match events[0]
      case Delegated(d) => [d] + Delegations(events[1..])
      case Checked(_, _) => Delegations(events[1..])
  }

  predicate AllPolls<Req, E>(ops: seq<Op<Req, E>>)
  {
    forall i :: 0 <= i < |ops| ==> ops[i].Poll?
  }

  function PhaseOf<T, FE>(s: ClientPerRequest<T, FE>): Lifecycle.Phase
  {
    if s.next.Some? then Lifecycle.Armed else Lifecycle.Empty
  }

  function LabelOf<Req, E>(e: Event<Req, E>): Lifecycle.Label
  {
    match e
    case Checked(_, Failed(_)) => Lifecycle.CheckErr
    case Checked(_, _) => Lifecycle.CheckOk
    case Delegated(_) => Lifecycle.Invoke
  }

  function Labels<Req, E>(events: seq<Event<Req, E>>): (ls: seq<Lifecycle.Label>)
    ensures |ls| == |events|
    decreases |events|
  {
    if events == [] then [] else [LabelOf(events[0])] + Labels(events[1..])
  }

  lemma {:induction false} DelegationsAppend<Req, E>(a: seq<Event<Req, E>>, b: seq<Event<Req, E>>)
    ensures Delegations(a + b) == Delegations(a) + Delegations(b)
    decreases |a|
  {
    if a == [] {
      assert a + b == b;
    } else {
      assert (a + b)[1..] == a[1..] + b;
      DelegationsAppend(a[1..], b);
    }
  }

  /** Running `a` and then `b` is running `a + b`. */
  lemma {:induction false} RunAppend<T, FE, Req, E>(s: ClientPerRequest<T, FE>, a: seq<Op<Req, E>>, b: seq<Op<Req, E>>)
    requires s.newClient.BuildsFrom(s.constructions)
    ensures var ta := Run(s, a);
            var tb := Run(ta.after, b);
            Run(s, a + b) == Trace(tb.after, ta.events + tb.events)
    decreases |a|
  {
    if a == [] {
      assert a + b == b;
    } else {
      var first := Step(s, a[0]);
      assert (a + b)[0] == a[0];
      assert (a + b)[1..] == a[1..] + b;
      RunAppend(first.after, a[1..], b);
    }
  }

  /** The service's slot follows the reference lifecycle, and it builds
      exactly the clients the reference machine charges for. */
  lemma {:induction false} RunFollowsLifecycle<T, FE, Req, E>(s: ClientPerRequest<T, FE>, ops: seq<Op<Req, E>>)
    requires s.newClient.BuildsFrom(s.constructions)
    ensures var t := Run(s, ops);
            Lifecycle.Replay(PhaseOf(s), Labels(t.events))
              == Lifecycle.Summary(PhaseOf(t.after), t.after.constructions - s.constructions)
    decreases |ops|
  {
    if ops != [] {
      var first := Step(s, ops[0]);
      var rest := Run(first.after, ops[1..]);
      var events := first.events + rest.events;
      assert events[0] == first.events[0];
      assert events[1..] == rest.events;
      assert PhaseOf(first.after) == Lifecycle.Next(PhaseOf(s), LabelOf(first.events[0]));
      assert first.after.constructions == s.constructions + Lifecycle.Cost(PhaseOf(s));
      RunFollowsLifecycle(first.after, ops[1..]);
    }
  }

  /** Every client a run delegates to was built by the service, and is either
      the client armed at the start or one built during the run. */
  lemma {:induction false} DelegationsFresh<T, FE, Req, E>(s: ClientPerRequest<T, FE>, ops: seq<Op<Req, E>>)
    requires s.newClient.BuildsFrom(s.constructions)
    requires s.WellFormed()
    ensures forall d :: d in Delegations(Run(s, ops).events) ==>
              && (s.next == Some(d.client) || !Issued(d.client, s.constructions))
              && Issued(d.client, Run(s, ops).after.constructions)
    decreases |ops|
  {
    if ops != [] {
      var first := Step(s, ops[0]);
      var rest := Run(first.after, ops[1..]);
      DelegationsAppend(first.events, rest.events);
      DelegationsFresh(first.after, ops[1..]);
      assert first.events[1..] == [];
      // the rest of the run starts either from the same slot, from an empty
      // one, or armed with a client built by this step
      assert first.after.next == s.next || first.after.next.None?
        || !Issued(first.after.next.value, s.constructions);
    }
  }

  /** No two of these requests were served by the same client. */
  ghost predicate SingleServing<Req>(ds: seq<Delegation<Req>>)
  {
    forall i, j :: 0 <= i < j < |ds| ==> ds[i].client != ds[j].client
  }

  /** Single-serving clients: no client serves two requests. */
  lemma {:induction false} DelegatedClientsDistinct<T, FE, Req, E>(s: ClientPerRequest<T, FE>, ops: seq<Op<Req, E>>)
    requires s.newClient.BuildsFrom(s.constructions)
    requires s.WellFormed()
    ensures SingleServing(Delegations(Run(s, ops).events))
    decreases |ops|
  {
    if ops != [] {
      var first := Step(s, ops[0]);
      var rest := Run(first.after, ops[1..]);
      DelegationsAppend(first.events, rest.events);
      DelegatedClientsDistinct(first.after, ops[1..]);
      assert first.events[1..] == [];
      if ops[0].Invoke? {
        // the served client was built before the rest of the run starts,
        // and the rest starts with an empty slot, so it only serves clients
        // built after this one
        DelegationsFresh(first.after, ops[1..]);
        var d := Delegations(first.events)[0];
        var tail := Delegations(rest.events);
        assert Issued(d.client, first.after.constructions);
        assert forall j :: 0 <= j < |tail| ==> tail[j] in tail && d.client != tail[j].client;
      }
    }
  }

  /** Polls on an armed service build nothing and change nothing, even when
      the armed client reports an error: each poll reports the armed
      client's own answer. */
  lemma {:induction false} ArmedPollsBuildNothing<T, FE, Req, E>(s: ClientPerRequest<T, FE>, ops: seq<Op<Req, E>>)
    requires s.newClient.BuildsFrom(s.constructions)
    requires s.next.Some?
    requires AllPolls(ops)
    ensures var t := Run(s, ops);
            && t.after == s
            && Delegations(t.events) == []
            && forall i :: 0 <= i < |ops| ==>
                 t.events[i] == Checked(s.next.value, ops[i].readiness(s.next.value))
    decreases |ops|
  {
    if ops != [] {
      var first := Step(s, ops[0]);
      assert AllPolls(ops[1..]) by {
        forall i | 0 <= i < |ops[1..]| ensures ops[1..][i].Poll? {
          assert ops[1..][i] == ops[i + 1];
        }
      }
      ArmedPollsBuildNothing(first.after, ops[1..]);
      var rest := Run(first.after, ops[1..]);
      DelegationsAppend(first.events, rest.events);
      var t := Run(s, ops);
      forall i | 0 <= i < |ops|
        ensures t.events[i] == Checked(s.next.value, ops[i].readiness(s.next.value))
      {
        if i > 0 {
          assert t.events[i] == rest.events[i - 1];
          assert ops[1..][i - 1] == ops[i];
        }
      }
    }
  }

  /** Polls on an empty service build exactly one client, which stays armed,
      provided that client does not fail the first poll: later answers,
      pending or failed, never cause another construction. */
  lemma {:induction false} EmptyPollsBuildOnce<T, FE, Req, E>(s: ClientPerRequest<T, FE>, ops: seq<Op<Req, E>>)
    requires s.newClient.BuildsFrom(s.constructions)
    requires s.next.None?
    requires |ops| > 0 && AllPolls(ops)
    // the client the first poll builds answers it without failing
    requires !ops[0].readiness(s.constructions).Failed?
    ensures var t := Run(s, ops);
            && t.after.constructions == s.constructions + 1
            && t.after.next.Some?
            && !Issued(t.after.next.value, s.constructions)
            && t.after.newClient == s.newClient
            && Delegations(t.events) == []
  {
    var first := Step(s, ops[0]);
    assert ops[0].Poll?;
    assert AllPolls(ops[1..]) by {
      forall i | 0 <= i < |ops[1..]| ensures ops[1..][i].Poll? {
        assert ops[1..][i] == ops[i + 1];
      }
    }
    ArmedPollsBuildNothing(first.after, ops[1..]);
    DelegationsAppend(first.events, Run(first.after, ops[1..]).events);
  }
}
