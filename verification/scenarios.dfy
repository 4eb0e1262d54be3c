/** End-to-end sequences: a factory adapter validating a target, then a
    caller polling and calling the service it produced. */
module Scenarios {
  import opened Wrappers
  import opened Capabilities
  import opened PerRequest
  import opened Traces

  /** The service produced for a validated target answers its first polls
      with the validation-time client, whatever they report, and builds
      nothing more. */
  lemma {:induction false} FirstPollsReuseValidationClient<T, FE, Req, E>(f: Factory<T, FE>, target: T, polls: seq<Op<Req, E>>)
    requires ValidNewClient(f, target).BuildsFrom(0)
    requires AllPolls(polls)
    ensures NewClient(MakeClient(f), target).Success?
    ensures Run(NewClient(MakeClient(f), target).value, polls).after.constructions == 1
    ensures Run(NewClient(MakeClient(f), target).value, polls).after.next == Some(0)
  {
    assert ValidNewClient(f, target).BuildsAt(0);
    ArmedPollsBuildNothing(NewClient(MakeClient(f), target).value, polls);
  }

  /** Polls, a call, polls, a call: however many polls come in between
      (pending or failing ones included, as long as the second client does
      not fail the poll that builds it), exactly two clients are built, the
      validation-time client serves the first request and the second client
      built serves the second. */
  lemma {:induction false} TwoRequestsTwoClients<T, FE, Req, E>(
    f: Factory<T, FE>, target: T,
    p1: seq<Op<Req, E>>, x: Req, p2: seq<Op<Req, E>>, y: Req)
    requires ValidNewClient(f, target).BuildsFrom(0)
    requires AllPolls(p1) && AllPolls(p2)
    // the second client does not fail the first poll that builds it
    requires p2 != [] ==> !p2[0].readiness(1).Failed?
    ensures NewClient(MakeClient(f), target).Success?
    ensures var s := NewClient(MakeClient(f), target).value;
            var t := Run(s, p1 + [Invoke(x)] + p2 + [Invoke(y)]);
            && t.after.constructions == 2
            && t.after.next.None?
            && Delegations(t.events) == [Delegation(0, x), Delegation(1, y)]
  {
    assert ValidNewClient(f, target).BuildsAt(0);
    var s := NewClient(MakeClient(f), target).value;
    assert s.next == Some(0) && s.constructions == 1;
    // the validation-time client answers every poll of p1 ...
    var t1 := Run(s, p1);
    ArmedPollsBuildNothing(s, p1);
    assert t1.after == s;
    // ... and serves x
    var ix: seq<Op<Req, E>> := [Invoke(x)];
    var t2 := Run(t1.after, ix);
    assert ix[1..] == [];
    assert Step(t1.after, ix[0]).after.next.None?;
    assert Run(Step(t1.after, ix[0]).after, ix[1..]).after == Step(t1.after, ix[0]).after;
    assert t2.after.next.None? && t2.after.constructions == 1;
    assert Delegations(t2.events) == [Delegation(0, x)] by {
      assert t2.events[1..] == [];
    }
    // p2 arms client 1, or leaves the slot empty when it holds no poll
    var t3 := Run(t2.after, p2);
    if p2 == [] {
      assert t3 == Trace(t2.after, []);
    } else {
      EmptyPollsBuildOnce(t2.after, p2);
      assert t3.after.next == Some(1) && t3.after.constructions == 2;
    }
    assert Delegations(t3.events) == [];
    // either way client 1 serves y
    var iy: seq<Op<Req, E>> := [Invoke(y)];
    var t4 := Run(t3.after, iy);
    assert iy[1..] == [];
    assert Step(t3.after, iy[0]).after.constructions == 2;
    assert Delegations(t4.events) == [Delegation(1, y)] by {
      assert t4.events[1..] == [];
    }
    RunAppend(s, p1, ix);
    RunAppend(s, p1 + ix, p2);
    RunAppend(s, p1 + ix + p2, iy);
    DelegationsAppend(t1.events, t2.events);
    DelegationsAppend(t1.events + t2.events, t3.events);
    DelegationsAppend(t1.events + t2.events + t3.events, t4.events);
  }

  /** The smallest instance of the above: ready, call, ready, call. */
  lemma ReadyCallReadyCall<T, FE, Req, E>(f: Factory<T, FE>, target: T, x: Req, y: Req)
    requires ValidNewClient(f, target).BuildsFrom(0)
    ensures NewClient(MakeClient(f), target).Success?
    ensures var s := NewClient(MakeClient(f), target).value;
            var ready: Op<Req, E> := Poll(k => Ready);
            var t := Run(s, [ready, Invoke(x), ready, Invoke(y)]);
            && t.after.constructions == 2
            && Delegations(t.events) == [Delegation(0, x), Delegation(1, y)]
  {
    var ready: Op<Req, E> := Poll(k => Ready);
    var polls := [ready];
    assert AllPolls(polls);
    assert [ready, Invoke(x), ready, Invoke(y)] == polls + [Invoke(x)] + polls + [Invoke(y)];
    TwoRequestsTwoClients(f, target, polls, x, polls, y);
  }
}
