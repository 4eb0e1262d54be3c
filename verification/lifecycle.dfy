/** The lifecycle of a per-request service as a reference machine that knows
    nothing of clients or factories: the slot is either `Armed` or `Empty`,
    and each operation is labelled by what the caller observed. */
module Lifecycle {

  datatype Phase = Armed | Empty

  /** A readiness check that did not fail (ready or pending), one that failed,
      or a call. */
  datatype Label = CheckOk | CheckErr | Invoke

  /** The transition table of the service's slot. */
  function Next(p: Phase, l: Label): Phase
  {
    match (p, l)
    case (Armed, CheckOk) => Armed
    case (Armed, CheckErr) => Armed
    case (Armed, Invoke) => Empty
    case (Empty, CheckOk) => Armed
    case (Empty, CheckErr) => Empty
    case (Empty, Invoke) => Empty
  }

  /** Clients an operation builds from phase `p`: every operation on an empty
      slot builds exactly one, and none on an armed slot. */
  function Cost(p: Phase): nat
  {
    match p
    case Armed => 0
    case Empty => 1
  }

  /** Where a sequence of operations leaves the slot, and how many clients
      it built along the way. */
  datatype Summary = Summary(phase: Phase, built: nat)

  function Replay(p: Phase, labels: seq<Label>): (r: Summary)
    ensures r.built <= |labels|
    decreases |labels|
  {
    if labels == [] then Summary(p, 0)
    else
      var rest := Replay(Next(p, labels[0]), labels[1..]);
      Summary(rest.phase, Cost(p) + rest.built)
  }
}
