/** Delivery statuses only move forward: a run of receipts computes a maximum of ranks. */
module StatusLattice {

  /** One receipt: taken when strictly ahead, otherwise refused. */
  function Advance(current: nat, incoming: nat): nat {
    if incoming > current then incoming else current
  }

  function AdvanceAll(current: nat, incoming: seq<nat>): nat {
    if incoming == [] then current
    else Advance(AdvanceAll(current, incoming[..|incoming| - 1]), incoming[|incoming| - 1])
  }

  /** The outcome is the greatest of the start and all receipts. */
  lemma {:induction false} AdvanceAllIsMax(current: nat, incoming: seq<nat>)
    ensures AdvanceAll(current, incoming) == current || AdvanceAll(current, incoming) in incoming
    ensures AdvanceAll(current, incoming) >= current
    ensures forall r :: r in incoming ==> AdvanceAll(current, incoming) >= r
  {
    if incoming == [] {
    } else {
      AdvanceAllIsMax(current, incoming[..|incoming| - 1]);
      assert incoming == incoming[..|incoming| - 1] + [incoming[|incoming| - 1]];
    }
  }

  /** Order and repetition of receipts do not matter. */
  lemma OrderIrrelevant(current: nat, a: seq<nat>, b: seq<nat>)
    requires forall r :: r in a <==> r in b
    ensures AdvanceAll(current, a) == AdvanceAll(current, b)
  {
    AdvanceAllIsMax(current, a);
    AdvanceAllIsMax(current, b);
  }
}
