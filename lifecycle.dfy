/** The order lifecycle: which status changes are allowed, and the random
    draws that drive the background processing of an order. */
module Lifecycle {
  import opened Market

  /** Position of a status in the lifecycle; it never goes down. */
  function Rank(s: OrderStatus): nat {
    match s
    case Pending => 0
    case Executed => 1
    case Cancelled => 2
  }

  /** The status changes an order may go through: PENDING to EXECUTED,
      PENDING to CANCELLED and EXECUTED to CANCELLED (or none at all):
      exactly those that do not lower the rank. */
  predicate Transition(from: OrderStatus, to: OrderStatus)
    ensures Transition(from, to) <==> Rank(from) <= Rank(to)
  {
    from == to ||
    (from == Pending && to == Executed) ||
    (from == Pending && to == Cancelled) ||
    (from == Executed && to == Cancelled)
  }

  /** CANCELLED is absorbing and nothing returns to PENDING. */
  lemma CancelledIsFinal(from: OrderStatus, to: OrderStatus)
    ensures from == Cancelled && Transition(from, to) ==> to == Cancelled
    ensures to == Pending && Transition(from, to) ==> from == Pending
  {
  }

  /** Along any sequence of allowed changes, the first status and the last
      are related by an allowed change, and once CANCELLED an order stays so. */
  lemma {:induction false} TraceTransition(trace: seq<OrderStatus>)
    requires |trace| > 0
    requires forall i :: 0 < i < |trace| ==> Transition(trace[i - 1], trace[i])
    ensures Transition(trace[0], trace[|trace| - 1])
    ensures forall i :: 0 <= i < |trace| && trace[i] == Cancelled ==> trace[|trace| - 1] == Cancelled
  {
    if |trace| > 1 {
      var prefix := trace[..|trace| - 1];
      TraceTransition(prefix);
      CancelledIsFinal(trace[0], prefix[|prefix| - 1]);
      CancelledIsFinal(prefix[|prefix| - 1], trace[|trace| - 1]);
      CancelledIsFinal(trace[0], trace[|trace| - 1]);
      forall i | 0 <= i < |trace| && trace[i] == Cancelled
        ensures trace[|trace| - 1] == Cancelled
      {
        if i < |trace| - 1 {
          assert prefix[i] == Cancelled;
        }
      }
    }
  }

  /** The simulated processing durations, in tenths of a second
      (0.2, 0.4, 0.6, 0.7 and 2.0 seconds). */
  const Durations: seq<nat> := [2, 4, 6, 7, 20]

  /** The processing timeout, in tenths of a second (1 second). */
  const Timeout: nat := 10

  /** The status the processor sets for a drawn duration: EXECUTED when the
      duration is under the timeout, CANCELLED otherwise. */
  function FirstStatus(durationIndex: nat): (s: OrderStatus)
    requires durationIndex < |Durations|
    ensures s != Pending
    ensures s == Cancelled <==> durationIndex == 4
  {
    if Durations[durationIndex] < Timeout then Executed else Cancelled
  }

  /** Whether an order the processor has just set to `first` is clawed back,
      for a die drawn from 0 to 5. */
  function ClawsBack(first: OrderStatus, die: nat): (b: bool)
    ensures b ==> first == Executed
    ensures first == Executed ==> (b <==> die == 5)
  {
    first == Executed && die == 5
  }

  /** The status the processor leaves a PENDING order in. */
  function FinalStatus(durationIndex: nat, die: nat): (s: OrderStatus)
    requires durationIndex < |Durations|
    ensures Transition(Pending, FirstStatus(durationIndex)) && Transition(FirstStatus(durationIndex), s)
    ensures s != Pending
    ensures s == Executed <==> durationIndex != 4 && die != 5
  {
    var first := FirstStatus(durationIndex);
    if ClawsBack(first, die) then Cancelled else first
  }

  /** Four of the five durations are under the timeout, and exactly one of
      the six die faces claws an executed order back: odds of 1 in 6. */
  lemma ProcessingOdds()
    ensures (set i | 0 <= i < |Durations| && FirstStatus(i) == Executed) == {0, 1, 2, 3}
    ensures |set d | 0 <= d <= 5 && ClawsBack(Executed, d)| == 1
  {
    assert (set d | 0 <= d <= 5 && ClawsBack(Executed, d)) == {5};
  }
}
