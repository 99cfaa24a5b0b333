/** First positions in queues that grow at the back. */
module Fifo {

  function FirstAt(queue: seq<nat>, x: nat): (k: nat)
    requires x in queue
    ensures k < |queue| && queue[k] == x && x !in queue[..k]
  {
    if queue[0] == x then 0 else 1 + FirstAt(queue[1..], x)
  }

  /** Newcomers do not move anybody back. */
  lemma {:induction false} FirstAtSnoc(queue: seq<nat>, x: nat, newcomer: nat)
    requires x in queue
    ensures x in queue + [newcomer] && FirstAt(queue + [newcomer], x) == FirstAt(queue, x)
  {
    if queue[0] != x {
      assert (queue + [newcomer])[1..] == queue[1..] + [newcomer];
      FirstAtSnoc(queue[1..], x, newcomer);
    }
  }
}
