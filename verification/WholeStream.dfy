/** The deshredder on a stream of many slots: an honest slot in the middle of anything. */
module WholeStream {
  import opened Shreds
  import opened SlotSpec
  import opened SlotLaws
  import opened SlotRun
  import opened RingSpec
  import opened RingProjection
  import opened HonestBlock
  import opened HonestRuns
  import opened Refinement

  /**
   Among any shreds of other slots, as long as no later slot takes its place in the ring: of a
   slot whose own shreds are data shreds of one block, exactly those indices are handed out
   whose data set, and the end before it, are among the shreds received.
   */
  lemma HonestSlotInAnyStream(shreds: seq<Shred>, slot: nat, recover: seq<Shred> -> Rebuilt, b: seq<Shred>)
    requires NotReplaced(shreds, slot)
    requires DataStream(b, slot, Own(shreds, |shreds|, slot))
    ensures var own := Own(shreds, |shreds|, slot);
      var log := LogOf(LogRing(shreds, |shreds|, recover), slot);
      && (forall k | 0 <= k < |log| :: IsSetOf(b, log[k]))
      && (forall i: nat | i < |b| :: Covers(log, i) <==> Ready(b, Received(own, |own|), i))
  {
    hide *;
    SlotSeesOnlyItself(shreds, slot, recover);
    HandedOutByReceived(slot, Own(shreds, |shreds|, slot), recover, b);
  }
}
