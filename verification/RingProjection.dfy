/**
 A slot in the ring behaves as if it were alone, until a slot a full history later takes its
 place: whatever other slots' shreds are interleaved, it sees exactly its own shreds.
 */
module RingProjection {
  import opened Options
  import opened Shreds
  import opened SlotSpec
  import opened SlotLaws
  import opened SlotRun
  import opened RingSpec
  import opened ExactlyOnce

  /** The shreds of `slot` among the first `n`. */
  function Own(shreds: seq<Shred>, n: nat, slot: nat): seq<Shred>
    requires n <= |shreds|
  {
    if n == 0 then [] else
    Own(shreds, n - 1, slot) + if shreds[n - 1].slot == slot then [shreds[n - 1]] else []
  }

  /** The part of a log that is about `slot`. */
  function LogOf(log: seq<Taken>, slot: nat): seq<Taken> {
    if log == [] then [] else
    LogOf(log[..|log| - 1], slot) + if log[|log| - 1].slot == slot then [log[|log| - 1]] else []
  }

  /** No shred of a later slot that shares the ring position of `slot`. */
  ghost predicate NotReplaced(shreds: seq<Shred>, slot: nat) {
    forall i | 0 <= i < |shreds| && shreds[i].slot % SLOT_HISTORY_SIZE == slot % SLOT_HISTORY_SIZE ::
      shreds[i].slot <= slot
  }

  lemma {:induction false} LogOfConcat(a: seq<Taken>, b: seq<Taken>, slot: nat)
    ensures LogOf(a + b, slot) == LogOf(a, slot) + LogOf(b, slot)
  {
    if b == [] {
      assert a + b == a;
    } else {
      LogOfConcat(a, b[..|b| - 1], slot);
      assert (a + b)[..|a + b| - 1] == a + b[..|b| - 1];
    }
  }

  lemma {:induction false} LogOfOwn(log: seq<Taken>, slot: nat, own: nat)
    requires forall k | 0 <= k < |log| :: log[k].slot == own
    ensures LogOf(log, slot) == if slot == own then log else []
  {
    if log != [] {
      LogOfOwn(log[..|log| - 1], slot, own);
      assert log == log[..|log| - 1] + [log[|log| - 1]];
    }
  }

  lemma {:induction false} RunPrefix(slot: nat, shreds: seq<Shred>, x: Shred, n: nat, recover: seq<Shred> -> Rebuilt)
    requires n <= |shreds|
    ensures RunSlot(slot, shreds + [x], n, recover) == RunSlot(slot, shreds, n, recover)
    ensures LogSlot(slot, shreds + [x], n, recover) == LogSlot(slot, shreds, n, recover)
  {
    hide Insert;
    if n > 0 {
      RunPrefix(slot, shreds, x, n - 1, recover);
      assert (shreds + [x])[n - 1] == shreds[n - 1];
    }
  }

  /** The ring position of `slot` holds the state of `own` run alone, or something older while `own` is empty. */
  ghost predicate HoldsRun(ring: Ring, slot: nat, own: seq<Shred>, recover: seq<Shred> -> Rebuilt) {
    var entry := ring[slot % SLOT_HISTORY_SIZE];
    if own == [] then entry.Some? ==> entry.value.slot < slot
    else entry == Some(RunSlot(slot, own, |own|, recover)) && entry.value.slot == slot
  }

  lemma OwnStep(ring: Ring, slot: nat, own: seq<Shred>, x: Shred, recover: seq<Shred> -> Rebuilt)
    requires RingSound(ring) && HoldsRun(ring, slot, own, recover) && x.slot == slot
    ensures var o := InsertRing(ring, x, recover);
      && HoldsRun(o.ring, slot, own + [x], recover)
      && LogSlot(slot, own + [x], |own| + 1, recover) == LogSlot(slot, own, |own|, recover) + o.taken
  {
    hide Insert, Sound;
    assert StateFor(ring, slot) == RunSlot(slot, own, |own|, recover);
    NewSlotSound(slot);
    InsertEmits(StateFor(ring, slot), x, recover);
    RunPrefix(slot, own, x, |own|, recover);
  }

  lemma OtherStep(ring: Ring, slot: nat, own: seq<Shred>, x: Shred, recover: seq<Shred> -> Rebuilt)
    requires RingSound(ring) && HoldsRun(ring, slot, own, recover) && x.slot != slot
    requires x.slot % SLOT_HISTORY_SIZE == slot % SLOT_HISTORY_SIZE ==> x.slot < slot
    ensures var o := InsertRing(ring, x, recover);
      && HoldsRun(o.ring, slot, own, recover)
      && LogOf(o.taken, slot) == []
  {
    hide Insert, Sound;
    if !Superseded(ring, x.slot) {
      NewSlotSound(x.slot);
      InsertEmits(StateFor(ring, x.slot), x, recover);
      LogOfOwn(InsertRing(ring, x, recover).taken, slot, x.slot);
    }
  }

  lemma OwnTaken(ring: Ring, x: Shred, recover: seq<Shred> -> Rebuilt)
    requires RingSound(ring)
    ensures LogOf(InsertRing(ring, x, recover).taken, x.slot) == InsertRing(ring, x, recover).taken
  {
    hide Insert, Sound;
    if !Superseded(ring, x.slot) {
      NewSlotSound(x.slot);
      InsertEmits(StateFor(ring, x.slot), x, recover);
      LogOfOwn(InsertRing(ring, x, recover).taken, x.slot, x.slot);
    }
  }

  function Appended(own: seq<Shred>, x: Shred, slot: nat): seq<Shred> {
    own + if x.slot == slot then [x] else []
  }

  lemma StepProjects(ring: Ring, slot: nat, own: seq<Shred>, x: Shred, recover: seq<Shred> -> Rebuilt)
    requires RingSound(ring) && HoldsRun(ring, slot, own, recover)
    requires x.slot % SLOT_HISTORY_SIZE == slot % SLOT_HISTORY_SIZE ==> x.slot <= slot
    ensures var o := InsertRing(ring, x, recover);
      var longer := Appended(own, x, slot);
      && HoldsRun(o.ring, slot, longer, recover)
      && LogSlot(slot, longer, |longer|, recover) == LogSlot(slot, own, |own|, recover) + LogOf(o.taken, slot)
  {
    hide InsertRing, HoldsRun, LogSlot, LogOf, RingSound;
    if x.slot == slot {
      OwnStep(ring, slot, own, x, recover);
      OwnTaken(ring, x, recover);
    } else {
      OtherStep(ring, slot, own, x, recover);
      assert own + [] == own;
    }
  }

  lemma {:induction false} RunProjects(shreds: seq<Shred>, n: nat, slot: nat, recover: seq<Shred> -> Rebuilt)
    requires n <= |shreds| && NotReplaced(shreds, slot)
    ensures var own := Own(shreds, n, slot);
      && HoldsRun(RunRing(shreds, n, recover), slot, own, recover)
      && LogOf(LogRing(shreds, n, recover), slot) == LogSlot(slot, own, |own|, recover)
  {
    hide InsertRing, HoldsRun, LogSlot, LogOf;
    if n == 0 {
      EmptyHolds(slot, recover);
    } else {
      RunProjects(shreds, n - 1, slot, recover);
      RunKeeps(shreds, n - 1, recover);
      hide RingSound, LogSound, NotReplaced;
      var ring, own, x := RunRing(shreds, n - 1, recover), Own(shreds, n - 1, slot), shreds[n - 1];
      LogOfConcat(LogRing(shreds, n - 1, recover), InsertRing(ring, x, recover).taken, slot);
      NotReplacedAt(shreds, slot, n - 1);
      StepProjects(ring, slot, own, x, recover);
    }
  }

  lemma NotReplacedAt(shreds: seq<Shred>, slot: nat, i: nat)
    requires NotReplaced(shreds, slot) && i < |shreds|
    ensures shreds[i].slot % SLOT_HISTORY_SIZE == slot % SLOT_HISTORY_SIZE ==> shreds[i].slot <= slot
  {}

  lemma EmptyHolds(slot: nat, recover: seq<Shred> -> Rebuilt)
    ensures HoldsRun(EmptyRing(), slot, [], recover)
    ensures LogSlot(slot, [], 0, recover) == [] == LogOf([], slot)
  {}

  /**
   Over any run in which no later slot takes its ring position, a slot ends in the state, and
   hands out the data sets, that its own shreds alone would give.
   */
  lemma SlotSeesOnlyItself(shreds: seq<Shred>, slot: nat, recover: seq<Shred> -> Rebuilt)
    requires NotReplaced(shreds, slot)
    ensures var own := Own(shreds, |shreds|, slot);
      && LogOf(LogRing(shreds, |shreds|, recover), slot) == LogSlot(slot, own, |own|, recover)
      && (own != [] ==>
            RunRing(shreds, |shreds|, recover)[slot % SLOT_HISTORY_SIZE] == Some(RunSlot(slot, own, |own|, recover)))
  {
    RunProjects(shreds, |shreds|, slot, recover);
  }
}
