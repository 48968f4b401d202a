/** The value of the whole deshredder, a ring of slots, and what one shred does to it. */
module RingSpec {
  import opened Options
  import opened Shreds
  import opened SlotSpec

  const SLOT_HISTORY_SIZE: nat := 256

  type Ring = r: seq<Option<Slot>> | |r| == SLOT_HISTORY_SIZE
    witness seq(SLOT_HISTORY_SIZE, _ => None)

  function EmptyRing(): Ring { seq(SLOT_HISTORY_SIZE, _ => None) }

  datatype RingOutcome = RingOutcome(ring: Ring, recovery: Option<Recovery>, taken: seq<Taken>)

  /** The ring position of `slot` already belongs to a later slot. */
  predicate Superseded(ring: Ring, slot: nat) {
    var entry := ring[slot % SLOT_HISTORY_SIZE];
    entry.Some? && entry.value.slot > slot
  }

  /** The state a shred of `slot` is inserted into: an older slot's entry is replaced. */
  function StateFor(ring: Ring, slot: nat): Slot {
    var entry := ring[slot % SLOT_HISTORY_SIZE];
    if entry.Some? && entry.value.slot == slot then entry.value else NewSlot(slot)
  }

  ghost function InsertRing(ring: Ring, shred: Shred, recover: seq<Shred> -> Rebuilt): RingOutcome {
    if Superseded(ring, shred.slot) then RingOutcome(ring, None, []) else
    var o := Insert(StateFor(ring, shred.slot), shred, recover);
    RingOutcome(ring[shred.slot % SLOT_HISTORY_SIZE := Some(o.state)], o.recovery, o.taken)
  }

  /** The ring after the first `n` shreds of a stream. */
  ghost function RunRing(shreds: seq<Shred>, n: nat, recover: seq<Shred> -> Rebuilt): Ring
    requires n <= |shreds|
  {
    if n == 0 then EmptyRing() else InsertRing(RunRing(shreds, n - 1, recover), shreds[n - 1], recover).ring
  }

  /** Everything handed out over the first `n` shreds, in order. */
  ghost function LogRing(shreds: seq<Shred>, n: nat, recover: seq<Shred> -> Rebuilt): seq<Taken>
    requires n <= |shreds|
  {
    if n == 0 then [] else
    LogRing(shreds, n - 1, recover) + InsertRing(RunRing(shreds, n - 1, recover), shreds[n - 1], recover).taken
  }
}
