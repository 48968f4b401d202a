/** Runs of shreds into one slot. */
module SlotRun {
  import opened Options
  import opened Shreds
  import opened SlotSpec

  /** The slot after the first `n` shreds. */
  ghost function RunSlot(slot: nat, shreds: seq<Shred>, n: nat, recover: seq<Shred> -> Rebuilt): Slot
    requires n <= |shreds|
  {
    if n == 0 then NewSlot(slot) else Insert(RunSlot(slot, shreds, n - 1, recover), shreds[n - 1], recover).state
  }

  /** What the first `n` shreds made it hand out, in order. */
  ghost function LogSlot(slot: nat, shreds: seq<Shred>, n: nat, recover: seq<Shred> -> Rebuilt): seq<Taken>
    requires n <= |shreds|
  {
    if n == 0 then [] else
    LogSlot(slot, shreds, n - 1, recover) + Insert(RunSlot(slot, shreds, n - 1, recover), shreds[n - 1], recover).taken
  }

  /** How often the first `n` shreds made it attempt to recover the FEC set `fec`. */
  ghost function Attempts(slot: nat, shreds: seq<Shred>, n: nat, recover: seq<Shred> -> Rebuilt, fec: nat): nat
    requires n <= |shreds|
  {
    if n == 0 then 0 else
    Attempts(slot, shreds, n - 1, recover, fec) +
    if shreds[n - 1].fecSetIndex == fec
       && Insert(RunSlot(slot, shreds, n - 1, recover), shreds[n - 1], recover).recovery.Some? then 1 else 0
  }
}
