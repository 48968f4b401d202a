/**
 Safety of whole runs, for arbitrary shreds of arbitrary slots and an arbitrary decoder:
 no shred index of a slot is handed out twice, whatever is duplicated, late, or pushed out
 of the ring, and what is handed out is always one whole data set.
 */
module ExactlyOnce {
  import opened Options
  import opened Bitset
  import opened Shreds
  import opened SlotSpec
  import opened SlotLaws
  import opened RingSpec

  /** Consecutive data shreds of which exactly the last ends a data set. */
  ghost predicate WholeDataSet(t: Taken) {
    && t.start <= t.end
    && |t.shreds| == t.end - t.start + 1
    && forall k | 0 <= k < |t.shreds| ::
         && t.shreds[k].isData
         && t.shreds[k].index == t.start + k
         && (t.shreds[k].dataComplete <==> k == |t.shreds| - 1)
  }

  predicate Contains(t: Taken, i: nat) { t.start <= i <= t.end }

  ghost predicate Disjoint(a: Taken, b: Taken) {
    a.end < b.start || b.end < a.start
  }

  // ----- one insertion -----

  lemma TakenIsWhole(s: Slot, t: Taken)
    requires CellsSound(s) && TakenFrom(s, t)
    ensures WholeDataSet(t)
  {
    forall k | 0 <= k < |t.shreds|
      ensures t.shreds[k].isData && t.shreds[k].index == t.start + k
      ensures t.shreds[k].dataComplete <==> k == |t.shreds| - 1
    {
      var i := t.start + k;
      assert HeldAt(s.cells, i) && t.shreds[i - t.start] == s.cells[i].shred;
      assert i < t.end ==> i !in s.ends;
    }
  }

  /** What one insertion does to the emitted cells of a slot. */
  lemma InsertEmits(s: Slot, shred: Shred, recover: seq<Shred> -> Rebuilt)
    requires Sound(s)
    ensures var o := Insert(s, shred, recover);
      && Sound(o.state)
      && o.state.slot == s.slot
      && o.state.emitted == s.emitted + Total(o.taken)
      && Ascending(o.taken)
      && (forall k | 0 <= k < |o.taken| :: o.taken[k].slot == s.slot && WholeDataSet(o.taken[k]))
      && (s.finished ==> o == Outcome(s, None, []))
      && (forall i: nat | Covers(o.taken, i) :: !EmittedAt(s.cells, i))
      && (!o.state.finished ==>
            forall i: nat :: EmittedAt(o.state.cells, i) <==> EmittedAt(s.cells, i) || Covers(o.taken, i))
  {
    if !s.finished {
      TakeInSound(s, shred, recover);
      TakeInKeepsTally(s, shred, recover);
      var t := TakeIn(s, shred, recover);
      if t.searched.Some? {
        var (first, last) := t.searched.value;
        Emissions(t.state, SegmentStart(t.state.ends, first), first, last);
        EmissionTally(s, t.state, SegmentStart(t.state.ends, first), TakeCompleted(t.state, first, last));
      }
    }
  }

  lemma EmissionTally(s: Slot, t: Slot, start: nat, e: Emission)
    requires Sound(t) && !t.finished && t.slot == s.slot
    requires forall i: nat :: EmittedAt(t.cells, i) <==> EmittedAt(s.cells, i)
    requires HandsOut(t, start, e.taken) && Marks(t, e)
    ensures forall k | 0 <= k < |e.taken| :: e.taken[k].slot == s.slot && WholeDataSet(e.taken[k])
    ensures forall i: nat | Covers(e.taken, i) :: !EmittedAt(s.cells, i)
    ensures !e.state.finished ==>
      forall i: nat :: EmittedAt(e.state.cells, i) <==> EmittedAt(s.cells, i) || Covers(e.taken, i)
  {
    forall k | 0 <= k < |e.taken| ensures e.taken[k].slot == s.slot && WholeDataSet(e.taken[k]) {
      TakenIsWhole(t, e.taken[k]);
    }
    forall i: nat | Covers(e.taken, i) ensures HeldAt(t.cells, i) {
      var k :| 0 <= k < |e.taken| && e.taken[k].start <= i <= e.taken[k].end;
      assert TakenFrom(t, e.taken[k]);
    }
  }

  lemma InsertRebuiltKeepsTally(s: Slot, shreds: seq<Option<Shred>>, n: nat)
    requires n <= |shreds|
    ensures InsertRebuilt(s, shreds, n).emitted == s.emitted && InsertRebuilt(s, shreds, n).slot == s.slot
  {
    if n > 0 {
      InsertRebuiltKeepsTally(s, shreds, n - 1);
    }
  }

  lemma TakeInKeepsTally(s: Slot, shred: Shred, recover: seq<Shred> -> Rebuilt)
    ensures TakeIn(s, shred, recover).state.emitted == s.emitted
    ensures TakeIn(s, shred, recover).state.slot == s.slot
  {
    hide Position, SwapRemove, NoneMissing, CountHeld;
    var t := if shred.isData then InsertData(s, shred) else InsertCoding(s, shred);
    var fec := shred.fecSetIndex;
    if Position(t.coding, fec) < |t.coding| {
      RefilledKeepsCoding(t, fec, recover);
      var rebuilt := recover(RecoveryInput(t, fec));
      if rebuilt.Rebuilt? {
        InsertRebuiltKeepsTally(Attempted(t, fec), rebuilt.shreds, |rebuilt.shreds|);
      }
    }
  }

  // ----- runs -----

  ghost predicate RingSound(ring: Ring) {
    forall k | 0 <= k < SLOT_HISTORY_SIZE && ring[k].Some? ::
      Sound(ring[k].value) && ring[k].value.slot % SLOT_HISTORY_SIZE == k
  }

  /** The ring remembers that `t` was handed out, or has moved on to a later slot. */
  ghost predicate Remembered(ring: Ring, t: Taken) {
    var entry := ring[t.slot % SLOT_HISTORY_SIZE];
    && entry.Some?
    && t.slot <= entry.value.slot
    && (entry.value.slot == t.slot ==>
          entry.value.finished || forall i | t.start <= i <= t.end :: EmittedAt(entry.value.cells, i))
  }

  /** How many shreds of `slot` a log holds. */
  ghost function SlotTotal(log: seq<Taken>, slot: nat): int {
    if log == [] then 0 else
    var t := log[|log| - 1];
    SlotTotal(log[..|log| - 1], slot) + if t.slot == slot then t.end - t.start + 1 else 0
  }

  ghost predicate LogSound(log: seq<Taken>, ring: Ring) {
    && (forall k | 0 <= k < |log| :: WholeDataSet(log[k]) && Remembered(ring, log[k]))
    && (forall j, k | 0 <= j < k < |log| && log[j].slot == log[k].slot :: Disjoint(log[j], log[k]))
    && (forall k | 0 <= k < SLOT_HISTORY_SIZE && ring[k].Some? ::
          SlotTotal(log, ring[k].value.slot) == ring[k].value.emitted)
  }

  lemma {:induction false} SlotTotalConcat(a: seq<Taken>, b: seq<Taken>, slot: nat)
    ensures SlotTotal(a + b, slot) == SlotTotal(a, slot) + SlotTotal(b, slot)
  {
    if b == [] {
      assert a + b == a;
    } else {
      SlotTotalConcat(a, b[..|b| - 1], slot);
      assert (a + b)[..|a + b| - 1] == a + b[..|b| - 1];
    }
  }

  lemma {:induction false} SlotTotalOwn(log: seq<Taken>, slot: nat, own: nat)
    requires forall k | 0 <= k < |log| :: log[k].slot == own
    ensures SlotTotal(log, slot) == if slot == own then Total(log) else 0
  {
    if log != [] {
      SlotTotalOwn(log[..|log| - 1], slot, own);
    }
  }

  lemma {:induction false} SlotTotalAbsent(log: seq<Taken>, slot: nat)
    requires forall k | 0 <= k < |log| :: log[k].slot != slot
    ensures SlotTotal(log, slot) == 0
  {
    if log != [] {
      SlotTotalAbsent(log[..|log| - 1], slot);
    }
  }

  /** The state a shred goes into is sound and agrees with the log. */
  lemma StateForSound(log: seq<Taken>, ring: Ring, slot: nat)
    requires RingSound(ring) && LogSound(log, ring) && !Superseded(ring, slot)
    ensures Sound(StateFor(ring, slot)) && StateFor(ring, slot).slot == slot
    ensures SlotTotal(log, slot) == StateFor(ring, slot).emitted
    ensures forall k | 0 <= k < |log| && log[k].slot == slot ::
      StateFor(ring, slot).finished
      || forall i | log[k].start <= i <= log[k].end :: EmittedAt(StateFor(ring, slot).cells, i)
  {
    NewSlotSound(slot);
    var entry := ring[slot % SLOT_HISTORY_SIZE];
    if !(entry.Some? && entry.value.slot == slot) {
      forall k | 0 <= k < |log| ensures log[k].slot != slot {
        assert Remembered(ring, log[k]);
      }
      SlotTotalAbsent(log, slot);
    }
  }

  lemma RememberedStep(ring: Ring, shred: Shred, recover: seq<Shred> -> Rebuilt, t: Taken)
    requires RingSound(ring) && Remembered(ring, t) && !Superseded(ring, shred.slot)
    ensures Remembered(InsertRing(ring, shred, recover).ring, t)
  {
    hide Sound, Insert;
    if t.slot % SLOT_HISTORY_SIZE == shred.slot % SLOT_HISTORY_SIZE {
      NewSlotSound(shred.slot);
      InsertEmits(StateFor(ring, shred.slot), shred, recover);
    }
  }

  lemma NewlyRemembered(ring: Ring, shred: Shred, recover: seq<Shred> -> Rebuilt, k: nat)
    requires RingSound(ring) && !Superseded(ring, shred.slot)
    requires k < |InsertRing(ring, shred, recover).taken|
    ensures var o := InsertRing(ring, shred, recover);
      o.taken[k].slot == shred.slot && WholeDataSet(o.taken[k]) && Remembered(o.ring, o.taken[k])
  {
    hide Sound, Insert, WholeDataSet;
    NewSlotSound(shred.slot);
    InsertEmits(StateFor(ring, shred.slot), shred, recover);
    var o := InsertRing(ring, shred, recover);
    forall i | o.taken[k].start <= i <= o.taken[k].end ensures Covers(o.taken, i) {}
  }

  lemma StepKeepsRing(ring: Ring, shred: Shred, recover: seq<Shred> -> Rebuilt)
    requires RingSound(ring)
    ensures RingSound(InsertRing(ring, shred, recover).ring)
  {
    if !Superseded(ring, shred.slot) {
      NewSlotSound(shred.slot);
      InsertEmits(StateFor(ring, shred.slot), shred, recover);
    }
  }

  /** Nothing handed out now overlaps anything handed out before, or anything else handed out now. */
  lemma StepDisjoint(log: seq<Taken>, ring: Ring, shred: Shred, recover: seq<Shred> -> Rebuilt)
    requires RingSound(ring) && LogSound(log, ring) && !Superseded(ring, shred.slot)
    ensures var taken := InsertRing(ring, shred, recover).taken;
      && (forall j, k | 0 <= j < |log| && 0 <= k < |taken| && log[j].slot == taken[k].slot :: Disjoint(log[j], taken[k]))
      && (forall j, k | 0 <= j < k < |taken| :: Disjoint(taken[j], taken[k]))
  {
    StateForSound(log, ring, shred.slot);
    var s := StateFor(ring, shred.slot);
    InsertEmits(s, shred, recover);
    hide Sound, Insert, EmittedAt;
    var taken := InsertRing(ring, shred, recover).taken;
    forall j, k | 0 <= j < |log| && 0 <= k < |taken| && log[j].slot == taken[k].slot
      ensures Disjoint(log[j], taken[k])
    {
      var a, b := log[j], taken[k];
      assert WholeDataSet(a) && WholeDataSet(b);
      assert Covers(taken, b.start);
      assert b.start <= a.start <= b.end ==> Covers(taken, a.start);
    }
  }

  lemma StepTotals(log: seq<Taken>, ring: Ring, shred: Shred, recover: seq<Shred> -> Rebuilt, k: nat)
    requires RingSound(ring) && LogSound(log, ring) && !Superseded(ring, shred.slot)
    requires k < SLOT_HISTORY_SIZE && InsertRing(ring, shred, recover).ring[k].Some?
    ensures var o := InsertRing(ring, shred, recover);
      SlotTotal(log + o.taken, o.ring[k].value.slot) == o.ring[k].value.emitted
  {
    StateForSound(log, ring, shred.slot);
    InsertEmits(StateFor(ring, shred.slot), shred, recover);
    hide Sound, Insert, EmittedAt, WholeDataSet, Disjoint, Remembered;
    var o := InsertRing(ring, shred, recover);
    SlotTotalConcat(log, o.taken, o.ring[k].value.slot);
    SlotTotalOwn(o.taken, o.ring[k].value.slot, shred.slot);
  }

  lemma StepKeepsLog(log: seq<Taken>, ring: Ring, shred: Shred, recover: seq<Shred> -> Rebuilt)
    requires RingSound(ring) && LogSound(log, ring)
    ensures var o := InsertRing(ring, shred, recover); LogSound(log + o.taken, o.ring)
  {
    var o := InsertRing(ring, shred, recover);
    if Superseded(ring, shred.slot) {
      assert log + o.taken == log;
    } else {
      StepDisjoint(log, ring, shred, recover);
      forall k | 0 <= k < |log + o.taken|
        ensures WholeDataSet((log + o.taken)[k]) && Remembered(o.ring, (log + o.taken)[k])
      {
        if k < |log| {
          RememberedStep(ring, shred, recover, log[k]);
        } else {
          NewlyRemembered(ring, shred, recover, k - |log|);
        }
      }
      forall k | 0 <= k < SLOT_HISTORY_SIZE && o.ring[k].Some?
        ensures SlotTotal(log + o.taken, o.ring[k].value.slot) == o.ring[k].value.emitted
      {
        StepTotals(log, ring, shred, recover, k);
      }
      hide InsertRing, WholeDataSet, Remembered, Disjoint, SlotTotal;
    }
  }

  lemma {:induction false} RunKeeps(shreds: seq<Shred>, n: nat, recover: seq<Shred> -> Rebuilt)
    requires n <= |shreds|
    ensures RingSound(RunRing(shreds, n, recover))
    ensures LogSound(LogRing(shreds, n, recover), RunRing(shreds, n, recover))
  {
    hide RingSound, LogSound, InsertRing;
    if n == 0 {
      EmptyRun();
    } else {
      RunKeeps(shreds, n - 1, recover);
      StepKeepsRing(RunRing(shreds, n - 1, recover), shreds[n - 1], recover);
      StepKeepsLog(LogRing(shreds, n - 1, recover), RunRing(shreds, n - 1, recover), shreds[n - 1], recover);
    }
  }

  lemma EmptyRun()
    ensures RingSound(EmptyRing()) && LogSound([], EmptyRing())
  {}

  /**
   Over any run of any shreds: every data set handed out is whole, no (slot, index) pair is
   ever handed out twice, and each slot still in the ring counts exactly the shreds of it
   that were handed out.
   */
  lemma HandedOutOnce(shreds: seq<Shred>, recover: seq<Shred> -> Rebuilt)
    ensures var log := LogRing(shreds, |shreds|, recover);
      && (forall k | 0 <= k < |log| :: WholeDataSet(log[k]))
      && (forall j, k, i | 0 <= j < k < |log| && log[j].slot == log[k].slot
            && Contains(log[j], i) :: !Contains(log[k], i))
    ensures var ring := RunRing(shreds, |shreds|, recover);
      forall k | 0 <= k < SLOT_HISTORY_SIZE && ring[k].Some? ::
        && SlotTotal(LogRing(shreds, |shreds|, recover), ring[k].value.slot) == ring[k].value.emitted
        && (!ring[k].value.finished ==> ring[k].value.emitted == |EmittedSet(ring[k].value.cells)|)
  {
    RunKeeps(shreds, |shreds|, recover);
    hide RunRing, LogRing;
    var log := LogRing(shreds, |shreds|, recover);
    forall j, k, i | 0 <= j < k < |log| && log[j].slot == log[k].slot && Contains(log[j], i)
      ensures !Contains(log[k], i)
    {
      assert Disjoint(log[j], log[k]);
    }
  }
}
