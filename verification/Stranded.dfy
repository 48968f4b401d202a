/**
 Exactly when the search around an insertion leaves a whole data set behind: a data shred that
 names a FEC set not covering its index, whose arrival lets that set be recovered, so that the
 recovered range is searched instead of the shred's own place.
 */
module Stranded {
  import opened Options
  import opened Bitset
  import opened Shreds
  import opened SlotSpec
  import opened SlotLaws
  import opened Completeness

  /** The data set that the known end `end` closes is wholly held. */
  ghost predicate HeldSegment(t: Slot, end: nat) {
    end in t.ends && AllHeld(t.cells, SegmentStart(t.ends, end), end + 1)
  }

  /** The data set meets `lo..=hi` or starts right behind it. */
  ghost predicate Near(ends: set<nat>, lo: nat, hi: nat, end: nat) {
    lo <= end && SegmentStart(ends, end) <= hi + 1
  }

  // ----- what the emission loop looks at -----

  lemma {:induction false} TakesOnlyNear(s: Slot, start: nat, from: nat, last: nat)
    requires start <= from <= last + 1
    ensures forall t | t in TakeFrom(s, start, from, last).taken :: from <= t.end && t.start <= last + 1
    decreases last + 1 - from
  {
    hide Take, TakenSet;
    match NextEnd(s.ends, from)
    case None =>
    case Some(end) =>
      var one := TakeIfHeld(s, start, end);
      assert forall t | t in one.taken :: t.end == end && t.start == start by {
        TakenRange(s, start, end);
      }
      if end <= last {
        TakesOnlyNear(one.state, end + 1, end + 1, last);
      }
  }

  lemma TakenRange(s: Slot, start: nat, end: nat)
    requires start <= end
    ensures forall t | t in TakeIfHeld(s, start, end).taken :: t.end == end && t.start == start
  {}

  /** Two data sets with an index in common are one. */
  lemma SegmentsMeet(ends: set<nat>, a: nat, b: nat, i: nat)
    requires a in ends && b in ends
    requires SegmentStart(ends, a) <= i <= a && SegmentStart(ends, b) <= i <= b
    ensures a == b
  {
    assert a < b ==> a < SegmentStart(ends, b);
    assert b < a ==> b < SegmentStart(ends, a);
  }

  /** A wholly held data set that the loop does not look at stays held. */
  lemma FarStays(t: Slot, lo: nat, hi: nat, end: nat)
    requires Sound(t) && !t.finished && lo <= hi && HeldSegment(t, end) && !Near(t.ends, lo, hi, end)
    ensures var after := TakeCompleted(t, lo, hi).state;
      after.finished || HeldSegment(after, end)
  {
    var start := SegmentStart(t.ends, lo);
    Emissions(t, start, lo, hi);
    TakesOnlyNear(t, start, lo, hi);
    hide Sound, TakeFrom, SegmentStart;
    var e := TakeFrom(t, start, lo, hi);
    if !e.state.finished {
      forall i: nat | SegmentStart(t.ends, end) <= i <= end ensures !Covers(e.taken, i) {
        NotCovered(t, e.taken, start, lo, hi, end, i);
      }
      hide Covers;
      forall i: nat | SegmentStart(t.ends, end) <= i <= end ensures HeldAt(e.state.cells, i) {
        assert HeldAt(t.cells, i);
      }
    }
  }

  lemma NotCovered(t: Slot, taken: seq<Taken>, start: nat, lo: nat, hi: nat, end: nat, i: nat)
    requires HandsOut(t, start, taken) && end in t.ends && !Near(t.ends, lo, hi, end)
    requires forall x | x in taken :: lo <= x.end && x.start <= hi + 1
    requires SegmentStart(t.ends, end) <= i <= end
    ensures !Covers(taken, i)
  {
    forall k | 0 <= k < |taken| ensures !(taken[k].start <= i <= taken[k].end) {
      assert TakenFrom(t, taken[k]) && taken[k] in taken;
      SegmentOfTaken(t, taken[k]);
      if taken[k].start <= i <= taken[k].end {
        SegmentsMeet(t.ends, end, taken[k].end, i);
      }
    }
  }

  lemma SegmentOfTaken(s: Slot, t: Taken)
    requires TakenFrom(s, t)
    ensures t.end in s.ends && t.start == SegmentStart(s.ends, t.end)
  {}

  /** What is wholly held after the loop was wholly held before it and not near. */
  lemma LeftIsFar(t: Slot, lo: nat, hi: nat, end: nat)
    requires Sound(t) && !t.finished && lo <= hi
    requires var after := TakeCompleted(t, lo, hi).state; !after.finished && HeldSegment(after, end)
    ensures HeldSegment(t, end) && !Near(t.ends, lo, hi, end)
  {
    var start := SegmentStart(t.ends, lo);
    Emissions(t, start, lo, hi);
    hide Sound, StaysSound, HandsOut, SegmentStart, TakeFrom, Covers;
    var e := TakeFrom(t, start, lo, hi);
    HeldAfterEmission(t, e, SegmentStart(t.ends, end), end);
  }

  /** The loop leaves nothing whole behind exactly when everything wholly held was near. */
  lemma EmissionExact(t: Slot, lo: nat, hi: nat)
    requires Sound(t) && !t.finished && lo <= hi
    ensures var after := TakeCompleted(t, lo, hi).state;
      Complete(after) <==> after.finished || forall end :: HeldSegment(t, end) ==> Near(t.ends, lo, hi, end)
  {
    hide Sound, TakeCompleted, Near;
    var after := TakeCompleted(t, lo, hi).state;
    if !after.finished {
      forall end | HeldSegment(t, end) && !Near(t.ends, lo, hi, end) ensures HeldSegment(after, end) {
        FarStays(t, lo, hi, end);
      }
      forall end | HeldSegment(after, end) ensures HeldSegment(t, end) && !Near(t.ends, lo, hi, end) {
        LeftIsFar(t, lo, hi, end);
      }
      CompleteMeans(after);
      hide HeldSegment, Complete;
    }
  }

  lemma CompleteMeans(s: Slot)
    ensures Complete(s) <==> s.finished || forall end :: !HeldSegment(s, end)
  {
    forall end | end in s.ends
      ensures HeldSegment(s, end) <==> AllHeld(s.cells, SegmentStart(s.ends, end), end + 1)
    {
    }
    hide SegmentStart, AllHeld;
    assert forall end | HeldSegment(s, end) :: end in s.ends;
    assert (forall end :: !HeldSegment(s, end)) ==> forall end | end in s.ends :: !HeldSegment(s, end);
  }

  // ----- one shred, whatever FEC set it names -----

  /** A coding shred's header is the geometry's; a data shred may name any set. */
  ghost predicate CodingHeader(g: Geometry, shred: Shred) {
    !shred.isData ==> Agrees(g, shred)
  }

  // ----- when recovery fills something -----

  /** The decoder is tried on the set and gives back a data shred for a missing cell. */
  ghost predicate Fills(t: Slot, fec: nat, recover: seq<Shred> -> Rebuilt) {
    && Recoverable(t, fec)
    && var rebuilt := recover(RecoveryInput(t, fec));
       rebuilt.Rebuilt? && exists x, i: nat :: x in rebuilt.shreds && IsDataAt(x, i) && MissingAt(t.cells, i)
  }

  ghost predicate FillsFrom(t: Slot, shreds: seq<Option<Shred>>, n: nat)
    requires n <= |shreds|
  {
    exists k :: 0 <= k < n && shreds[k].Some? && shreds[k].value.isData && Accepts(t, shreds[k].value)
  }

  lemma {:induction false} RebuiltCounts(t: Slot, shreds: seq<Option<Shred>>, n: nat)
    requires n <= |shreds|
    ensures CountRebuilt(t, shreds, n) > 0 <==> FillsFrom(t, shreds, n)
    ensures CountRebuilt(t, shreds, n) == 0 ==> InsertRebuilt(t, shreds, n) == t
  {
    hide InsertData;
    if n > 0 {
      RebuiltCounts(t, shreds, n - 1);
      if shreds[n - 1].Some? && !Accepts(t, shreds[n - 1].value) {
        RejectedUnchanged(t, shreds[n - 1].value);
      }
    }
  }

  /** A recovery counts a filled cell exactly when the decoder gives back a shred for a missing one. */
  lemma FillsIffRecovered(t: Slot, fec: nat, recover: seq<Shred> -> Rebuilt)
    ensures var r := Recover(t, fec, recover).1;
      Fills(t, fec, recover) <==> r.Some? && r.value.recovered > 0
  {
    if Recoverable(t, fec) {
      RecoverTries(t, fec, recover);
      hide Recover, Recoverable, CountRebuilt;
      var rebuilt := recover(RecoveryInput(t, fec));
      if rebuilt.Rebuilt? {
        RebuiltCounts(Attempted(t, fec), rebuilt.shreds, |rebuilt.shreds|);
        FillsAnywhere(t, Attempted(t, fec), rebuilt.shreds);
      }
    }
  }

  lemma RecoverTries(t: Slot, fec: nat, recover: seq<Shred> -> Rebuilt)
    requires Recoverable(t, fec)
    ensures var r := Recover(t, fec, recover).1;
      var rebuilt := recover(RecoveryInput(t, fec));
      r.Some? && r.value.recovered == if rebuilt.Unrecoverable? then 0 else CountRebuilt(Attempted(t, fec), rebuilt.shreds, |rebuilt.shreds|)
  {
    hide CountRebuilt, InsertRebuilt, SwapRemove, CountHeld;
  }

  lemma FillsAnywhere(t: Slot, u: Slot, shreds: seq<Option<Shred>>)
    requires t.cells == u.cells
    ensures FillsFrom(u, shreds, |shreds|) <==> exists x, i: nat :: x in shreds && IsDataAt(x, i) && MissingAt(t.cells, i)
  {
    if k :| 0 <= k < |shreds| && shreds[k].Some? && shreds[k].value.isData && Accepts(u, shreds[k].value) {
      assert shreds[k] in shreds && IsDataAt(shreds[k], shreds[k].value.index);
    }
    if x, i: nat :| x in shreds && IsDataAt(x, i) && MissingAt(t.cells, i) {
      var k :| 0 <= k < |shreds| && shreds[k] == x;
      assert Accepts(u, shreds[k].value);
    }
  }

  // ----- what is left behind -----

  /** A data set away from the changed range is whole after the change exactly when it was before. */
  lemma FarIsSame(s: Slot, t: Slot, lo: nat, hi: nat, end: nat)
    requires SameOutside(s, t, lo, hi)
    ensures HeldSegment(t, end) && !Near(t.ends, lo, hi, end) <==> HeldSegment(s, end) && !Near(s.ends, lo, hi, end)
  {
    if HeldSegment(t, end) && !Near(t.ends, lo, hi, end) {
      FarUnchanged(s, t, lo, hi, end);
    }
    if HeldSegment(s, end) && !Near(s.ends, lo, hi, end) {
      FarUnchangedBack(s, t, lo, hi, end);
    }
  }

  lemma FarUnchanged(s: Slot, t: Slot, lo: nat, hi: nat, end: nat)
    requires SameOutside(s, t, lo, hi) && HeldSegment(t, end) && !Near(t.ends, lo, hi, end)
    ensures HeldSegment(s, end) && SegmentStart(s.ends, end) == SegmentStart(t.ends, end)
  {
    var start := SegmentStart(t.ends, end);
    assert end in s.ends;
    assert start > 0 ==> start - 1 in s.ends;
    assert SegmentStart(s.ends, end) == start;
    forall i: nat | start <= i < end + 1 ensures HeldAt(s.cells, i) {
      assert HeldAt(t.cells, i) && SameCell(s.cells, t.cells, i);
    }
  }

  lemma FarUnchangedBack(s: Slot, t: Slot, lo: nat, hi: nat, end: nat)
    requires SameOutside(s, t, lo, hi) && HeldSegment(s, end) && !Near(s.ends, lo, hi, end)
    ensures HeldSegment(t, end) && SegmentStart(s.ends, end) == SegmentStart(t.ends, end)
  {
    var start := SegmentStart(s.ends, end);
    assert end in t.ends;
    assert start > 0 ==> start - 1 in t.ends;
    assert SegmentStart(t.ends, end) == start;
    forall i: nat | start <= i < end + 1 ensures HeldAt(t.cells, i) {
      assert HeldAt(s.cells, i) && SameCell(s.cells, t.cells, i);
    }
  }

  /**
   With the shred in its place, the data set around it or right behind it is whole, and the FEC
   set it names, elsewhere, is recovered: that set's range is searched and not the shred's place.
   */
  ghost predicate Strands(s: Slot, shred: Shred, recover: seq<Shred> -> Rebuilt) {
    var t, fec := InsertData(s, shred), shred.fecSetIndex;
    && shred.isData
    && Fills(t, fec, recover)
    && exists end ::
         && HeldSegment(t, end)
         && Near(t.ends, shred.index, shred.index, end)
         && !Near(t.ends, fec, t.coding[Position(t.coding, fec)].End() - 1, end)
  }

  /**
   From a slot with nothing whole left behind, inserting a shred leaves something behind exactly
   when the shred strands its own data set and the slot does not finish.
   */
  lemma LeftBehindIffStranded(s: Slot, shred: Shred, recover: seq<Shred> -> Rebuilt, g: Geometry)
    requires Sound(s) && !s.finished && Complete(s) && CodingAgrees(s, g) && CodingHeader(g, shred) && KeepsToSet(recover)
    ensures var after := Insert(s, shred, recover).state;
      Complete(after) <==> after.finished || !Strands(s, shred, recover)
  {
    hide Sound, CodingAgrees, KeepsToSet, Complete, Strands, Insert, Fills;
    if !shred.isData {
      InsertsCoding(s, shred, recover, g);
    } else {
      FillsIffRecovered(InsertData(s, shred), shred.fecSetIndex, recover);
      if Fills(InsertData(s, shred), shred.fecSetIndex, recover) {
        FilledByData(s, shred, recover, g);
      } else {
        NothingFilled(s, shred, recover, g);
      }
    }
  }

  lemma InsertsCoding(s: Slot, shred: Shred, recover: seq<Shred> -> Rebuilt, g: Geometry)
    requires Sound(s) && !s.finished && Complete(s) && CodingAgrees(s, g) && KeepsToSet(recover)
    requires !shred.isData && CodingHeader(g, shred)
    ensures Complete(Insert(s, shred, recover).state) && !Strands(s, shred, recover)
  {
    InsertCompletes(s, shred, recover, g);
    hide Sound, CodingAgrees, KeepsToSet, Complete, Insert;
  }

  /** Nothing is recovered: the shred's own place is searched. */
  lemma NothingFilled(s: Slot, shred: Shred, recover: seq<Shred> -> Rebuilt, g: Geometry)
    requires Sound(s) && !s.finished && Complete(s) && CodingAgrees(s, g) && KeepsToSet(recover)
    requires shred.isData && !Fills(InsertData(s, shred), shred.fecSetIndex, recover)
    ensures Complete(Insert(s, shred, recover).state) && !Strands(s, shred, recover)
  {
    var t := InsertData(s, shred);
    FillsIffRecovered(t, shred.fecSetIndex, recover);
    TakeInSound(s, shred, recover);
    InsertDataSound(s, shred);
    InsertDataLocal(s, shred);
    CodingAgreesDepends(s, t, g);
    RecoverLocal(t, shred.fecSetIndex, recover, g);
    hide Sound, CodingAgrees, KeepsToSet, Complete, InsertData, Recover, Fills, SameOutside, MissingAt;
    var i := TakeIn(s, shred, recover);
    assert i.state.cells == t.cells && i.state.ends == t.ends;
    if Accepts(s, shred) {
      SameOutsideDepends(s, t, i.state, shred.index, shred.index);
      EmissionCompletes(s, i.state, shred.index, shred.index);
    } else {
      RejectedUnchanged(s, shred);
      CompleteDepends(s, i.state);
    }
  }

  /** The set the shred names is recovered, and its range searched. */
  lemma FilledByData(s: Slot, shred: Shred, recover: seq<Shred> -> Rebuilt, g: Geometry)
    requires Sound(s) && !s.finished && Complete(s) && CodingAgrees(s, g) && KeepsToSet(recover)
    requires shred.isData && Fills(InsertData(s, shred), shred.fecSetIndex, recover)
    ensures var after := Insert(s, shred, recover).state;
      Complete(after) <==> after.finished || !Strands(s, shred, recover)
  {
    var t, fec := InsertData(s, shred), shred.fecSetIndex;
    SearchesSet(s, shred, recover, g);
    TakeInSound(s, shred, recover);
    InsertDataLocal(s, shred);
    hide Sound, CodingAgrees, KeepsToSet, Complete, InsertData, TakeIn, SameOutside, TakeCompleted, HeldSegment, Near, Position;
    var i := TakeIn(s, shred, recover);
    var lo, hi := i.searched.value.0, i.searched.value.1;
    EmissionExact(i.state, lo, hi);
    forall end
      ensures HeldSegment(i.state, end) && !Near(i.state.ends, lo, hi, end) <==> HeldSegment(t, end) && !Near(t.ends, lo, hi, end)
      ensures HeldSegment(t, end) ==> Near(t.ends, shred.index, shred.index, end)
    {
      FarIsSame(t, i.state, lo, hi, end);
      if HeldSegment(t, end) {
        WholeIsNear(s, t, shred.index, shred.index, end);
      }
    }
    hide Fills;
  }

  lemma SearchesSet(s: Slot, shred: Shred, recover: seq<Shred> -> Rebuilt, g: Geometry)
    requires Sound(s) && !s.finished && CodingAgrees(s, g) && KeepsToSet(recover)
    requires shred.isData && Fills(InsertData(s, shred), shred.fecSetIndex, recover)
    ensures var t, fec, i := InsertData(s, shred), shred.fecSetIndex, TakeIn(s, shred, recover);
      && !t.finished
      && Position(t.coding, fec) < |t.coding|
      && i.searched == Some((fec, t.coding[Position(t.coding, fec)].End() - 1))
      && SameOutside(t, i.state, fec, t.coding[Position(t.coding, fec)].End() - 1)
  {
    var t, fec := InsertData(s, shred), shred.fecSetIndex;
    FillsIffRecovered(t, fec, recover);
    InsertDataSound(s, shred);
    InsertDataLocal(s, shred);
    CodingAgreesDepends(s, t, g);
    RecoverLocal(t, fec, recover, g);
    RecoversRange(t, fec, recover);
    hide Sound, CodingAgrees, KeepsToSet, InsertData, Recover, Fills, SameOutside, MissingAt;
  }

  lemma RecoversRange(t: Slot, fec: nat, recover: seq<Shred> -> Rebuilt)
    requires Recover(t, fec, recover).1.Some?
    ensures var r := Recover(t, fec, recover).1.value;
      Position(t.coding, fec) < |t.coding| && r.start == fec && r.end == t.coding[Position(t.coding, fec)].End() - 1
  {
    hide CountRebuilt, InsertRebuilt, SwapRemove, CountHeld;
  }

  lemma WholeIsNear(s: Slot, t: Slot, lo: nat, hi: nat, end: nat)
    requires !s.finished && Complete(s) && SameOutside(s, t, lo, hi) && HeldSegment(t, end)
    ensures Near(t.ends, lo, hi, end)
  {
    NewlyHeldTouches(s, t, lo, hi, end);
  }

  /** A shred inside the set it names strands nothing. */
  lemma AgreeingStrandsNothing(s: Slot, shred: Shred, recover: seq<Shred> -> Rebuilt, g: Geometry)
    requires CodingAgrees(s, g) && Agrees(g, shred)
    ensures !Strands(s, shred, recover)
  {
    var t, fec := InsertData(s, shred), shred.fecSetIndex;
    InsertDataLocal(s, shred);
    if shred.isData && Position(t.coding, fec) < |t.coding| {
      assert t.coding[Position(t.coding, fec)] in t.coding;
      hide HeldSegment, InsertData, Fills, SegmentStart;
    }
  }
}
