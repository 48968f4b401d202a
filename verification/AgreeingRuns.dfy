/**
 Runs whose FEC headers agree with one geometry: after every shred nothing complete is
 waiting, no kept coding set is full, and none could have been recovered.  Without the
 agreement the first of these fails.
 */
module AgreeingRuns {
  import opened Options
  import opened Bitset
  import opened Shreds
  import opened SlotSpec
  import opened SlotLaws
  import opened SlotRun
  import opened Completeness
  import opened RecoveryBounds

  ghost predicate Settled(s: Slot, g: Geometry, recover: seq<Shred> -> Rebuilt) {
    && Sound(s) && CodingAgrees(s, g)
    && Complete(s)
    && NoneFull(s)
    && (AnyKSuffice(recover) ==> NoneRecoverable(s))
  }

  lemma EmissionAgrees(s: Slot, t: Slot, g: Geometry)
    requires OnlyFullDropped(s, t) && CodingAgrees(s, g) && Sound(t)
    ensures CodingAgrees(t, g)
  {}

  lemma InsertSettles(s: Slot, shred: Shred, recover: seq<Shred> -> Rebuilt, g: Geometry)
    requires Settled(s, g, recover) && Agrees(g, shred) && KeepsToSet(recover) && Tiled(g)
    ensures Settled(Insert(s, shred, recover).state, g, recover)
  {
    InsertStateSound(s, shred, recover);
    InsertCompletes(s, shred, recover, g);
    if !s.finished {
      TakeInSound(s, shred, recover);
      TakeInLocal(s, shred, recover, g);
      TakeInNoneFull(s, shred, recover, g);
      if AnyKSuffice(recover) {
        TakeInNoneRecoverable(s, shred, recover, g);
      }
      InsertDropsOnlyFull(s, shred, recover);
      hide Sound, CodingAgrees, Complete, NoneFull, NoneRecoverable, TakeIn, Insert, AnyKSuffice, KeepsToSet, OnlyFullDropped;
      var i, o := TakeIn(s, shred, recover), Insert(s, shred, recover);
      EmissionAgrees(i.state, o.state, g);
      EmissionNoneFull(i.state, o.state);
      if AnyKSuffice(recover) {
        EmissionNoneRecoverable(i.state, o.state);
      }
    }
  }

  lemma {:induction false} RunSettles(slot: nat, shreds: seq<Shred>, n: nat, recover: seq<Shred> -> Rebuilt, g: Geometry)
    requires n <= |shreds| && forall i | 0 <= i < |shreds| :: Agrees(g, shreds[i])
    requires KeepsToSet(recover) && Tiled(g)
    ensures Settled(RunSlot(slot, shreds, n, recover), g, recover)
  {
    if n == 0 {
      NewSlotSound(slot);
    } else {
      hide Settled, Insert, Agrees, KeepsToSet, Tiled;
      RunSettles(slot, shreds, n - 1, recover, g);
      InsertSettles(RunSlot(slot, shreds, n - 1, recover), shreds[n - 1], recover, g);
    }
  }

  /**
   After every shred of a run with agreeing headers: no segment between neighbouring known
   ends is wholly held; every kept coding set still misses a data shred; and if any `k`
   shreds suffice to decode, every kept set has fewer than `k`.
   */
  lemma NothingLeftBehind(slot: nat, shreds: seq<Shred>, n: nat, recover: seq<Shred> -> Rebuilt, g: Geometry)
    requires n <= |shreds| && forall i | 0 <= i < |shreds| :: Agrees(g, shreds[i])
    requires KeepsToSet(recover) && Tiled(g)
    ensures var s := RunSlot(slot, shreds, n, recover);
      && (forall end | end in s.ends :: !AllHeld(s.cells, SegmentStart(s.ends, end), end + 1))
      && CodingSound(s.coding)
      && (forall c | c in s.coding :: exists i: nat :: c.Covers(i) && MissingAt(s.cells, i))
      && (AnyKSuffice(recover) ==>
            forall c | c in s.coding :: CountHeld(s.cells, c.fecSetIndex, c.End()) + |c.codingShreds| < c.numDataShreds)
  {
    RunSettles(slot, shreds, n, recover, g);
    hide RunSlot, KeepsToSet, Tiled, AnyKSuffice;
    var s := RunSlot(slot, shreds, n, recover);
    forall c | c in s.coding ensures exists i: nat :: c.Covers(i) && MissingAt(s.cells, i) {
      var i: nat :| c.fecSetIndex <= i < c.End() && MissingAt(s.cells, i);
      assert c.Covers(i);
    }
  }

  // ----- why the headers must agree -----

  /** The header of the only coding shred of a set of two data shreds. */
  const PARITY_HEADER: Payload := seq(1228, i => if i == 83 then 2 else if i == 85 then 1 else 0)

  /**
   A coding shred of the two-shred set at 1, its two data shreds, a data set of one shred that
   closes at 4, and the data set behind it, whose only shred claims to be of the set at 1.
   */
  const PARITY := Shred(7, 1, 1, false, false, false, PARITY_HEADER)
  const INSIDE := Shred(7, 1, 0, true, false, false, [])
  const REBUILT := Shred(7, 2, 1, true, false, false, [])
  const CLOSING := Shred(7, 4, 4, true, true, false, [])
  const OUTSIDE := Shred(7, 5, 1, true, true, false, [])

  function OneSetDecoder(input: seq<Shred>): Rebuilt {
    if |input| > 0 && CodingOf(input[|input| - 1], 1, 2) then Rebuilt([Some(REBUILT)]) else Unrecoverable
  }

  lemma OneSetDecoderKeepsToSet()
    ensures KeepsToSet(OneSetDecoder)
  {
    forall input: seq<Shred>, fec: nat, k: nat, i: nat, x |
        InputOf(input, fec, k) && OneSetDecoder(input).Rebuilt? && x in OneSetDecoder(input).shreds && IsDataAt(x, i)
      ensures fec <= i < fec + k
    {
      assert CodingOf(input[|input| - 1], fec, k);
    }
  }

  const ONE_SET := CodingSet(1, 2, [PARITY], 0)
  const AFTER_PARITY := NewSlot(7).(coding := [ONE_SET])
  const AFTER_INSIDE := AFTER_PARITY.(cells := [Missing, Held(INSIDE)])
  const AFTER_CLOSING :=
    AFTER_INSIDE.(cells := [Missing, Held(INSIDE), Missing, Missing, Held(CLOSING)], ends := {4})
  const WITH_OUTSIDE :=
    AFTER_CLOSING.(cells := [Missing, Held(INSIDE), Missing, Missing, Held(CLOSING), Held(OUTSIDE)], ends := {4, 5})
  const AFTER_OUTSIDE :=
    WITH_OUTSIDE.(cells := [Missing, Held(INSIDE), Held(REBUILT), Missing, Held(CLOSING), Held(OUTSIDE)], coding := [])

  lemma ParityStep()
    ensures Insert(NewSlot(7), PARITY, OneSetDecoder).state == AFTER_PARITY
  {
    assert NumDataShreds(PARITY_HEADER) == Some(2);
    assert MissingAt(NewSlot(7).cells, 1);
    assert WithCoding(CodingSet(1, 2, [], 0), PARITY) == ONE_SET;
    assert Position(AFTER_PARITY.coding, 1) == 0;
    assert MissingAt(AFTER_PARITY.cells, 1);
    assert CountHeld(AFTER_PARITY.cells, 1, 3) == 0;
  }

  lemma InsideStep()
    ensures Insert(AFTER_PARITY, INSIDE, OneSetDecoder).state == AFTER_INSIDE
  {
    assert InsertData(AFTER_PARITY, INSIDE) == AFTER_INSIDE;
    assert Position(AFTER_INSIDE.coding, 0) == 1;
    assert TakeIn(AFTER_PARITY, INSIDE, OneSetDecoder) == Intake(AFTER_INSIDE, None, Some((1, 1)));
  }

  lemma ClosingStep()
    ensures Insert(AFTER_INSIDE, CLOSING, OneSetDecoder).state == AFTER_CLOSING
  {
    assert InsertData(AFTER_INSIDE, CLOSING) == AFTER_CLOSING;
    assert Position(AFTER_CLOSING.coding, 4) == 1;
    assert TakeIn(AFTER_INSIDE, CLOSING, OneSetDecoder) == Intake(AFTER_CLOSING, None, Some((4, 4)));
    assert NextEnd({4}, 4) == Some(4) && NextEnd({4}, 5) == None;
    assert !HeldAt(AFTER_CLOSING.cells, 0) && SegmentStart({4}, 4) == 0;
    assert TakeIfHeld(AFTER_CLOSING, 0, 4) == Emission(AFTER_CLOSING, []);
  }

  lemma OutsideRecovery()
    ensures Recover(WITH_OUTSIDE, 1, OneSetDecoder) == (AFTER_OUTSIDE, Some(Recovery(1, 2, 1, false)))
  {
    var s := WITH_OUTSIDE;
    assert Position(s.coding, 1) == 0;
    assert MissingAt(s.cells, 2);
    assert HeldShreds(s.cells, 1, 3) == [INSIDE];
    assert RecoveryInput(s, 1) == [INSIDE, PARITY];
    assert NumDataShreds(PARITY_HEADER) == Some(2);
    var rebuilt, a := [Some(REBUILT)], Attempted(s, 1);
    assert InsertRebuilt(a, rebuilt, 0) == a && CountRebuilt(a, rebuilt, 0) == 0;
    assert InsertRebuilt(a, rebuilt, 1) == AFTER_OUTSIDE.(coding := a.coding);
    assert CountRebuilt(a, rebuilt, 1) == 1;
  }

  lemma OutsideStep()
    ensures Insert(AFTER_CLOSING, OUTSIDE, OneSetDecoder).state == AFTER_OUTSIDE
  {
    assert InsertData(AFTER_CLOSING, OUTSIDE) == WITH_OUTSIDE;
    OutsideRecovery();
    hide Recover, InsertData;
    assert NextEnd({4, 5}, 1) == Some(4);
    assert SegmentStart({4, 5}, 1) == 0;
    assert !HeldAt(AFTER_OUTSIDE.cells, 0);
    assert TakeCompleted(AFTER_OUTSIDE, 1, 2) == Emission(AFTER_OUTSIDE, []);
  }

  /**
   A data shred that names a FEC set not covering its index is lost from view when its
   arrival lets that set be recovered: the recovered range is searched instead of the shred's
   own, and the data set the shred alone makes up stays behind.
   */
  lemma LeftBehindWhenHeadersDisagree()
    ensures KeepsToSet(OneSetDecoder)
    ensures var s := RunSlot(7, [PARITY, INSIDE, CLOSING, OUTSIDE], 4, OneSetDecoder);
      !s.finished && 5 in s.ends && SegmentStart(s.ends, 5) == 5 && AllHeld(s.cells, 5, 6)
  {
    OneSetDecoderKeepsToSet();
    ParityStep();
    InsideStep();
    ClosingStep();
    OutsideStep();
    hide Insert;
    var shreds := [PARITY, INSIDE, CLOSING, OUTSIDE];
    assert RunSlot(7, shreds, 1, OneSetDecoder) == AFTER_PARITY;
    assert RunSlot(7, shreds, 2, OneSetDecoder) == AFTER_INSIDE;
    assert RunSlot(7, shreds, 3, OneSetDecoder) == AFTER_CLOSING;
    assert RunSlot(7, shreds, 4, OneSetDecoder) == AFTER_OUTSIDE;
  }
}
