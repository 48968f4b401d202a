/**
 Shreds of one honest block: exactly which indices a slot has handed out, as a function of
 the set of data shreds that got in, whatever their order and however often they came.
 */
module HonestBlock {
  import opened Options
  import opened Bitset
  import opened Shreds
  import opened SlotSpec
  import opened SlotLaws
  import opened SlotRun
  import opened ExactlyOnce
  import opened Completeness
  import opened RecoveryBounds
  import opened AgreeingRuns

  /** The data shreds a leader made for one slot, in order. */
  ghost predicate IsBlock(b: seq<Shred>) {
    && |b| > 0
    && (forall i | 0 <= i < |b| :: b[i].isData && b[i].index == i && (b[i].lastInSlot <==> i == |b| - 1))
    && b[|b| - 1].dataComplete
  }

  /** The indices that end a data set of the block. */
  ghost function BlockEnds(b: seq<Shred>): set<nat> {
    set i: nat | i < |b| && b[i].dataComplete
  }

  /** First index of the block's data set that `i` is in. */
  ghost function SetStart(b: seq<Shred>, i: nat): nat
    requires i < |b|
  {
    SegmentStart(BlockEnds(b), i)
  }

  /** Last index of the block's data set that `i` is in. */
  ghost function SetEnd(b: seq<Shred>, i: nat): (e: nat)
    requires IsBlock(b) && i < |b|
    ensures i <= e < |b| && e in BlockEnds(b)
    ensures forall j | i <= j < e :: j !in BlockEnds(b)
  {
    assert |b| - 1 in BlockEnds(b);
    NextEnd(BlockEnds(b), i).value
  }

  /** A shred of the block, or one of its coding shreds. */
  predicate Genuine(b: seq<Shred>, parity: set<Shred>, x: Shred) {
    if x.isData then x.index < |b| && x == b[x.index] else x in parity
  }

  /** From genuine shreds the decoder rebuilds only the block's own data shreds. */
  ghost predicate Truthful(recover: seq<Shred> -> Rebuilt, b: seq<Shred>, parity: set<Shred>) {
    forall input: seq<Shred> | (forall x | x in input :: Genuine(b, parity, x)) && recover(input).Rebuilt? ::
      forall x | x in recover(input).shreds && x.Some? && x.value.isData :: Genuine(b, parity, x.value)
  }

  /** Everything in the slot is the block's. */
  ghost predicate Faithful(s: Slot, b: seq<Shred>, parity: set<Shred>) {
    !s.finished ==>
      && 0 < |b| && |s.cells| <= |b|
      && (forall e | e in s.ends :: !MissingAt(s.cells, e))
      && (forall i: nat | HeldAt(s.cells, i) :: s.cells[i].shred == b[i])
      && (forall i: nat | !MissingAt(s.cells, i) :: i in s.ends <==> b[i].dataComplete)
      && s.last == (if MissingAt(s.cells, |b| - 1) then None else Some(|b| - 1))
      && (forall c, x | c in s.coding && x in c.codingShreds :: x in parity)
  }

  /** Emission has not yet reached the last shred of the slot. */
  ghost predicate NotDue(s: Slot) {
    !s.finished && s.last.Some? ==> s.emitted != s.last.value + 1
  }

  // ----- every step stays faithful -----

  lemma InsertDataFaithful(s: Slot, shred: Shred, b: seq<Shred>, parity: set<Shred>)
    requires IsBlock(b) && Faithful(s, b, parity) && !s.finished
    requires shred.isData && Genuine(b, parity, shred)
    ensures Faithful(InsertData(s, shred), b, parity)
  {}

  lemma {:induction false} InsertRebuiltFaithful(s: Slot, shreds: seq<Option<Shred>>, n: nat, b: seq<Shred>, parity: set<Shred>)
    requires IsBlock(b) && Faithful(s, b, parity) && !s.finished && n <= |shreds|
    requires forall x | x in shreds && x.Some? && x.value.isData :: Genuine(b, parity, x.value)
    ensures Faithful(InsertRebuilt(s, shreds, n), b, parity) && !InsertRebuilt(s, shreds, n).finished
  {
    if n > 0 {
      hide Faithful, Genuine, InsertData, IsBlock;
      InsertRebuiltFaithful(s, shreds, n - 1, b, parity);
      assert shreds[n - 1] in shreds;
      var t := InsertRebuilt(s, shreds, n - 1);
      if shreds[n - 1].Some? && shreds[n - 1].value.isData {
        InsertDataFaithful(t, shreds[n - 1].value, b, parity);
        InsertDataLocal(t, shreds[n - 1].value);
      }
    }
  }

  lemma InsertCodingFaithful(s: Slot, shred: Shred, b: seq<Shred>, parity: set<Shred>)
    requires Faithful(s, b, parity) && !s.finished && shred in parity
    ensures Faithful(InsertCoding(s, shred), b, parity)
  {
    var t := InsertCoding(s, shred);
    forall c, x | c in t.coding && x in c.codingShreds ensures x in parity {
      if c !in s.coding && Position(s.coding, shred.fecSetIndex) < |s.coding| {
        assert s.coding[Position(s.coding, shred.fecSetIndex)] in s.coding;
      }
    }
  }

  lemma {:induction false} HeldShredsGenuine(s: Slot, lo: nat, hi: nat, b: seq<Shred>, parity: set<Shred>)
    requires IsBlock(b) && Faithful(s, b, parity) && !s.finished
    ensures forall x | x in HeldShreds(s.cells, lo, hi) :: Genuine(b, parity, x)
    decreases hi
  {
    if lo < hi {
      HeldShredsGenuine(s, lo, hi - 1, b, parity);
      assert HeldAt(s.cells, hi - 1) ==> Genuine(b, parity, s.cells[hi - 1].shred);
    }
  }

  lemma CodingFaithful(s: Slot, t: Slot, b: seq<Shred>, parity: set<Shred>)
    requires Faithful(s, b, parity) && t == s.(coding := t.coding)
    requires forall c | c in t.coding :: exists d :: d in s.coding && d.codingShreds == c.codingShreds
    ensures Faithful(t, b, parity)
  {}

  lemma SwapRemoveFaithful(s: Slot, p: nat, b: seq<Shred>, parity: set<Shred>)
    requires Faithful(s, b, parity) && p < |s.coding|
    ensures Faithful(s.(coding := SwapRemove(s.coding, p)), b, parity)
  {
    SwapRemoveSubset(s.coding, p);
  }

  lemma AttemptedFaithful(s: Slot, fec: nat, b: seq<Shred>, parity: set<Shred>)
    requires Faithful(s, b, parity) && Position(s.coding, fec) < |s.coding|
    ensures Faithful(Attempted(s, fec), b, parity)
  {
    forall c | c in Attempted(s, fec).coding ensures exists d :: d in s.coding && d.codingShreds == c.codingShreds {
      var q :| 0 <= q < |s.coding| && Attempted(s, fec).coding[q] == c;
      assert s.coding[q] in s.coding;
    }
    CodingFaithful(s, Attempted(s, fec), b, parity);
  }

  lemma RecoveryInputGenuine(s: Slot, fec: nat, b: seq<Shred>, parity: set<Shred>)
    requires IsBlock(b) && Faithful(s, b, parity) && !s.finished && Position(s.coding, fec) < |s.coding|
    requires forall x | x in parity :: !x.isData
    ensures forall x | x in RecoveryInput(s, fec) :: Genuine(b, parity, x)
  {
    var c := s.coding[Position(s.coding, fec)];
    HeldShredsGenuine(s, fec, c.End(), b, parity);
    assert c in s.coding;
  }

  lemma RecoverFaithful(s: Slot, fec: nat, recover: seq<Shred> -> Rebuilt, b: seq<Shred>, parity: set<Shred>)
    requires IsBlock(b) && Faithful(s, b, parity) && !s.finished
    requires (forall x | x in parity :: !x.isData) && Truthful(recover, b, parity)
    ensures Faithful(Recover(s, fec, recover).0, b, parity)
  {
    hide Faithful, IsBlock, SwapRemove, NoneMissing, CountHeld;
    var p := Position(s.coding, fec);
    if p < |s.coding| {
      SwapRemoveFaithful(s, p, b, parity);
      AttemptedFaithful(s, fec, b, parity);
      RecoveryInputGenuine(s, fec, b, parity);
      var rebuilt := recover(RecoveryInput(s, fec));
      if rebuilt.Rebuilt? {
        InsertRebuiltFaithful(Attempted(s, fec), rebuilt.shreds, |rebuilt.shreds|, b, parity);
      }
      RefilledKeepsCoding(s, fec, recover);
      SwapRemoveFaithful(Refilled(s, fec, recover), p, b, parity);
    }
  }

  lemma TakeInFaithful(s: Slot, shred: Shred, recover: seq<Shred> -> Rebuilt, b: seq<Shred>, parity: set<Shred>)
    requires IsBlock(b) && Faithful(s, b, parity) && !s.finished && Genuine(b, parity, shred)
    requires (forall x | x in parity :: !x.isData) && Truthful(recover, b, parity)
    ensures Faithful(TakeIn(s, shred, recover).state, b, parity)
  {
    hide Faithful, Recover, InsertData, InsertCoding, IsBlock, Truthful;
    if shred.isData {
      InsertDataFaithful(s, shred, b, parity);
      InsertDataLocal(s, shred);
      RecoverFaithful(InsertData(s, shred), shred.fecSetIndex, recover, b, parity);
    } else {
      InsertCodingFaithful(s, shred, b, parity);
      InsertCodingUnfinished(s, shred);
      RecoverFaithful(InsertCoding(s, shred), shred.fecSetIndex, recover, b, parity);
    }
  }

  lemma InsertCodingUnfinished(s: Slot, shred: Shred)
    ensures InsertCoding(s, shred).finished == s.finished
  {}

  lemma EmissionFaithful(s: Slot, e: Emission, b: seq<Shred>, parity: set<Shred>)
    requires Faithful(s, b, parity) && !s.finished && Marks(s, e) && e.state.last == s.last
    requires OnlyFullDropped(s, e.state)
    ensures Faithful(e.state, b, parity)
  {
    if !e.state.finished {
      assert forall i: nat | !MissingAt(e.state.cells, i) :: !MissingAt(s.cells, i);
      assert MissingAt(e.state.cells, |b| - 1) <==> MissingAt(s.cells, |b| - 1);
    }
  }

  lemma {:induction false} EmissionNotDue(s: Slot, start: nat, from: nat, last: nat)
    requires start <= from <= last + 1 && NotDue(s)
    ensures NotDue(TakeFrom(s, start, from, last).state)
    decreases last + 1 - from
  {
    if NextEnd(s.ends, from).Some? {
      var end := NextEnd(s.ends, from).value;
      assert NotDue(TakeIfHeld(s, start, end).state);
      hide TakeIfHeld, NotDue;
      if end <= last {
        EmissionNotDue(TakeIfHeld(s, start, end).state, end + 1, end + 1, last);
      }
    }
  }

  /** A set below `n` has at most `n` members, and with `n` all of them. */
  lemma {:induction false} FillsRange(a: set<nat>, n: nat)
    requires forall i | i in a :: i < n
    ensures |a| <= n
    ensures |a| == n ==> forall i | 0 <= i < n :: i in a
  {
    if n > 0 {
      FillsRange(a - {n - 1}, n - 1);
      assert n - 1 in a ==> a == (a - {n - 1}) + {n - 1};
      assert n - 1 !in a ==> a == a - {n - 1};
    } else {
      assert a == {};
    }
  }

  /** The last shred only just arrived, so it is not emitted yet. */
  lemma TakeInNotDue(s: Slot, t: Slot, b: seq<Shred>, parity: set<Shred>)
    requires IsBlock(b) && Sound(s) && !s.finished && NotDue(s) && Faithful(s, b, parity)
    requires Faithful(t, b, parity) && t.emitted == s.emitted
    ensures NotDue(t)
  {
    if MissingAt(s.cells, |b| - 1) {
      assert |b| - 1 !in EmittedSet(s.cells);
      FillsRange(EmittedSet(s.cells), |b|);
    }
  }

  /** The state of a slot fed only genuine shreds. */
  ghost predicate Honest(s: Slot, b: seq<Shred>, parity: set<Shred>) {
    Sound(s) && Faithful(s, b, parity) && NotDue(s)
  }

  lemma InsertHonest(s: Slot, shred: Shred, recover: seq<Shred> -> Rebuilt, b: seq<Shred>, parity: set<Shred>)
    requires IsBlock(b) && Honest(s, b, parity) && Genuine(b, parity, shred)
    requires (forall x | x in parity :: !x.isData) && Truthful(recover, b, parity)
    ensures Honest(Insert(s, shred, recover).state, b, parity)
  {
    InsertStateSound(s, shred, recover);
    if !s.finished {
      TakeInSound(s, shred, recover);
      TakeInFaithful(s, shred, recover, b, parity);
      TakeInKeepsTally(s, shred, recover);
      hide Sound, Faithful, NotDue, TakeIn, IsBlock, Truthful;
      var i := TakeIn(s, shred, recover);
      TakeInNotDue(s, i.state, b, parity);
      InsertDropsOnlyFull(s, shred, recover);
      if i.searched.Some? {
        var (first, last) := i.searched.value;
        var start := SegmentStart(i.state.ends, first);
        Emissions(i.state, start, first, last);
        EmissionFaithful(i.state, TakeCompleted(i.state, first, last), b, parity);
        EmissionNotDue(i.state, start, first, last);
      }
    }
  }
}
