/**
 What coding sets cost and keep over a run whose FEC headers agree: at most three recovery
 attempts per FEC set, although sets are dropped and could be created again; no retained set
 is already full; and with a decoder that can use any `k` shreds, none is left that could
 have been recovered.
 */
module RecoveryBounds {
  import opened Options
  import opened Bitset
  import opened Shreds
  import opened SlotSpec
  import opened SlotLaws
  import opened SlotRun
  import opened Completeness

  // ----- emission and coding sets -----

  lemma {:induction false} RetainKeepsMissing(coding: seq<CodingSet>, cells: seq<DataShred>, start: nat, end: nat)
    ensures forall c | c in coding ::
      c in Retain(coding, cells, start, end) || NoneMissing(cells, c.fecSetIndex, c.End())
  {
    if coding != [] {
      RetainKeepsMissing(coding[..|coding| - 1], cells, start, end);
      assert coding == coding[..|coding| - 1] + [coding[|coding| - 1]];
    }
  }

  ghost predicate OnlyFullDropped(s: Slot, t: Slot) {
    !t.finished ==>
      && (forall c | c in t.coding :: c in s.coding)
      && (forall c | c in s.coding :: c in t.coding || NoneMissing(t.cells, c.fecSetIndex, c.End()))
      && (forall i: nat :: MissingAt(t.cells, i) <==> MissingAt(s.cells, i))
      && (forall i: nat | HeldAt(t.cells, i) :: HeldAt(s.cells, i))
  }

  lemma TakeDropsOnlyFull(s: Slot, start: nat, end: nat)
    requires start <= end
    ensures OnlyFullDropped(s, TakeIfHeld(s, start, end).state)
    ensures s.finished ==> TakeIfHeld(s, start, end).state.finished
  {
    if AllHeld(s.cells, start, end + 1) {
      assert HeldAt(s.cells, end);
      var cells := MarkEmitted(s.cells, start, end + 1);
      RetainKeepsMissing(s.coding, cells, start, end);
      forall i: nat ensures MissingAt(cells, i) <==> MissingAt(s.cells, i) {
        assert start <= i < end + 1 ==> HeldAt(s.cells, i);
      }
    }
  }

  lemma DropsTrans(s: Slot, t: Slot, u: Slot)
    requires OnlyFullDropped(s, t) && OnlyFullDropped(t, u) && (t.finished ==> u.finished)
    ensures OnlyFullDropped(s, u)
  {
    if !u.finished {
      forall c | c in s.coding ensures c in u.coding || NoneMissing(u.cells, c.fecSetIndex, c.End()) {
        if c !in t.coding {
          assert NoneMissing(t.cells, c.fecSetIndex, c.End());
        }
      }
    }
  }

  lemma {:induction false} EmissionDropsOnlyFull(s: Slot, start: nat, from: nat, last: nat)
    requires start <= from <= last + 1
    ensures OnlyFullDropped(s, TakeFrom(s, start, from, last).state)
    ensures s.finished ==> TakeFrom(s, start, from, last).state.finished
    decreases last + 1 - from
  {
    hide TakeIfHeld, OnlyFullDropped;
    match NextEnd(s.ends, from)
    case None => DropsRefl(s);
    case Some(end) =>
      TakeDropsOnlyFull(s, start, end);
      var t := TakeIfHeld(s, start, end).state;
      if end <= last {
        EmissionDropsOnlyFull(t, end + 1, end + 1, last);
        DropsTrans(s, t, TakeFrom(t, end + 1, end + 1, last).state);
      }
  }

  lemma DropsRefl(s: Slot)
    ensures OnlyFullDropped(s, s)
  {}

  lemma InsertDropsOnlyFull(s: Slot, shred: Shred, recover: seq<Shred> -> Rebuilt)
    requires !s.finished
    ensures OnlyFullDropped(TakeIn(s, shred, recover).state, Insert(s, shred, recover).state)
  {
    hide TakeIn, OnlyFullDropped;
    var i := TakeIn(s, shred, recover);
    match i.searched
    case None => DropsRefl(i.state);
    case Some(range) =>
      EmissionDropsOnlyFull(i.state, SegmentStart(i.state.ends, range.0), range.0, range.1);
  }

  // ----- intake, seen from one FEC set -----

  /** Cells that are not missing stay so. */
  ghost predicate NoNewMissing(s: Slot, t: Slot) {
    forall i: nat | MissingAt(t.cells, i) :: MissingAt(s.cells, i)
  }

  lemma {:induction false} InsertRebuiltFills(s: Slot, shreds: seq<Option<Shred>>, n: nat)
    requires n <= |shreds|
    ensures NoNewMissing(s, InsertRebuilt(s, shreds, n))
    ensures forall x, i: nat | x in shreds[..n] && IsDataAt(x, i) :: !MissingAt(InsertRebuilt(s, shreds, n).cells, i)
  {
    if n > 0 {
      InsertRebuiltFills(s, shreds, n - 1);
      assert shreds[..n] == shreds[..n - 1] + [shreds[n - 1]];
    }
  }

  lemma RefilledFills(s: Slot, fec: nat, recover: seq<Shred> -> Rebuilt)
    requires Position(s.coding, fec) < |s.coding|
    ensures NoNewMissing(s, Refilled(s, fec, recover))
  {
    var rebuilt := recover(RecoveryInput(s, fec));
    if rebuilt.Rebuilt? {
      InsertRebuiltFills(Attempted(s, fec), rebuilt.shreds, |rebuilt.shreds|);
    }
  }

  /** The coding set of `fec`, if there is one. */
  function SetOf(coding: seq<CodingSet>, fec: nat): Option<CodingSet> {
    var p := Position(coding, fec);
    if p < |coding| then Some(coding[p]) else None
  }

  lemma SetOfUnique(coding: seq<CodingSet>, q: nat)
    requires CodingSound(coding) && q < |coding|
    ensures SetOf(coding, coding[q].fecSetIndex) == Some(coding[q])
  {}

  /** The sets for `fec` are a set in `coding` exactly when `SetOf` says so. */
  lemma SetOfMember(coding: seq<CodingSet>, c: CodingSet)
    requires CodingSound(coding)
    ensures c in coding <==> SetOf(coding, c.fecSetIndex) == Some(c)
  {
    if c in coding {
      var q :| 0 <= q < |coding| && coding[q] == c;
      SetOfUnique(coding, q);
    }
  }

  lemma SwapRemoveSetOf(coding: seq<CodingSet>, p: nat, fec: nat)
    requires CodingSound(coding) && p < |coding|
    ensures CodingSound(SwapRemove(coding, p))
    ensures SetOf(SwapRemove(coding, p), fec) == if coding[p].fecSetIndex == fec then None else SetOf(coding, fec)
  {
    var r := SwapRemove(coding, p);
    SwapRemoveMembers(coding, p);
    var q := Position(coding, fec);
    if coding[p].fecSetIndex != fec && q < |coding| {
      var at := if q == |coding| - 1 then p else q;
      assert r[at] == coding[q];
      SetOfUnique(r, at);
    }
  }

  /** What recovery of `fec` does to the set of `f`. */
  lemma RecoverSetOf(s: Slot, fec: nat, recover: seq<Shred> -> Rebuilt, f: nat)
    requires CodingSound(s.coding)
    ensures var (t, r) := Recover(s, fec, recover);
      && CodingSound(t.coding) && NoNewMissing(s, t)
      && (f != fec ==> SetOf(t.coding, f) == SetOf(s.coding, f))
      && (match SetOf(s.coding, fec)
          case None => r == None && SetOf(t.coding, fec) == None
          case Some(c) =>
            && (r.Some? <==> Recoverable(s, fec))
            && (match SetOf(t.coding, fec)
                case None => NoneMissing(t.cells, fec, c.End())
                case Some(d) =>
                  && d == c.(recoveryAttempts := c.recoveryAttempts + if r.Some? then 1 else 0)
                  && !NoneMissing(t.cells, fec, c.End())))
  {
    hide CountHeld, NoneMissing, NoNewMissing, SwapRemove;
    var p := Position(s.coding, fec);
    assert NoNewMissing(s, s) by { NoNewMissingRefl(s, s); }
    if p < |s.coding| {
      var c := s.coding[p];
      if NoneMissing(s.cells, fec, c.End()) {
        SwapRemoveSetOf(s.coding, p, f);
        SwapRemoveSetOf(s.coding, p, fec);
        NoNewMissingRefl(s, s.(coding := SwapRemove(s.coding, p)));
      } else if Recoverable(s, fec) {
        RefilledFills(s, fec, recover);
        RefilledKeepsCoding(s, fec, recover);
        var t := Refilled(s, fec, recover);
        assert CodingSound(t.coding);
        SetOfUnique(t.coding, p);
        AttemptedSetOf(s, fec, f);
        SwapRemoveSetOf(t.coding, p, f);
        SwapRemoveSetOf(t.coding, p, fec);
        NoNewMissingCells(s, t, DropIfFull(t, p));
      }
    }
  }

  lemma AttemptedSetOf(s: Slot, fec: nat, f: nat)
    requires CodingSound(s.coding) && Position(s.coding, fec) < |s.coding|
    ensures f != fec ==> SetOf(Attempted(s, fec).coding, f) == SetOf(s.coding, f)
  {
    var r := Attempted(s, fec).coding;
    assert CodingSound(r);
    var q := Position(s.coding, f);
    if f != fec && q < |s.coding| {
      SetOfUnique(r, q);
    }
  }

  lemma NoNewMissingRefl(s: Slot, t: Slot)
    requires s.cells == t.cells
    ensures NoNewMissing(s, t)
  {}

  lemma NoNewMissingCells(s: Slot, t: Slot, u: Slot)
    requires NoNewMissing(s, t) && u.cells == t.cells
    ensures NoNewMissing(s, u)
  {}

  /** The set a coding shred leaves for its own `fec`, whose header says `k`. */
  function SetAfter(coding: seq<CodingSet>, shred: Shred, k: Pos): CodingSet {
    match SetOf(coding, shred.fecSetIndex)
    case Some(c) => WithCoding(c, shred)
    case None => WithCoding(CodingSet(shred.fecSetIndex, k, [], 0), shred)
  }

  /** What a coding shred does to the set of `f`. */
  lemma InsertCodingSetOf(s: Slot, shred: Shred, f: nat)
    requires CodingSound(s.coding)
    ensures var t := InsertCoding(s, shred);
      && CodingSound(t.coding) && t == s.(coding := t.coding)
      && (f != shred.fecSetIndex ==> SetOf(t.coding, f) == SetOf(s.coding, f))
      && (match NumDataShreds(shred.payload)
          case None => t == s
          case Some(k) =>
            if NoneMissing(s.cells, shred.fecSetIndex, shred.fecSetIndex + k) then t == s
            else SetOf(t.coding, shred.fecSetIndex) == Some(SetAfter(s.coding, shred, k)))
  {
    hide NoneMissing, CodingSound, WithCoding;
    var t := InsertCoding(s, shred);
    var k := NumDataShreds(shred.payload);
    if k.Some? && !NoneMissing(s.cells, shred.fecSetIndex, shred.fecSetIndex + k.value) {
      AddCodingSound(s.coding, shred, k.value);
      SetOfUnique(t.coding, Position(s.coding, shred.fecSetIndex));
      var q := Position(s.coding, f);
      if f != shred.fecSetIndex && q < |s.coding| {
        SetOfUnique(t.coding, q);
      }
    }
  }

  lemma AddCodingSound(coding: seq<CodingSet>, shred: Shred, k: Pos)
    requires CodingSound(coding)
    ensures var p := Position(coding, shred.fecSetIndex);
      if p < |coding| then CodingSound(coding[p := WithCoding(coding[p], shred)])
      else CodingSound(coding + [WithCoding(CodingSet(shred.fecSetIndex, k, [], 0), shred)])
  {}

  // ----- at most three attempts -----

  /** If `shred` is a coding shred of `f`, its header says `k`. */
  ghost predicate HeaderIs(shred: Shred, f: nat, k: nat) {
    !shred.isData && shred.fecSetIndex == f ==>
      NumDataShreds(shred.payload) == None || NumDataShreds(shred.payload) == Some(k)
  }

  /** After `count` attempts on `f`: either its set remembers them, or it was never needed again. */
  ghost predicate Bounded(s: Slot, f: nat, k: Pos, count: nat) {
    && count <= MAX_RECOVERY_ATTEMPTS
    && (!s.finished ==>
          match SetOf(s.coding, f)
          case Some(c) => c.fecSetIndex == f && c.numDataShreds == k && c.recoveryAttempts == count
          case None => count == 0 || NoneMissing(s.cells, f, f + k))
  }

  lemma NoneMissingKept(s: Slot, t: Slot, lo: nat, hi: nat)
    requires NoNewMissing(s, t) && NoneMissing(s.cells, lo, hi)
    ensures NoneMissing(t.cells, lo, hi)
  {}

  lemma TakeInBounded(s: Slot, shred: Shred, recover: seq<Shred> -> Rebuilt, f: nat, k: Pos, count: nat)
    requires CodingSound(s.coding) && !s.finished && Bounded(s, f, k, count) && HeaderIs(shred, f, k)
    requires !TakeIn(s, shred, recover).state.finished
    ensures var i := TakeIn(s, shred, recover);
      && CodingSound(i.state.coding)
      && Bounded(i.state, f, k, count + if shred.fecSetIndex == f && i.recovery.Some? then 1 else 0)
  {
    hide Recover, InsertCoding, NoneMissing, NoNewMissing;
    var t := if shred.isData then InsertData(s, shred) else InsertCoding(s, shred);
    if shred.isData {
      InsertDataFills(s, shred);
    } else {
      InsertCodingSetOf(s, shred, f);
      NoNewMissingRefl(s, t);
    }
    assert CodingSound(t.coding);
    RecoverSetOf(t, shred.fecSetIndex, recover, f);
    var u := Recover(t, shred.fecSetIndex, recover).0;
    if NoneMissing(s.cells, f, f + k) {
      NoneMissingKept(s, t, f, f + k);
    }
    if NoneMissing(t.cells, f, f + k) {
      NoneMissingKept(t, u, f, f + k);
    }
  }

  lemma InsertDataFills(s: Slot, shred: Shred)
    ensures NoNewMissing(s, InsertData(s, shred))
    ensures InsertData(s, shred).coding == s.coding
  {}

  lemma EmissionBounded(s: Slot, t: Slot, f: nat, k: Pos, count: nat)
    requires CodingSound(s.coding) && CodingSound(t.coding) && !s.finished
    requires OnlyFullDropped(s, t) && Bounded(s, f, k, count)
    ensures Bounded(t, f, k, count)
  {
    if !t.finished {
      if SetOf(t.coding, f).Some? {
        var d := SetOf(t.coding, f).value;
        SetOfMember(t.coding, d);
        SetOfMember(s.coding, d);
      } else if SetOf(s.coding, f).Some? {
        var c := SetOf(s.coding, f).value;
        SetOfMember(s.coding, c);
        SetOfMember(t.coding, c);
      }
    }
  }

  lemma InsertBounded(s: Slot, shred: Shred, recover: seq<Shred> -> Rebuilt, f: nat, k: Pos, count: nat)
    requires Sound(s) && Bounded(s, f, k, count) && HeaderIs(shred, f, k)
    ensures var o := Insert(s, shred, recover);
      Bounded(o.state, f, k, count + if shred.fecSetIndex == f && o.recovery.Some? then 1 else 0)
  {
    if !s.finished {
      SoundCells(s);
      TakeInSound(s, shred, recover);
      TakeInBounded(s, shred, recover, f, k, count);
      InsertStateSound(s, shred, recover);
      hide Sound, TakeIn, Bounded, OnlyFullDropped;
      InsertDropsOnlyFull(s, shred, recover);
      var i := TakeIn(s, shred, recover);
      var o := Insert(s, shred, recover);
      CodingSoundOf(o.state);
      EmissionBounded(i.state, o.state, f, k, count + if shred.fecSetIndex == f && i.recovery.Some? then 1 else 0);
    }
  }

  lemma InsertStateSound(s: Slot, shred: Shred, recover: seq<Shred> -> Rebuilt)
    requires Sound(s)
    ensures Sound(Insert(s, shred, recover).state)
  {
    if !s.finished {
      TakeInSound(s, shred, recover);
      hide Sound, TakeIn;
      var i := TakeIn(s, shred, recover);
      if i.searched.Some? {
        var (first, last) := i.searched.value;
        Emissions(i.state, SegmentStart(i.state.ends, first), first, last);
      }
    }
  }

  lemma CodingSoundOf(s: Slot)
    requires Sound(s)
    ensures CodingSound(s.coding)
  {}

  lemma NewSlotBounded(slot: nat, f: nat, k: Pos)
    ensures Bounded(NewSlot(slot), f, k, 0)
  {}

  lemma AttemptsStep(slot: nat, shreds: seq<Shred>, n: nat, recover: seq<Shred> -> Rebuilt, f: nat)
    requires 0 < n <= |shreds|
    ensures var o := Insert(RunSlot(slot, shreds, n - 1, recover), shreds[n - 1], recover);
      && RunSlot(slot, shreds, n, recover) == o.state
      && Attempts(slot, shreds, n, recover, f) ==
         Attempts(slot, shreds, n - 1, recover, f) + if shreds[n - 1].fecSetIndex == f && o.recovery.Some? then 1 else 0
  {}

  lemma {:induction false} RunBounded(slot: nat, shreds: seq<Shred>, n: nat, recover: seq<Shred> -> Rebuilt, f: nat, k: Pos)
    requires n <= |shreds| && forall i | 0 <= i < |shreds| :: HeaderIs(shreds[i], f, k)
    ensures var s := RunSlot(slot, shreds, n, recover);
      Sound(s) && Bounded(s, f, k, Attempts(slot, shreds, n, recover, f))
  {
    hide Sound, Insert, Bounded, HeaderIs;
    if n == 0 {
      NewSlotSound(slot);
      NewSlotBounded(slot, f, k);
    } else {
      AttemptsStep(slot, shreds, n, recover, f);
      hide RunSlot, Attempts;
      RunBounded(slot, shreds, n - 1, recover, f, k);
      var s := RunSlot(slot, shreds, n - 1, recover);
      var count := Attempts(slot, shreds, n - 1, recover, f);
      InsertStateSound(s, shreds[n - 1], recover);
      InsertBounded(s, shreds[n - 1], recover, f, k, count);
    }
  }

  /**
   One incarnation of a slot attempts to recover a FEC set at most three times, as long as
   the set's coding shreds agree on its size: a set that was dropped is never created again.
   */
  lemma AtMostThreeAttempts(slot: nat, shreds: seq<Shred>, recover: seq<Shred> -> Rebuilt, f: nat, k: Pos)
    requires forall i | 0 <= i < |shreds| :: HeaderIs(shreds[i], f, k)
    ensures Attempts(slot, shreds, |shreds|, recover, f) <= MAX_RECOVERY_ATTEMPTS
  {
    RunBounded(slot, shreds, |shreds|, recover, f, k);
  }

  // ----- no full set is kept -----

  ghost predicate NoneFull(s: Slot) {
    forall c | c in s.coding :: !NoneMissing(s.cells, c.fecSetIndex, c.End())
  }

  lemma MissingDepends(s: Slot, t: Slot, lo: nat, hi: nat)
    requires forall i: nat | lo <= i < hi :: SameCell(s.cells, t.cells, i)
    ensures NoneMissing(s.cells, lo, hi) <==> NoneMissing(t.cells, lo, hi)
  {
    forall i | lo <= i < hi ensures MissingAt(s.cells, i) <==> MissingAt(t.cells, i) {
      assert SameCell(s.cells, t.cells, i);
    }
  }

  lemma SetsApart(g: Geometry, f: nat, h: nat)
    requires Tiled(g) && f in g && h in g && f != h
    ensures f + g[f] <= h || h + g[h] <= f
  {}

  /** Intake for one FEC set leaves the cells of every other FEC set alone. */
  lemma OtherSetsUntouched(s: Slot, shred: Shred, recover: seq<Shred> -> Rebuilt, g: Geometry, f: nat)
    requires Sound(s) && !s.finished && CodingAgrees(s, g) && Agrees(g, shred) && KeepsToSet(recover) && Tiled(g)
    requires f in g && f != shred.fecSetIndex
    ensures forall i: nat | f <= i < f + g[f] :: SameCell(s.cells, TakeIn(s, shred, recover).state.cells, i)
  {
    hide Sound, CodingAgrees, KeepsToSet, TakeIn;
    TakeInLocal(s, shred, recover, g);
    var t := TakeIn(s, shred, recover);
    var fec: nat := shred.fecSetIndex;
    SetsApart(g, f, fec);
    forall i: nat | f <= i < f + g[f] ensures SameCell(s.cells, t.state.cells, i) {
      assert t.searched.Some? ==> !(t.searched.value.0 <= i <= t.searched.value.1);
    }
  }

  /** Intake leaves the coding set of every other FEC set alone. */
  lemma OtherSetsKept(s: Slot, shred: Shred, recover: seq<Shred> -> Rebuilt, f: nat)
    requires Sound(s) && !s.finished && f != shred.fecSetIndex
    ensures SetOf(TakeIn(s, shred, recover).state.coding, f) == SetOf(s.coding, f)
  {
    SoundCells(s);
    hide Sound, Recover, InsertCoding, SetOf;
    if shred.isData {
      InsertDataFills(s, shred);
      RecoverSetOf(InsertData(s, shred), shred.fecSetIndex, recover, f);
    } else {
      InsertCodingSetOf(s, shred, f);
      RecoverSetOf(InsertCoding(s, shred), shred.fecSetIndex, recover, f);
    }
  }

  lemma OwnSetNotFull(s: Slot, shred: Shred, recover: seq<Shred> -> Rebuilt, c: CodingSet)
    requires Sound(s) && !s.finished
    requires SetOf(TakeIn(s, shred, recover).state.coding, shred.fecSetIndex) == Some(c)
    ensures !NoneMissing(TakeIn(s, shred, recover).state.cells, shred.fecSetIndex, c.End())
  {
    SoundCells(s);
    hide Sound, Recover, InsertCoding, SetOf, NoneMissing;
    if shred.isData {
      InsertDataFills(s, shred);
      RecoverSetOf(InsertData(s, shred), shred.fecSetIndex, recover, shred.fecSetIndex);
    } else {
      InsertCodingSetOf(s, shred, shred.fecSetIndex);
      RecoverSetOf(InsertCoding(s, shred), shred.fecSetIndex, recover, shred.fecSetIndex);
    }
  }

  lemma TakeInNoneFull(s: Slot, shred: Shred, recover: seq<Shred> -> Rebuilt, g: Geometry)
    requires Sound(s) && !s.finished && CodingAgrees(s, g) && NoneFull(s)
    requires Agrees(g, shred) && KeepsToSet(recover) && Tiled(g)
    ensures NoneFull(TakeIn(s, shred, recover).state)
  {
    var t := TakeIn(s, shred, recover).state;
    TakeInLocal(s, shred, recover, g);
    TakeInSound(s, shred, recover);
    forall c | c in t.coding ensures !NoneMissing(t.cells, c.fecSetIndex, c.End()) {
      SoundCells(s);
      SoundCells(t);
      SetOfMember(t.coding, c);
      if c.fecSetIndex == shred.fecSetIndex {
        OwnSetNotFull(s, shred, recover, c);
      } else {
        OtherSetsKept(s, shred, recover, c.fecSetIndex);
        SetOfMember(s.coding, c);
        OtherSetsUntouched(s, shred, recover, g, c.fecSetIndex);
        MissingDepends(s, t, c.fecSetIndex, c.End());
      }
      hide Sound, TakeIn, KeepsToSet, SetOf, Tiled;
    }
  }

  lemma EmissionNoneFull(s: Slot, t: Slot)
    requires OnlyFullDropped(s, t) && NoneFull(s) && Sound(t)
    ensures NoneFull(t)
  {
    if !t.finished {
      forall c | c in t.coding ensures !NoneMissing(t.cells, c.fecSetIndex, c.End()) {
        assert c in s.coding;
        var i: nat :| c.fecSetIndex <= i < c.End() && MissingAt(s.cells, i);
        assert MissingAt(t.cells, i);
      }
    }
  }

  // ----- none that could have been recovered is kept -----

  /** Untried, and with fewer shreds than the set has data shreds. */
  ghost predicate NoneRecoverable(s: Slot) {
    forall c | c in s.coding ::
      c.recoveryAttempts == 0 && CountHeld(s.cells, c.fecSetIndex, c.End()) + |c.codingShreds| < c.numDataShreds
  }

  ghost predicate DistinctInput(input: seq<Shred>) {
    forall i, j | 0 <= i < j < |input| && input[i].isData == input[j].isData :: input[i].index != input[j].index
  }

  predicate NoDataAt(input: seq<Shred>, i: nat) {
    forall x | x in input && x.isData :: x.index != i
  }

  /** An erasure decoder that turns any `k` distinct shreds of a set into its missing data shreds. */
  ghost predicate AnyKSuffice(recover: seq<Shred> -> Rebuilt) {
    forall input: seq<Shred>, fec: nat, k: nat |
        InputOf(input, fec, k) && DistinctInput(input) && |input| >= k
        && (forall x | x in input && x.isData :: fec <= x.index < fec + k) ::
      && recover(input).Rebuilt?
      && forall i: nat | fec <= i < fec + k && NoDataAt(input, i) :: exists x :: x in recover(input).shreds && IsDataAt(x, i)
  }

  lemma {:induction false} HeldShredsLaws(s: Slot, lo: nat, hi: nat)
    requires CellsSound(s)
    ensures var held := HeldShreds(s.cells, lo, hi);
      && |held| == CountHeld(s.cells, lo, hi)
      && (forall i | 0 <= i < |held| :: held[i].isData && lo <= held[i].index < hi && HeldAt(s.cells, held[i].index))
      && (forall i, j | 0 <= i < j < |held| :: held[i].index < held[j].index)
    decreases hi
  {
    if lo < hi {
      HeldShredsLaws(s, lo, hi - 1);
      assert HeldAt(s.cells, hi - 1) ==> s.cells[hi - 1].shred.isData && s.cells[hi - 1].shred.index == hi - 1;
    }
  }

  lemma RecoveryInputUsable(s: Slot, fec: nat, g: Geometry)
    requires Sound(s) && !s.finished && CodingAgrees(s, g) && Position(s.coding, fec) < |s.coding|
    ensures var c := s.coding[Position(s.coding, fec)];
      var input := RecoveryInput(s, fec);
      && fec in g && c.numDataShreds == g[fec]
      && InputOf(input, fec, g[fec]) && DistinctInput(input)
      && |input| == CountHeld(s.cells, fec, c.End()) + |c.codingShreds|
      && (forall x | x in input && x.isData :: fec <= x.index < fec + g[fec] && HeldAt(s.cells, x.index))
  {
    SoundCells(s);
    RecoveryInputAgrees(s, fec, g);
    var c := s.coding[Position(s.coding, fec)];
    HeldShredsLaws(s, fec, c.End());
    hide Position, CellsSound, HeldShreds, CountHeld, Sound, InputOf;
    var held := HeldShreds(s.cells, fec, c.End());
    var input := RecoveryInput(s, fec);
    assert DistinctIndices(c.codingShreds);
    assert c in s.coding;
    forall i | |held| <= i < |input| ensures !input[i].isData {
      assert input[i] in c.codingShreds;
    }
    forall i, j | 0 <= i < j < |input| && input[i].isData == input[j].isData ensures input[i].index != input[j].index {
      assert i >= |held| ==> input[i] == c.codingShreds[i - |held|];
      assert j >= |held| ==> input[j] == c.codingShreds[j - |held|];
    }
  }

  lemma SuccessfulRecovery(s: Slot, fec: nat, recover: seq<Shred> -> Rebuilt, g: Geometry)
    requires Sound(s) && !s.finished && CodingAgrees(s, g) && Recoverable(s, fec) && AnyKSuffice(recover)
    ensures NoneMissing(Refilled(s, fec, recover).cells, fec, s.coding[Position(s.coding, fec)].End())
  {
    RecoveryInputUsable(s, fec, g);
    RefilledFills(s, fec, recover);
    hide Sound, Position, CountHeld, HeldShreds, CodingAgrees;
    var input := RecoveryInput(s, fec);
    var shreds := recover(input).shreds;
    InsertRebuiltFills(Attempted(s, fec), shreds, |shreds|);
    assert shreds[..|shreds|] == shreds;
    forall i: nat | fec <= i < fec + g[fec] ensures !MissingAt(Refilled(s, fec, recover).cells, i) {
      if MissingAt(s.cells, i) {
        assert NoDataAt(input, i);
        var x :| x in shreds && IsDataAt(x, i);
      }
    }
  }

  lemma OwnSetStarved(s: Slot, fec: nat, recover: seq<Shred> -> Rebuilt, g: Geometry, d: CodingSet)
    requires Sound(s) && !s.finished && CodingAgrees(s, g) && AnyKSuffice(recover)
    requires SetOf(s.coding, fec).Some? ==> SetOf(s.coding, fec).value.recoveryAttempts == 0
    requires SetOf(Recover(s, fec, recover).0.coding, fec) == Some(d)
    ensures d.recoveryAttempts == 0
    ensures CountHeld(Recover(s, fec, recover).0.cells, fec, d.End()) + |d.codingShreds| < d.numDataShreds
  {
    SoundCells(s);
    RecoverSetOf(s, fec, recover, fec);
    if Recoverable(s, fec) {
      SuccessfulRecovery(s, fec, recover, g);
      RefilledKeepsCoding(s, fec, recover);
      DropIfFullCells(Refilled(s, fec, recover), Position(s.coding, fec));
      assert false;
    }
  }

  lemma DropIfFullCells(s: Slot, p: nat)
    requires p < |s.coding|
    ensures DropIfFull(s, p).cells == s.cells
  {}

  lemma {:induction false} CountHeldDepends(a: seq<DataShred>, b: seq<DataShred>, lo: nat, hi: nat)
    requires forall i: nat | lo <= i < hi && HeldAt(b, i) :: HeldAt(a, i)
    ensures CountHeld(b, lo, hi) <= CountHeld(a, lo, hi)
    decreases hi
  {
    if lo < hi {
      CountHeldDepends(a, b, lo, hi - 1);
    }
  }

  lemma TakeInNoneRecoverable(s: Slot, shred: Shred, recover: seq<Shred> -> Rebuilt, g: Geometry)
    requires Sound(s) && !s.finished && CodingAgrees(s, g) && NoneRecoverable(s)
    requires Agrees(g, shred) && KeepsToSet(recover) && AnyKSuffice(recover) && Tiled(g)
    ensures NoneRecoverable(TakeIn(s, shred, recover).state)
  {
    var t := TakeIn(s, shred, recover).state;
    TakeInLocal(s, shred, recover, g);
    TakeInSound(s, shred, recover);
    SoundCells(s);
    SoundCells(t);
    forall c | c in t.coding
      ensures c.recoveryAttempts == 0
      ensures CountHeld(t.cells, c.fecSetIndex, c.End()) + |c.codingShreds| < c.numDataShreds
    {
      SetOfMember(t.coding, c);
      if c.fecSetIndex == shred.fecSetIndex {
        OwnSetAfterIntake(s, shred, recover, g, c);
      } else {
        OtherSetsKept(s, shred, recover, c.fecSetIndex);
        SetOfMember(s.coding, c);
        OtherSetsUntouched(s, shred, recover, g, c.fecSetIndex);
        forall i: nat | c.fecSetIndex <= i < c.End() && HeldAt(t.cells, i) ensures HeldAt(s.cells, i) {
          assert SameCell(s.cells, t.cells, i);
        }
        CountHeldDepends(s.cells, t.cells, c.fecSetIndex, c.End());
      }
      hide Sound, TakeIn, KeepsToSet, SetOf, Tiled, AnyKSuffice, CountHeld;
    }
  }

  lemma OwnSetAfterIntake(s: Slot, shred: Shred, recover: seq<Shred> -> Rebuilt, g: Geometry, c: CodingSet)
    requires Sound(s) && !s.finished && CodingAgrees(s, g) && NoneRecoverable(s)
    requires Agrees(g, shred) && AnyKSuffice(recover)
    requires SetOf(TakeIn(s, shred, recover).state.coding, shred.fecSetIndex) == Some(c)
    ensures c.recoveryAttempts == 0
    ensures CountHeld(TakeIn(s, shred, recover).state.cells, shred.fecSetIndex, c.End()) + |c.codingShreds| < c.numDataShreds
  {
    SoundCells(s);
    var fec := shred.fecSetIndex;
    if SetOf(s.coding, fec).Some? {
      SetOfMember(s.coding, SetOf(s.coding, fec).value);
    }
    hide Sound, Recover, InsertCoding, InsertData, SetOf, NoneMissing, CountHeld, CodingAgrees, AnyKSuffice;
    if shred.isData {
      InsertDataFills(s, shred);
      InsertDataSound(s, shred);
      CodingAgreesDepends(s, InsertData(s, shred), g);
      OwnSetStarved(InsertData(s, shred), fec, recover, g, c);
    } else {
      InsertCodingSetOf(s, shred, fec);
      InsertCodingSound(s, shred);
      InsertCodingAgrees(s, shred, g);
      OwnSetStarved(InsertCoding(s, shred), fec, recover, g, c);
    }
  }

  lemma EmissionNoneRecoverable(s: Slot, t: Slot)
    requires OnlyFullDropped(s, t) && NoneRecoverable(s) && Sound(t)
    ensures NoneRecoverable(t)
  {
    if !t.finished {
      forall c | c in t.coding
        ensures c.recoveryAttempts == 0 && CountHeld(t.cells, c.fecSetIndex, c.End()) + |c.codingShreds| < c.numDataShreds
      {
        assert c in s.coding;
        CountHeldDepends(s.cells, t.cells, c.fecSetIndex, c.End());
      }
    }
  }
}
