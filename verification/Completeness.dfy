/**
 Searching only around what was just inserted loses nothing: when FEC headers agree with one
 geometry, no known segment is ever left wholly held.  The same hypotheses bound the
 recovery attempts and keep no coding set that is full.
 */
module Completeness {
  import opened Options
  import opened Bitset
  import opened Shreds
  import opened SlotSpec
  import opened SlotLaws

  /** Number of data shreds of each FEC set, by its first index. */
  type Geometry = map<nat, Pos>

  /** FEC sets do not overlap. */
  ghost predicate Tiled(g: Geometry) {
    forall f: nat, h: nat | f in g && h in g && f < h :: f + g[f] <= h
  }

  /** The shred's FEC header is the geometry's. */
  ghost predicate Agrees(g: Geometry, shred: Shred) {
    && shred.fecSetIndex in g
    && (shred.isData ==> shred.fecSetIndex <= shred.index < shred.fecSetIndex + g[shred.fecSetIndex])
    && (!shred.isData ==>
          NumDataShreds(shred.payload).Some? ==> NumDataShreds(shred.payload).value == g[shred.fecSetIndex])
  }

  /** `shred` is a coding shred of the set `fec` of `k` data shreds. */
  predicate CodingOf(shred: Shred, fec: nat, k: nat) {
    !shred.isData && shred.fecSetIndex == fec && NumDataShreds(shred.payload) == Some(k)
  }

  /** Recovery input of one FEC set: data shreds, then at least one coding shred, all with the set's header. */
  ghost predicate InputOf(input: seq<Shred>, fec: nat, k: nat) {
    && (exists i :: 0 <= i < |input| && !input[i].isData)
    && forall i | 0 <= i < |input| && !input[i].isData :: CodingOf(input[i], fec, k)
  }

  predicate IsDataAt(x: Option<Shred>, i: nat) {
    x.Some? && x.value.isData && x.value.index == i
  }

  /** The decoder rebuilds data shreds only inside the FEC set it was called for. */
  ghost predicate KeepsToSet(recover: seq<Shred> -> Rebuilt) {
    forall input: seq<Shred>, fec: nat, k: nat | InputOf(input, fec, k) && recover(input).Rebuilt? ::
      forall i: nat, x | x in recover(input).shreds && IsDataAt(x, i) :: fec <= i < fec + k
  }

  ghost predicate CodingAgrees(s: Slot, g: Geometry) {
    forall c | c in s.coding ::
      && c.fecSetIndex in g && c.numDataShreds == g[c.fecSetIndex]
      && c.codingShreds != []
      && forall x | x in c.codingShreds :: CodingOf(x, c.fecSetIndex, c.numDataShreds)
  }

  ghost predicate Complete(s: Slot) {
    !s.finished ==> forall end | end in s.ends :: !AllHeld(s.cells, SegmentStart(s.ends, end), end + 1)
  }

  // ----- intake changes only the range it reports -----

  /** `t` has the cells and ends of `s` outside `lo..=hi`, and no cell of `s` went missing. */
  ghost predicate SameOutside(s: Slot, t: Slot, lo: nat, hi: nat) {
    && (forall i: nat | !(lo <= i <= hi) :: SameCell(s.cells, t.cells, i) && (i in t.ends <==> i in s.ends))
    && (forall i: nat | !MissingAt(s.cells, i) :: SameCell(s.cells, t.cells, i))
  }

  predicate SameCell(a: seq<DataShred>, b: seq<DataShred>, i: nat) {
    CellAt(a, i) == CellAt(b, i)
  }

  function CellAt(cells: seq<DataShred>, i: nat): DataShred {
    if i < |cells| then cells[i] else Missing
  }

  lemma InsertDataLocal(s: Slot, shred: Shred)
    ensures SameOutside(s, InsertData(s, shred), shred.index, shred.index)
    ensures InsertData(s, shred).coding == s.coding && InsertData(s, shred).finished == s.finished
    ensures !MissingAt(InsertData(s, shred).cells, shred.index)
  {}

  /** Changes within two parts of a range compose to a change within the range. */
  lemma SameOutsideTrans(s: Slot, t: Slot, u: Slot, a: nat, b: nat, c: nat, d: nat, lo: nat, hi: nat)
    requires SameOutside(s, t, a, b) && SameOutside(t, u, c, d)
    requires lo <= a && b <= hi && lo <= c && d <= hi
    ensures SameOutside(s, u, lo, hi)
  {
    forall j: nat | !(lo <= j <= hi) || !MissingAt(s.cells, j) ensures SameCell(s.cells, u.cells, j) {
      assert SameCell(s.cells, t.cells, j);
      assert MissingAt(t.cells, j) ==> !(lo <= j <= hi);
      assert SameCell(t.cells, u.cells, j);
    }
    forall j: nat | !(lo <= j <= hi) ensures j in u.ends <==> j in s.ends {
      assert SameCell(s.cells, t.cells, j) && SameCell(t.cells, u.cells, j);
    }
  }

  lemma RejectedUnchanged(s: Slot, shred: Shred)
    requires !Accepts(s, shred)
    ensures InsertData(s, shred) == s
  {}

  lemma {:induction false} InsertRebuiltLocal(s: Slot, shreds: seq<Option<Shred>>, n: nat, lo: nat, hi: nat)
    requires n <= |shreds|
    requires forall x, i: nat | x in shreds && IsDataAt(x, i) :: lo <= i <= hi
    ensures SameOutside(s, InsertRebuilt(s, shreds, n), lo, hi)
    ensures InsertRebuilt(s, shreds, n).coding == s.coding && InsertRebuilt(s, shreds, n).finished == s.finished
    ensures CountRebuilt(s, shreds, n) == 0 ==> InsertRebuilt(s, shreds, n) == s
  {
    if n > 0 {
      hide InsertData, SameOutside, MissingAt;
      InsertRebuiltLocal(s, shreds, n - 1, lo, hi);
      var t := InsertRebuilt(s, shreds, n - 1);
      var x := shreds[n - 1];
      assert x in shreds;
      if x.Some? && x.value.isData {
        assert IsDataAt(x, x.value.index);
        InsertDataLocal(t, x.value);
        SameOutsideTrans(s, t, InsertData(t, x.value), lo, hi, x.value.index, x.value.index, lo, hi);
        if !Accepts(t, x.value) {
          RejectedUnchanged(t, x.value);
        }
      }
    } else {
      assert SameOutside(s, s, lo, hi);
    }
  }

  lemma {:induction false} HeldShredsAreData(s: Slot, lo: nat, hi: nat)
    requires CellsSound(s)
    ensures forall x | x in HeldShreds(s.cells, lo, hi) :: x.isData
    decreases hi
  {
    if lo < hi {
      HeldShredsAreData(s, lo, hi - 1);
      assert HeldAt(s.cells, hi - 1) ==> s.cells[hi - 1].shred.isData;
    }
  }

  lemma RecoveryInputAgrees(s: Slot, fec: nat, g: Geometry)
    requires CellsSound(s) && CodingAgrees(s, g) && Position(s.coding, fec) < |s.coding|
    ensures fec in g && s.coding[Position(s.coding, fec)].End() == fec + g[fec]
    ensures InputOf(RecoveryInput(s, fec), fec, g[fec])
  {
    hide Position, HeldShreds, CellsSound;
    var c := s.coding[Position(s.coding, fec)];
    assert c in s.coding;
    var held := HeldShreds(s.cells, fec, c.End());
    HeldShredsAreData(s, fec, c.End());
    var input := RecoveryInput(s, fec);
    assert input == held + c.codingShreds;
    assert c.codingShreds[0] in c.codingShreds;
    assert !input[|held|].isData;
    assert forall i | 0 <= i < |held| :: input[i].isData by {
      assert forall i | 0 <= i < |held| :: input[i] == held[i] && held[i] in held;
    }
    forall i | |held| <= i < |input| ensures CodingOf(input[i], fec, g[fec]) {
      assert input[i] == c.codingShreds[i - |held|] && input[i] in c.codingShreds;
    }
  }

  lemma AttemptedAgrees(s: Slot, fec: nat, g: Geometry)
    requires CodingAgrees(s, g) && Position(s.coding, fec) < |s.coding|
    ensures CodingAgrees(Attempted(s, fec), g)
  {
    var p := Position(s.coding, fec);
    assert s.coding[p] in s.coding;
    forall c | c in Attempted(s, fec).coding
      ensures exists d :: d in s.coding && c == d.(recoveryAttempts := c.recoveryAttempts)
    {
      var q :| 0 <= q < |s.coding| && Attempted(s, fec).coding[q] == c;
      assert s.coding[q] in s.coding;
    }
  }

  lemma SwapRemoveSubset<T>(xs: seq<T>, p: nat)
    requires p < |xs|
    ensures forall x | x in SwapRemove(xs, p) :: x in xs
  {}

  /** Recovery touches only its own FEC set, reports whether it filled anything, and keeps headers agreeing. */
  lemma RecoverLocal(s: Slot, fec: nat, recover: seq<Shred> -> Rebuilt, g: Geometry)
    requires Sound(s) && !s.finished && CodingAgrees(s, g) && KeepsToSet(recover)
    ensures var (t, r) := Recover(s, fec, recover);
      && CodingAgrees(t, g) && !t.finished
      && (r == None || r.value.recovered == 0 ==> t.cells == s.cells && t.ends == s.ends)
      && (r.Some? ==> fec in g && r.value.start == fec && r.value.end == fec + g[fec] - 1
                      && SameOutside(s, t, fec, fec + g[fec] - 1))
  {
    hide Position, SwapRemove, CountHeld, HeldShreds, NoneMissing, Sound;
    var p := Position(s.coding, fec);
    if p < |s.coding| {
      SwapRemoveSubset(s.coding, p);
      if Recoverable(s, fec) {
        assert CellsSound(s) by { SoundCells(s); }
        RecoveryInputAgrees(s, fec, g);
        AttemptedAgrees(s, fec, g);
        RefilledKeepsCoding(s, fec, recover);
        var rebuilt := recover(RecoveryInput(s, fec));
        if rebuilt.Rebuilt? {
          InsertRebuiltLocal(Attempted(s, fec), rebuilt.shreds, |rebuilt.shreds|, fec, fec + g[fec] - 1);
        }
        SwapRemoveSubset(Refilled(s, fec, recover).coding, p);
      }
    }
  }

  lemma SoundCells(s: Slot)
    requires Sound(s) && !s.finished
    ensures CellsSound(s) && CodingSound(s.coding)
  {}

  lemma InsertCodingAgrees(s: Slot, shred: Shred, g: Geometry)
    requires CodingAgrees(s, g) && Agrees(g, shred) && !shred.isData
    ensures CodingAgrees(InsertCoding(s, shred), g)
  {
    var k := NumDataShreds(shred.payload);
    if k.Some? {
      var p := Position(s.coding, shred.fecSetIndex);
      if p < |s.coding| {
        assert s.coding[p] in s.coding;
      }
    }
  }

  /** Intake changes nothing outside the range it reports, and nothing at all if it reports none. */
  lemma TakeInLocal(s: Slot, shred: Shred, recover: seq<Shred> -> Rebuilt, g: Geometry)
    requires Sound(s) && !s.finished && CodingAgrees(s, g) && Agrees(g, shred) && KeepsToSet(recover)
    ensures var i := TakeIn(s, shred, recover);
      && CodingAgrees(i.state, g) && !i.state.finished
      && (match i.searched
          case None => i.state.cells == s.cells && i.state.ends == s.ends
          case Some(range) =>
            && SameOutside(s, i.state, range.0, range.1)
            && shred.fecSetIndex <= range.0 && range.1 < shred.fecSetIndex + g[shred.fecSetIndex])
  {
    hide Recover, InsertData, InsertCoding, Sound, CodingAgrees, KeepsToSet;
    var fec := shred.fecSetIndex;
    if shred.isData {
      hide SameOutside, MissingAt;
      InsertDataSound(s, shred);
      InsertDataLocal(s, shred);
      var t := InsertData(s, shred);
      CodingAgreesDepends(s, t, g);
      RecoverLocal(t, fec, recover, g);
      var (u, r) := Recover(t, fec, recover);
      if r.Some? && r.value.recovered > 0 {
        SameOutsideTrans(s, t, u, shred.index, shred.index, r.value.start, r.value.end, r.value.start, r.value.end);
      } else if !Accepts(s, shred) {
        RejectedUnchanged(s, shred);
      } else {
        SameOutsideDepends(s, t, u, shred.index, shred.index);
      }
    } else {
      InsertCodingSound(s, shred);
      InsertCodingAgrees(s, shred, g);
      RecoverLocal(InsertCoding(s, shred), fec, recover, g);
    }
  }

  lemma SameOutsideDepends(s: Slot, t: Slot, u: Slot, lo: nat, hi: nat)
    requires SameOutside(s, t, lo, hi) && t.cells == u.cells && t.ends == u.ends
    ensures SameOutside(s, u, lo, hi)
  {}

  lemma CodingAgreesDepends(s: Slot, t: Slot, g: Geometry)
    requires s.coding == t.coding
    ensures CodingAgrees(s, g) <==> CodingAgrees(t, g)
  {}

  // ----- nothing complete is left behind -----

  /** A segment held whole after intake, but not before, touches the changed range. */
  lemma NewlyHeldTouches(s: Slot, t: Slot, lo: nat, hi: nat, end: nat)
    requires !s.finished && Complete(s) && SameOutside(s, t, lo, hi)
    requires end in t.ends && AllHeld(t.cells, SegmentStart(t.ends, end), end + 1)
    ensures lo <= end && SegmentStart(t.ends, end) <= hi + 1
  {
    var start := SegmentStart(t.ends, end);
    if end < lo || start > hi + 1 {
      assert end in s.ends;
      assert start > 0 ==> start - 1 in s.ends;
      assert SegmentStart(s.ends, end) == start;
      forall i | start <= i < end + 1 ensures HeldAt(s.cells, i) {
        assert HeldAt(t.cells, i) && SameCell(s.cells, t.cells, i);
      }
      assert false;
    }
  }

  /** After emission a segment is held whole only if it was before and was not handed out. */
  lemma HeldAfterEmission(t: Slot, e: Emission, start: nat, end: nat)
    requires Marks(t, e) && !e.state.finished && start <= end
    requires AllHeld(e.state.cells, start, end + 1)
    ensures AllHeld(t.cells, start, end + 1) && !Covers(e.taken, end)
  {
    hide Covers;
    assert HeldAt(e.state.cells, end);
    forall i | start <= i < end + 1 ensures HeldAt(t.cells, i) {
      assert HeldAt(e.state.cells, i);
    }
  }

  lemma EmissionCompletes(s: Slot, t: Slot, lo: nat, hi: nat)
    requires !s.finished && Complete(s) && SameOutside(s, t, lo, hi) && lo <= hi
    requires Sound(t) && !t.finished
    ensures Complete(TakeCompleted(t, lo, hi).state)
  {
    var start := SegmentStart(t.ends, lo);
    Emissions(t, start, lo, hi);
    hide Sound, StaysSound, HandsOut, SegmentStart, TakeFrom, Covers, SameOutside;
    var e := TakeFrom(t, start, lo, hi);
    if !e.state.finished {
      forall end | end in e.state.ends ensures !AllHeld(e.state.cells, SegmentStart(t.ends, end), end + 1) {
        if AllHeld(e.state.cells, SegmentStart(t.ends, end), end + 1) {
          HeldAfterEmission(t, e, SegmentStart(t.ends, end), end);
          NewlyHeldTouches(s, t, lo, hi, end);
          assert false;
        }
      }
    }
  }

  lemma InsertCompletes(s: Slot, shred: Shred, recover: seq<Shred> -> Rebuilt, g: Geometry)
    requires Sound(s) && CodingAgrees(s, g) && Complete(s)
    requires Agrees(g, shred) && KeepsToSet(recover)
    ensures Complete(Insert(s, shred, recover).state)
  {
    hide Sound, CodingAgrees, KeepsToSet, TakeIn, Complete;
    if !s.finished {
      TakeInSound(s, shred, recover);
      TakeInLocal(s, shred, recover, g);
      var i := TakeIn(s, shred, recover);
      match i.searched
      case None => CompleteDepends(s, i.state);
      case Some(range) => EmissionCompletes(s, i.state, range.0, range.1);
    }
  }

  lemma CompleteDepends(s: Slot, t: Slot)
    requires s.cells == t.cells && s.ends == t.ends && s.finished == t.finished && Complete(s)
    ensures Complete(t)
  {}
}
