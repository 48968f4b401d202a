/** What a recovery is given, what it reports, and how many cells it fills. */
module RecoveryMeaning {
  import opened Options
  import opened Bitset
  import opened Shreds
  import opened SlotSpec
  import opened SlotLaws
  import opened Completeness
  import opened RecoveryBounds

  /** The indices whose data shreds are in the slot, handed out or not. */
  ghost function Filled(cells: seq<DataShred>): (r: set<nat>)
    ensures forall i: nat :: i in r <==> i < |cells| && !cells[i].Missing?
  {
    set i: nat | i < |cells| && !cells[i].Missing?
  }

  lemma InsertFills(s: Slot, shred: Shred)
    ensures var t := InsertData(s, shred);
      && Filled(t.cells) == Filled(s.cells) + {shred.index}
      && (Accepts(s, shred) <==> shred.index !in Filled(s.cells))
      && (shred.index !in Filled(s.cells) ==> HeldAt(t.cells, shred.index) && t.cells[shred.index].shred == shred)
      && (t.last != s.last ==> shred.lastInSlot && t.last == Some(shred.index))
  {}

  /** Among the first `n` shreds given back is the data shred of index `i`. */
  ghost predicate GivesBack(shreds: seq<Option<Shred>>, n: nat, i: nat)
    requires n <= |shreds|
  {
    exists k :: 0 <= k < n && IsDataAt(shreds[k], i)
  }

  /** Each count of a rebuilt shred is a cell filled. */
  lemma {:induction false} RebuiltFills(s: Slot, shreds: seq<Option<Shred>>, n: nat)
    requires n <= |shreds|
    ensures |Filled(InsertRebuilt(s, shreds, n).cells)| == |Filled(s.cells)| + CountRebuilt(s, shreds, n)
    ensures forall i: nat :: i in Filled(InsertRebuilt(s, shreds, n).cells) <==>
      i in Filled(s.cells) || GivesBack(shreds, n, i)
  {
    if n > 0 {
      hide InsertData, Filled;
      RebuiltFills(s, shreds, n - 1);
      var t, x := InsertRebuilt(s, shreds, n - 1), shreds[n - 1];
      if x.Some? && x.value.isData {
        InsertFills(t, x.value);
        OneMore(Filled(t.cells), x.value.index);
      }
    }
  }

  lemma OneMore(s: set<nat>, i: nat)
    ensures |s + {i}| == |s| + if i in s then 0 else 1
  {
    assert i in s ==> s + {i} == s;
  }

  /** The input of a recovery: the held data shreds of the set in the order of their indices, then its coding shreds. */
  ghost predicate IsInput(input: seq<Shred>, s: Slot, c: CodingSet) {
    exists n: nat :: n <= |input| && input[n..] == c.codingShreds && ListsHeld(input[..n], s, c.fecSetIndex, c.End())
  }

  /** Exactly the held data shreds of `lo..hi`, in the order of their indices. */
  ghost predicate ListsHeld(held: seq<Shred>, s: Slot, lo: nat, hi: nat) {
    && (forall i | 0 <= i < |held| :: lo <= held[i].index < hi && HeldAt(s.cells, held[i].index) && s.cells[held[i].index].shred == held[i])
    && (forall i, j | 0 <= i < j < |held| :: held[i].index < held[j].index)
    && (forall k: nat | lo <= k < hi && HeldAt(s.cells, k) :: exists i :: 0 <= i < |held| && held[i].index == k)
  }

  lemma {:induction false} HeldInOrder(s: Slot, lo: nat, hi: nat)
    requires CellsSound(s)
    ensures ListsHeld(HeldShreds(s.cells, lo, hi), s, lo, hi)
    decreases hi
  {
    hide CellsSound, ListsHeld;
    if lo < hi {
      HeldInOrder(s, lo, hi - 1);
      OwnIndex(s, hi - 1);
      HeldMore(HeldShreds(s.cells, lo, hi - 1), s, lo, hi);
    } else {
      NoneHeld(s, lo, hi);
    }
  }

  lemma NoneHeld(s: Slot, lo: nat, hi: nat)
    requires lo >= hi
    ensures ListsHeld([], s, lo, hi)
  {}

  lemma OwnIndex(s: Slot, i: nat)
    requires CellsSound(s)
    ensures HeldAt(s.cells, i) ==> s.cells[i].shred.index == i
  {}

  lemma HeldMore(held: seq<Shred>, s: Slot, lo: nat, hi: nat)
    requires lo < hi && ListsHeld(held, s, lo, hi - 1) && (HeldAt(s.cells, hi - 1) ==> s.cells[hi - 1].shred.index == hi - 1)
    ensures ListsHeld(held + (if HeldAt(s.cells, hi - 1) then [s.cells[hi - 1].shred] else []), s, lo, hi)
  {
    var all := held + (if HeldAt(s.cells, hi - 1) then [s.cells[hi - 1].shred] else []);
    assert forall i | 0 <= i < |held| :: all[i] == held[i];
    assert HeldAt(s.cells, hi - 1) ==> all[|held|] == s.cells[hi - 1].shred;
    hide HeldAt;
    forall k: nat | lo <= k < hi && HeldAt(s.cells, k) ensures exists i :: 0 <= i < |all| && all[i].index == k {
      if k < hi - 1 {
        var i :| 0 <= i < |held| && held[i].index == k;
        assert all[i].index == k;
      } else {
        assert all[|held|].index == k;
      }
    }
  }

  lemma InputMeans(s: Slot, fec: nat)
    requires CellsSound(s) && Position(s.coding, fec) < |s.coding|
    ensures IsInput(RecoveryInput(s, fec), s, s.coding[Position(s.coding, fec)])
  {
    var c := s.coding[Position(s.coding, fec)];
    assert c.fecSetIndex == fec;
    HeldInOrder(s, fec, c.End());
    hide HeldShreds, CellsSound, Position, ListsHeld;
    var held, input := HeldShreds(s.cells, fec, c.End()), RecoveryInput(s, fec);
    assert input[|held|..] == c.codingShreds && input[..|held|] == held;
  }

  /**
   A recovery that is tried reports the range of its set; it failed if the decoder did or gave back
   a shred that does not parse; and it counts exactly the cells that it filled, each with a data
   shred that the decoder gave back.
   */
  lemma RecoveryMeans(s: Slot, fec: nat, recover: seq<Shred> -> Rebuilt)
    requires CellsSound(s) && Recoverable(s, fec)
    ensures var c := s.coding[Position(s.coding, fec)];
      var (t, r) := Recover(s, fec, recover);
      exists input :: IsInput(input, s, c) && r.Some?
        && r.value.start == fec && r.value.end + 1 == fec + c.numDataShreds
        && (r.value.failed <==> recover(input).Unrecoverable? || None in recover(input).shreds)
        && |Filled(t.cells)| == |Filled(s.cells)| + r.value.recovered
        && forall i: nat :: i in Filled(t.cells) <==>
             i in Filled(s.cells) || (recover(input).Rebuilt? && GivesBack(recover(input).shreds, |recover(input).shreds|, i))
  {
    InputMeans(s, fec);
    var input := RecoveryInput(s, fec);
    RecoverReports(s, fec, recover);
    var rebuilt := recover(input);
    if rebuilt.Rebuilt? {
      RebuiltFills(Attempted(s, fec), rebuilt.shreds, |rebuilt.shreds|);
    }
    hide Recover, Recoverable, RecoveryInput, IsInput, CellsSound, Filled, CountRebuilt, InsertRebuilt;
  }

  lemma RecoverReports(s: Slot, fec: nat, recover: seq<Shred> -> Rebuilt)
    requires Recoverable(s, fec)
    ensures var c := s.coding[Position(s.coding, fec)];
      var (t, r) := Recover(s, fec, recover);
      var rebuilt := recover(RecoveryInput(s, fec));
      && r.Some? && r.value.start == fec && r.value.end + 1 == fec + c.numDataShreds
      && (r.value.failed <==> rebuilt.Unrecoverable? || None in rebuilt.shreds)
      && r.value.recovered == (if rebuilt.Unrecoverable? then 0 else CountRebuilt(Attempted(s, fec), rebuilt.shreds, |rebuilt.shreds|))
      && t.cells == (if rebuilt.Unrecoverable? then s.cells else InsertRebuilt(Attempted(s, fec), rebuilt.shreds, |rebuilt.shreds|).cells)
  {
    RefilledKeepsCoding(s, fec, recover);
    DropIfFullCells(Refilled(s, fec, recover), Position(s.coding, fec));
    hide CountRebuilt, InsertRebuilt, NoneMissing, CountHeld;
  }

  /** No other outcome changes a cell or reports anything. */
  lemma UntriedMeans(s: Slot, fec: nat, recover: seq<Shred> -> Rebuilt)
    requires !Recoverable(s, fec)
    ensures var (t, r) := Recover(s, fec, recover); r == None && t == s.(coding := t.coding)
  {}

  // ----- sets that a hand-out completes -----

  /** The set shares an index with `start..=end`. */
  predicate Overlaps(c: CodingSet, start: nat, end: nat) { c.fecSetIndex <= end && start < c.End() }

  lemma {:induction false} RetainMeans(coding: seq<CodingSet>, cells: seq<DataShred>, start: nat, end: nat)
    ensures forall c :: c in Retain(coding, cells, start, end) <==>
      c in coding && !(Overlaps(c, start, end) && NoneMissing(cells, c.fecSetIndex, c.End()))
  {
    if coding != [] {
      hide NoneMissing;
      RetainMeans(coding[..|coding| - 1], cells, start, end);
      assert coding == coding[..|coding| - 1] + [coding[|coding| - 1]];
    }
  }

  /** No coding set that overlaps one of the data sets is full. */
  ghost predicate NoneFullIn(s: Slot, taken: seq<Taken>) {
    forall c, t | c in s.coding && t in taken && Overlaps(c, t.start, t.end) :: !NoneMissing(s.cells, c.fecSetIndex, c.End())
  }

  lemma OneDropsFull(s: Slot, start: nat, end: nat)
    requires start <= end
    ensures var one := TakeIfHeld(s, start, end);
      && OnlyFullDropped(s, one.state) && (s.finished ==> one.state.finished)
      && (!one.state.finished ==> NoneFullIn(one.state, one.taken))
  {
    TakeDropsOnlyFull(s, start, end);
    if AllHeld(s.cells, start, end + 1) {
      assert HeldAt(s.cells, end);
      RetainMeans(s.coding, MarkEmitted(s.cells, start, end + 1), start, end);
      hide Retain, NoneMissing, OnlyFullDropped;
    }
  }

  /** A hand-out drops every coding set that overlaps what it hands out and that misses nothing, and no other set. */
  lemma {:induction false} HandOutDropsFull(s: Slot, start: nat, from: nat, last: nat)
    requires start <= from <= last + 1
    ensures var e := TakeFrom(s, start, from, last);
      && OnlyFullDropped(s, e.state)
      && (!e.state.finished ==> NoneFullIn(e.state, e.taken))
    decreases last + 1 - from
  {
    hide TakeIfHeld, OnlyFullDropped, NoneFullIn;
    EmissionDropsOnlyFull(s, start, from, last);
    match NextEnd(s.ends, from)
    case None => NothingTaken(s);
    case Some(end) =>
      OneDropsFull(s, start, end);
      var one := TakeIfHeld(s, start, end);
      if end <= last {
        HandOutDropsFull(one.state, end + 1, end + 1, last);
        EmissionDropsOnlyFull(one.state, end + 1, end + 1, last);
        var rest := TakeFrom(one.state, end + 1, end + 1, last);
        BothDropFull(one.state, one.taken, rest.state, rest.taken);
      }
  }

  lemma NothingTaken(s: Slot)
    ensures NoneFullIn(s, [])
  {}

  lemma BothDropFull(s: Slot, a: seq<Taken>, t: Slot, b: seq<Taken>)
    requires OnlyFullDropped(s, t) && (s.finished ==> t.finished)
    requires !s.finished ==> NoneFullIn(s, a)
    requires !t.finished ==> NoneFullIn(t, b)
    ensures !t.finished ==> NoneFullIn(t, a + b)
  {
    if !t.finished {
      forall c, x | c in t.coding && x in a + b && Overlaps(c, x.start, x.end) ensures !NoneMissing(t.cells, c.fecSetIndex, c.End()) {
        if x in a {
          assert c in s.coding;
          var i: nat :| c.fecSetIndex <= i < c.End() && MissingAt(s.cells, i);
          assert MissingAt(t.cells, i);
        }
      }
    }
  }
}
