/**
 What every operation on a slot keeps, for arbitrary shreds and an arbitrary decoder, and
 what one run of the emission loop hands out.
 */
module SlotLaws {
  import opened Options
  import opened Bitset
  import opened Shreds
  import opened SlotSpec

  ghost function EmittedSet(cells: seq<DataShred>): (r: set<nat>)
    ensures forall i: nat :: i in r <==> EmittedAt(cells, i)
  {
    set i: nat | i < |cells| && EmittedAt(cells, i)
  }

  ghost function Range(lo: nat, hi: nat): (r: set<nat>)
    ensures forall i: nat :: i in r <==> lo <= i < hi
    ensures lo <= hi ==> |r| == hi - lo
    decreases hi
  {
    if lo < hi then Range(lo, hi - 1) + {hi - 1} else {}
  }

  /** Every held cell carries the data shred of its own index, and known ends are the held or emitted end flags. */
  ghost predicate CellsSound(s: Slot) {
    && (forall e | e in s.ends :: !MissingAt(s.cells, e))
    && (forall i: nat | HeldAt(s.cells, i) ::
          && s.cells[i].shred.index == i
          && s.cells[i].shred.isData
          && (i in s.ends <==> s.cells[i].shred.dataComplete))
  }

  /** Emitted cells form whole segments between known ends. */
  ghost predicate EmissionsClosed(s: Slot) {
    forall i: nat | EmittedAt(s.cells, i) ::
      && (i in s.ends || EmittedAt(s.cells, i + 1))
      && (i == 0 || i - 1 in s.ends || EmittedAt(s.cells, i - 1))
  }

  ghost predicate CodingSound(coding: seq<CodingSet>) {
    && (forall p, q | 0 <= p < q < |coding| :: coding[p].fecSetIndex != coding[q].fecSetIndex)
    && (forall p | 0 <= p < |coding| :: DistinctIndices(coding[p].codingShreds))
  }

  ghost predicate DistinctIndices(shreds: seq<Shred>) {
    forall i, j | 0 <= i < j < |shreds| :: shreds[i].index != shreds[j].index
  }

  ghost predicate Sound(s: Slot) {
    if s.finished then
      && s.cells == [] && s.ends == {} && s.coding == []
      && s.last.Some? && s.emitted == s.last.value + 1
    else
      && CellsSound(s)
      && EmissionsClosed(s)
      && s.emitted == |EmittedSet(s.cells)|
      && CodingSound(s.coding)
  }

  lemma NewSlotSound(slot: nat)
    ensures Sound(NewSlot(slot))
  {
    assert EmittedSet([]) == {};
  }

  // ----- intake -----

  lemma InsertDataSound(s: Slot, shred: Shred)
    requires Sound(s) && !s.finished && shred.isData
    ensures Sound(InsertData(s, shred)) && !InsertData(s, shred).finished
    ensures forall i: nat :: EmittedAt(InsertData(s, shred).cells, i) <==> EmittedAt(s.cells, i)
  {
    var t := InsertData(s, shred);
    assert EmittedSet(t.cells) == EmittedSet(s.cells);
  }

  lemma InsertCodingSound(s: Slot, shred: Shred)
    requires Sound(s) && !s.finished
    ensures Sound(InsertCoding(s, shred)) && !InsertCoding(s, shred).finished
    ensures InsertCoding(s, shred) == s.(coding := InsertCoding(s, shred).coding)
  {}

  lemma InsertRebuiltSound(s: Slot, shreds: seq<Option<Shred>>, n: nat)
    requires Sound(s) && !s.finished && n <= |shreds|
    ensures Sound(InsertRebuilt(s, shreds, n)) && !InsertRebuilt(s, shreds, n).finished
    ensures forall i: nat :: EmittedAt(InsertRebuilt(s, shreds, n).cells, i) <==> EmittedAt(s.cells, i)
  {
    if n > 0 {
      InsertRebuiltSound(s, shreds, n - 1);
      if shreds[n - 1].Some? && shreds[n - 1].value.isData {
        InsertDataSound(InsertRebuilt(s, shreds, n - 1), shreds[n - 1].value);
      }
    }
  }

  lemma SwapRemoveMembers<T>(xs: seq<T>, p: nat)
    requires p < |xs|
    ensures |SwapRemove(xs, p)| == |xs| - 1
    ensures forall q | 0 <= q < |xs| - 1 :: SwapRemove(xs, p)[q] == if q == p then xs[|xs| - 1] else xs[q]
  {}

  lemma DropSound(s: Slot, p: nat)
    requires Sound(s) && !s.finished && p < |s.coding|
    ensures Sound(s.(coding := SwapRemove(s.coding, p)))
  {
    SwapRemoveMembers(s.coding, p);
  }

  lemma AttemptedSound(s: Slot, fec: nat)
    requires Sound(s) && !s.finished && Position(s.coding, fec) < |s.coding|
    ensures Sound(Attempted(s, fec))
  {}

  lemma RecoverSound(s: Slot, fec: nat, recover: seq<Shred> -> Rebuilt)
    requires Sound(s) && !s.finished
    ensures Sound(Recover(s, fec, recover).0) && !Recover(s, fec, recover).0.finished
    ensures forall i: nat :: EmittedAt(Recover(s, fec, recover).0.cells, i) <==> EmittedAt(s.cells, i)
  {
    hide Position, SwapRemove, CountHeld, Sound, EmittedAt, NoneMissing;
    var p := Position(s.coding, fec);
    if p < |s.coding| {
      DropSound(s, p);
      RefilledKeepsCoding(s, fec, recover);
      AttemptedSound(s, fec);
      var rebuilt := recover(RecoveryInput(s, fec));
      if rebuilt.Rebuilt? {
        InsertRebuiltSound(Attempted(s, fec), rebuilt.shreds, |rebuilt.shreds|);
      }
      DropSound(Refilled(s, fec, recover), p);
    }
  }

  lemma TakeInSound(s: Slot, shred: Shred, recover: seq<Shred> -> Rebuilt)
    requires Sound(s) && !s.finished
    ensures Sound(TakeIn(s, shred, recover).state) && !TakeIn(s, shred, recover).state.finished
    ensures forall i: nat :: EmittedAt(TakeIn(s, shred, recover).state.cells, i) <==> EmittedAt(s.cells, i)
  {
    hide Recover, InsertData, InsertCoding, Sound;
    if shred.isData {
      InsertDataSound(s, shred);
      RecoverSound(InsertData(s, shred), shred.fecSetIndex, recover);
    } else {
      InsertCodingSound(s, shred);
      RecoverSound(InsertCoding(s, shred), shred.fecSetIndex, recover);
    }
  }

  // ----- emission -----

  /** `start..=end` is a whole stretch between two neighbouring known ends. */
  ghost predicate IsSegment(ends: set<nat>, start: nat, end: nat) {
    end in ends && start == SegmentStart(ends, end)
  }

  lemma {:induction false} HeldShredsAll(cells: seq<DataShred>, lo: nat, hi: nat)
    requires lo <= hi && AllHeld(cells, lo, hi)
    ensures |HeldShreds(cells, lo, hi)| == hi - lo
    ensures forall i | lo <= i < hi :: HeldAt(cells, i) && HeldShreds(cells, lo, hi)[i - lo] == cells[i].shred
    decreases hi
  {
    if lo < hi {
      HeldShredsAll(cells, lo, hi - 1);
    }
  }

  lemma RetainSound(coding: seq<CodingSet>, cells: seq<DataShred>, start: nat, end: nat)
    requires CodingSound(coding)
    ensures CodingSound(Retain(coding, cells, start, end))
  {
    if coding != [] {
      var front := coding[..|coding| - 1];
      RetainSound(front, cells, start, end);
      var rest := Retain(front, cells, start, end);
      forall p | 0 <= p < |rest| ensures rest[p].fecSetIndex != coding[|coding| - 1].fecSetIndex {
        assert rest[p] in front;
      }
    }
  }

  lemma TakeCells(s: Slot, start: nat, end: nat)
    requires Sound(s) && !s.finished
    requires IsSegment(s.ends, start, end) && AllHeld(s.cells, start, end + 1)
    ensures var cells := MarkEmitted(s.cells, start, end + 1);
      CellsSound(s.(cells := cells)) && EmissionsClosed(s.(cells := cells))
  {
    var t := s.(cells := MarkEmitted(s.cells, start, end + 1));
    forall i: nat | EmittedAt(t.cells, i)
      ensures i in t.ends || EmittedAt(t.cells, i + 1)
      ensures i == 0 || i - 1 in t.ends || EmittedAt(t.cells, i - 1)
    {
      if start <= i <= end {
        assert i < end ==> HeldAt(s.cells, i + 1);
        assert i < end ==> EmittedAt(t.cells, i + 1);
      } else {
        assert EmittedAt(s.cells, i);
        assert EmittedAt(s.cells, i + 1) ==> EmittedAt(t.cells, i + 1);
      }
    }
  }

  lemma TakeCount(s: Slot, start: nat, end: nat)
    requires start <= end && AllHeld(s.cells, start, end + 1)
    ensures |EmittedSet(MarkEmitted(s.cells, start, end + 1))| == |EmittedSet(s.cells)| + (end - start + 1)
  {
    var cells := MarkEmitted(s.cells, start, end + 1);
    var mine := Range(start, end + 1);
    assert forall i | i in mine :: HeldAt(s.cells, i);
    assert EmittedSet(cells) == EmittedSet(s.cells) + mine;
  }

  /** What handing out one held segment does. */
  lemma TakeSound(s: Slot, start: nat, end: nat)
    requires Sound(s) && !s.finished
    requires IsSegment(s.ends, start, end) && AllHeld(s.cells, start, end + 1)
    requires end < |s.cells|
    ensures Sound(Take(s, start, end))
  {
    hide CellsSound, EmissionsClosed, MarkEmitted, CodingSound, SegmentStart, AllHeld;
    var cells := MarkEmitted(s.cells, start, end + 1);
    TakeCells(s, start, end);
    TakeCount(s, start, end);
    RetainSound(s.coding, cells, start, end);
    CellsSoundDepends(s.(cells := cells), s.(cells := cells, emitted := s.emitted + (end - start + 1), coding := Retain(s.coding, cells, start, end)));
  }

  lemma CellsSoundDepends(s: Slot, t: Slot)
    requires s.cells == t.cells && s.ends == t.ends
    ensures CellsSound(s) <==> CellsSound(t)
    ensures EmissionsClosed(s) <==> EmissionsClosed(t)
  {}

  ghost predicate Covers(taken: seq<Taken>, i: nat) {
    exists k :: 0 <= k < |taken| && taken[k].start <= i <= taken[k].end
  }

  /** A data set handed out of `s`: a known segment, all of it held, its shreds in order. */
  ghost predicate TakenFrom(s: Slot, t: Taken) {
    && t.slot == s.slot
    && t.start <= t.end
    && IsSegment(s.ends, t.start, t.end)
    && |t.shreds| == t.end - t.start + 1
    && forall i | t.start <= i <= t.end :: HeldAt(s.cells, i) && t.shreds[i - t.start] == s.cells[i].shred
  }

  ghost predicate Ascending(taken: seq<Taken>) {
    forall i, j | 0 <= i < j < |taken| :: taken[i].end < taken[j].start
  }

  // The four things the emission loop, entered at `start` and looking for ends from `from`
  // on, is accountable for.

  /** It stays sound and counts what it hands out. */
  ghost predicate StaysSound(s: Slot, e: Emission) {
    && Sound(e.state)
    && e.state.slot == s.slot
    && e.state.last == s.last
    && e.state.emitted == s.emitted + Total(e.taken)
  }

  /** It hands out known, wholly held segments in ascending order. */
  ghost predicate HandsOut(s: Slot, start: nat, taken: seq<Taken>) {
    && (forall k | 0 <= k < |taken| :: TakenFrom(s, taken[k]) && taken[k].start >= start)
    && Ascending(taken)
  }

  /** It marks exactly what it hands out. */
  ghost predicate Marks(s: Slot, e: Emission) {
    !e.state.finished ==>
      && e.state.ends == s.ends
      && |e.state.cells| == |s.cells|
      && forall i: nat | i < |s.cells| ::
           e.state.cells[i] == if Covers(e.taken, i) then Emitted else s.cells[i]
  }

  /** It misses no wholly held segment that ends at `from` or later and starts no later than `last + 1`. */
  ghost predicate Exhausts(s: Slot, from: nat, last: nat, e: Emission) {
    !e.state.finished ==>
      forall end: nat | end in s.ends && from <= end && SegmentStart(s.ends, end) <= last + 1
        && AllHeld(s.cells, SegmentStart(s.ends, end), end + 1) :: Covers(e.taken, end)
  }

  /** How many shreds a list of data sets holds. */
  ghost function Total(taken: seq<Taken>): int {
    if taken == [] then 0 else Total(taken[..|taken| - 1]) + (taken[|taken| - 1].end - taken[|taken| - 1].start + 1)
  }

  lemma {:induction false} TotalConcat(a: seq<Taken>, b: seq<Taken>)
    ensures Total(a + b) == Total(a) + Total(b)
  {
    if b == [] {
      assert a + b == a;
    } else {
      TotalConcat(a, b[..|b| - 1]);
      assert (a + b)[..|a + b| - 1] == a + b[..|b| - 1];
    }
  }

  /** The next known end from `from` closes the segment `from` falls in. */
  lemma NextSegment(ends: set<nat>, from: nat)
    requires NextEnd(ends, from).Some?
    ensures IsSegment(ends, SegmentStart(ends, from), NextEnd(ends, from).value)
  {
    var end := NextEnd(ends, from).value;
    var a, b := SegmentStart(ends, from), SegmentStart(ends, end);
    assert a > 0 ==> a - 1 in ends && a - 1 < end;
    assert b > 0 ==> b - 1 in ends && b - 1 < from;
  }

  lemma AfterEnd(ends: set<nat>, end: nat)
    requires end in ends
    ensures SegmentStart(ends, end + 1) == end + 1
    ensures forall e | e in ends && e > end :: SegmentStart(ends, e) > end
  {}

  lemma OneTaken(s: Slot, start: nat, end: nat)
    requires IsSegment(s.ends, start, end)
    ensures HandsOut(s, start, TakeIfHeld(s, start, end).taken)
    ensures forall t | t in TakeIfHeld(s, start, end).taken :: t.end == end
    ensures forall i: nat :: Covers(TakeIfHeld(s, start, end).taken, i) <==>
                             AllHeld(s.cells, start, end + 1) && start <= i <= end
  {
    hide Take;
    if AllHeld(s.cells, start, end + 1) {
      HeldShredsAll(s.cells, start, end + 1);
      assert TakeIfHeld(s, start, end).taken[0] == TakenSet(s, start, end);
    }
  }

  lemma OneState(s: Slot, start: nat, end: nat)
    requires Sound(s) && !s.finished && IsSegment(s.ends, start, end)
    ensures StaysSound(s, TakeIfHeld(s, start, end))
    ensures Marks(s, TakeIfHeld(s, start, end))
  {
    hide Sound;
    OneTaken(s, start, end);
    var one := TakeIfHeld(s, start, end);
    if AllHeld(s.cells, start, end + 1) {
      assert HeldAt(s.cells, end);
      TakeSound(s, start, end);
      assert one.taken[..0] == [];
      assert Total(one.taken) == end - start + 1;
    }
  }

  lemma CoversConcat(a: seq<Taken>, b: seq<Taken>)
    ensures forall i: nat :: Covers(a + b, i) <==> Covers(a, i) || Covers(b, i)
  {
    forall i: nat ensures Covers(a + b, i) <==> Covers(a, i) || Covers(b, i) {
      if k :| 0 <= k < |a| && a[k].start <= i <= a[k].end {
        assert (a + b)[k] == a[k];
      }
      if k :| 0 <= k < |b| && b[k].start <= i <= b[k].end {
        assert (a + b)[|a| + k] == b[k];
      }
    }
  }

  lemma FinishedEmitsNothing(s: Slot, start: nat, from: nat, last: nat)
    requires Sound(s) && s.finished && start <= from <= last + 1
    ensures TakeFrom(s, start, from, last) == Emission(s, [])
  {}

  /** A set handed out after `one` was taken could be handed out of the state before it. */
  lemma LaterTaken(s: Slot, one: Emission, end: nat, t: Taken)
    requires Marks(s, one) && !one.state.finished && one.state.slot == s.slot
    requires forall i: nat | i > end :: !Covers(one.taken, i)
    requires TakenFrom(one.state, t) && t.start > end
    ensures TakenFrom(s, t)
  {
    hide IsSegment, Covers;
    forall i | t.start <= i <= t.end ensures HeldAt(s.cells, i) && t.shreds[i - t.start] == s.cells[i].shred {
      assert HeldAt(one.state.cells, i);
    }
  }

  lemma JoinHandsOut(s: Slot, start: nat, end: nat, one: Emission, rest: seq<Taken>)
    requires start <= end && IsSegment(s.ends, start, end)
    requires one == TakeIfHeld(s, start, end) && StaysSound(s, one) && Marks(s, one)
    requires one.state.finished ==> rest == []
    requires HandsOut(one.state, end + 1, rest)
    ensures HandsOut(s, start, one.taken + rest)
  {
    hide TakeIfHeld, IsSegment, TakenFrom, Sound, Marks;
    OneTaken(s, start, end);
    assert forall k | 0 <= k < |one.taken| :: one.taken[k] in one.taken;
    if one.state.finished {
      assert one.taken + rest == one.taken;
    } else {
      forall k | 0 <= k < |rest| ensures TakenFrom(s, rest[k]) {
        LaterTaken(s, one, end, rest[k]);
      }
      HandsOutConcat(s, start, one.taken, rest, end);
    }
  }

  lemma HandsOutConcat(s: Slot, start: nat, a: seq<Taken>, b: seq<Taken>, end: nat)
    requires start <= end && HandsOut(s, start, a) && Ascending(b)
    requires forall k | 0 <= k < |a| :: a[k].end <= end
    requires forall k | 0 <= k < |b| :: TakenFrom(s, b[k]) && b[k].start > end
    ensures HandsOut(s, start, a + b)
  {
    hide TakenFrom;
  }

  lemma JoinMarks(s: Slot, start: nat, end: nat, one: Emission, rest: Emission)
    requires start <= end
    requires one == TakeIfHeld(s, start, end) && StaysSound(s, one) && Marks(s, one)
    requires StaysSound(one.state, rest) && Marks(one.state, rest)
    requires one.state.finished ==> rest.state.finished
    ensures StaysSound(s, Emission(rest.state, one.taken + rest.taken))
    ensures Marks(s, Emission(rest.state, one.taken + rest.taken))
  {
    hide Sound, TakeIfHeld, Covers;
    TotalConcat(one.taken, rest.taken);
    CoversConcat(one.taken, rest.taken);
  }

  lemma JoinExhausts(s: Slot, start: nat, from: nat, last: nat, end: nat, one: Emission, rest: Emission)
    requires !s.finished && start <= from <= end <= last
    requires NextEnd(s.ends, from) == Some(end) && IsSegment(s.ends, start, end)
    requires one == TakeIfHeld(s, start, end) && Marks(s, one)
    requires one.state.finished ==> rest.state.finished
    requires Exhausts(one.state, end + 1, last, rest)
    ensures Exhausts(s, from, last, Emission(rest.state, one.taken + rest.taken))
  {
    OneTaken(s, start, end);
    hide TakeIfHeld, Covers;
    CoversConcat(one.taken, rest.taken);
    AfterEnd(s.ends, end);
    if !rest.state.finished {
      forall e: nat | e in s.ends && from <= e && SegmentStart(s.ends, e) <= last + 1
          && AllHeld(s.cells, SegmentStart(s.ends, e), e + 1)
        ensures Covers(one.taken, e) || Covers(rest.taken, e)
      {
        if e != end {
          assert e > end;
          forall i | SegmentStart(s.ends, e) <= i < e + 1 ensures HeldAt(one.state.cells, i) {
            assert HeldAt(s.cells, i);
          }
        }
      }
    }
  }

  ghost predicate Accounts(s: Slot, start: nat, from: nat, last: nat, e: Emission) {
    StaysSound(s, e) && HandsOut(s, start, e.taken) && Marks(s, e) && Exhausts(s, from, last, e)
  }

  lemma NoEmission(s: Slot, start: nat, from: nat, last: nat)
    requires Sound(s) && (s.finished || NextEnd(s.ends, from) == None)
    ensures Accounts(s, start, from, last, Emission(s, []))
  {
    hide Sound;
  }

  lemma OneEmission(s: Slot, start: nat, from: nat, last: nat, end: nat)
    requires Sound(s) && !s.finished && start <= from
    requires NextEnd(s.ends, from) == Some(end) && IsSegment(s.ends, start, end)
    requires end > last
    ensures Accounts(s, start, from, last, TakeIfHeld(s, start, end))
  {
    OneTaken(s, start, end);
    OneState(s, start, end);
    AfterEnd(s.ends, end);
    hide TakeIfHeld, Sound, Covers, StaysSound, HandsOut, Marks;
  }

  lemma AfterTake(s: Slot, start: nat, end: nat)
    requires Sound(s) && !s.finished && IsSegment(s.ends, start, end)
    ensures var t := TakeIfHeld(s, start, end).state;
      Sound(t) && (t.finished || end + 1 == SegmentStart(t.ends, end + 1))
  {
    OneState(s, start, end);
    AfterEnd(s.ends, end);
    hide Sound, TakeIfHeld, Covers;
  }

  lemma JoinEmissions(s: Slot, start: nat, from: nat, last: nat, end: nat, rest: Emission)
    requires Sound(s) && !s.finished && start <= from <= end <= last
    requires NextEnd(s.ends, from) == Some(end) && IsSegment(s.ends, start, end)
    requires var one := TakeIfHeld(s, start, end);
      && Accounts(one.state, end + 1, end + 1, last, rest)
      && (one.state.finished ==> rest == Emission(one.state, []))
    ensures Accounts(s, start, from, last, Emission(rest.state, TakeIfHeld(s, start, end).taken + rest.taken))
  {
    OneState(s, start, end);
    hide Sound, TakeIfHeld, StaysSound, HandsOut, Exhausts, Marks, IsSegment;
    var one := TakeIfHeld(s, start, end);
    JoinHandsOut(s, start, end, one, rest.taken);
    JoinMarks(s, start, end, one, rest);
    JoinExhausts(s, start, from, last, end, one, rest);
  }

  /** The emission loop does all four. */
  lemma {:induction false} Emissions(s: Slot, start: nat, from: nat, last: nat)
    requires Sound(s) && start <= from <= last + 1
    requires s.finished || start == SegmentStart(s.ends, from)
    ensures Accounts(s, start, from, last, TakeFrom(s, start, from, last))
    ensures s.finished ==> TakeFrom(s, start, from, last) == Emission(s, [])
    decreases last + 1 - from
  {
    hide Accounts, TakeIfHeld, SegmentStart, IsSegment;
    if s.finished {
      FinishedEmitsNothing(s, start, from, last);
      NoEmission(s, start, from, last);
    } else if NextEnd(s.ends, from) == None {
      NoEmission(s, start, from, last);
    } else {
      hide Sound;
      var end := NextEnd(s.ends, from).value;
      NextSegment(s.ends, from);
      if end > last {
        OneEmission(s, start, from, last, end);
      } else {
        AfterTake(s, start, end);
        Emissions(TakeIfHeld(s, start, end).state, end + 1, end + 1, last);
        JoinEmissions(s, start, from, last, end, TakeFrom(TakeIfHeld(s, start, end).state, end + 1, end + 1, last));
      }
    }
  }
}
