/**
 The value of one slot's reassembly state and what each operation does to it.
 `SlotState` is proved to compute exactly this; the theorems are about this.
 */
module SlotSpec {
  import opened Options
  import opened Bitset
  import opened Shreds

  const MAX_RECOVERY_ATTEMPTS: nat := 3

  datatype DataShred = Missing | Held(shred: Shred) | Emitted

  datatype CodingSet = CodingSet(
    fecSetIndex: nat,
    numDataShreds: Pos,
    codingShreds: seq<Shred>,
    recoveryAttempts: nat)
  {
    /** One past the last data index of the set. */
    function End(): nat { fecSetIndex + numDataShreds }

    predicate Covers(i: nat) { fecSetIndex <= i < End() }
  }

  datatype Slot = Slot(
    slot: nat,
    cells: seq<DataShred>,
    ends: set<nat>,
    coding: seq<CodingSet>,
    last: Option<nat>,
    emitted: nat,
    finished: bool)

  function NewSlot(slot: nat): Slot {
    Slot(slot, [], {}, [], None, 0, false)
  }

  predicate MissingAt(cells: seq<DataShred>, i: nat) { i < |cells| ==> cells[i].Missing? }

  predicate HeldAt(cells: seq<DataShred>, i: nat) { i < |cells| && cells[i].Held? }

  predicate EmittedAt(cells: seq<DataShred>, i: nat) { i < |cells| && cells[i].Emitted? }

  predicate AllHeld(cells: seq<DataShred>, lo: nat, hi: nat) {
    forall i | lo <= i < hi :: HeldAt(cells, i)
  }

  predicate NoneMissing(cells: seq<DataShred>, lo: nat, hi: nat) {
    forall i | lo <= i < hi :: !MissingAt(cells, i)
  }

  function CountMissing(cells: seq<DataShred>, lo: nat, hi: nat): (n: nat)
    ensures n == 0 <==> NoneMissing(cells, lo, hi)
    decreases hi
  {
    if lo >= hi then 0 else CountMissing(cells, lo, hi - 1) + if MissingAt(cells, hi - 1) then 1 else 0
  }

  function CountHeld(cells: seq<DataShred>, lo: nat, hi: nat): nat
    decreases hi
  {
    if lo >= hi then 0 else CountHeld(cells, lo, hi - 1) + if HeldAt(cells, hi - 1) then 1 else 0
  }

  // ----- data shreds -----

  predicate Accepts(s: Slot, shred: Shred) { MissingAt(s.cells, shred.index) }

  /** Vec::resize_with up to and including index `i`. */
  function Grow(cells: seq<DataShred>, i: nat): (r: seq<DataShred>)
    ensures i < |r|
    ensures |r| == if i < |cells| then |cells| else i + 1
    ensures forall j: nat | j < |r| :: r[j] == if j < |cells| then cells[j] else Missing
  {
    if i < |cells| then cells else cells + seq(i + 1 - |cells|, _ => Missing)
  }

  function InsertData(s: Slot, shred: Shred): Slot {
    if !Accepts(s, shred) then s else
    s.(cells := Grow(s.cells, shred.index)[shred.index := Held(shred)],
       ends := if shred.dataComplete then s.ends + {shred.index} else s.ends,
       last := if shred.lastInSlot then Some(shred.index) else s.last)
  }

  // ----- coding shreds -----

  /** Position of the coding set of `fec`, or the number of sets when there is none. */
  function Position(coding: seq<CodingSet>, fec: nat): (p: nat)
    ensures p <= |coding|
    ensures p < |coding| ==> coding[p].fecSetIndex == fec
    ensures forall q | 0 <= q < p :: coding[q].fecSetIndex != fec
  {
    if coding == [] then 0
    else if coding[0].fecSetIndex == fec then 0
    else 1 + Position(coding[1..], fec)
  }

  predicate HasIndex(shreds: seq<Shred>, index: nat) {
    exists i :: 0 <= i < |shreds| && shreds[i].index == index
  }

  function WithCoding(set_: CodingSet, shred: Shred): (r: CodingSet)
    ensures r == set_.(codingShreds := r.codingShreds)
  {
    if HasIndex(set_.codingShreds, shred.index) then set_
    else set_.(codingShreds := set_.codingShreds + [shred])
  }

  function InsertCoding(s: Slot, shred: Shred): Slot {
    var fec := shred.fecSetIndex;
    match NumDataShreds(shred.payload)
    case None => s
    case Some(k) =>
      if NoneMissing(s.cells, fec, fec + k) then s else
      var p := Position(s.coding, fec);
      if p < |s.coding| then s.(coding := s.coding[p := WithCoding(s.coding[p], shred)])
      else s.(coding := s.coding + [WithCoding(CodingSet(fec, k, [], 0), shred)])
  }

  // ----- recovery -----

  datatype Recovery = Recovery(start: nat, end: nat, recovered: nat, failed: bool)

  /** Vec::swap_remove: the last element takes the removed one's place. */
  function SwapRemove<T>(xs: seq<T>, p: nat): seq<T>
    requires p < |xs|
  {
    if p == |xs| - 1 then xs[..p] else xs[..|xs| - 1][p := xs[|xs| - 1]]
  }

  function HeldShreds(cells: seq<DataShred>, lo: nat, hi: nat): seq<Shred>
    decreases hi
  {
    if lo >= hi then []
    else HeldShreds(cells, lo, hi - 1) + if HeldAt(cells, hi - 1) then [cells[hi - 1].shred] else []
  }

  /** The slot after inserting the first `n` recovered shreds. */
  function InsertRebuilt(s: Slot, shreds: seq<Option<Shred>>, n: nat): Slot
    requires n <= |shreds|
  {
    if n == 0 then s else
    var t := InsertRebuilt(s, shreds, n - 1);
    if shreds[n - 1].Some? && shreds[n - 1].value.isData then InsertData(t, shreds[n - 1].value) else t
  }

  /** How many of the first `n` recovered shreds filled a missing cell. */
  function CountRebuilt(s: Slot, shreds: seq<Option<Shred>>, n: nat): nat
    requires n <= |shreds|
  {
    if n == 0 then 0 else
    CountRebuilt(s, shreds, n - 1) +
    if shreds[n - 1].Some? && shreds[n - 1].value.isData
       && Accepts(InsertRebuilt(s, shreds, n - 1), shreds[n - 1].value) then 1 else 0
  }

  predicate Recoverable(s: Slot, fec: nat) {
    var p := Position(s.coding, fec);
    && p < |s.coding|
    && var c := s.coding[p];
    && !NoneMissing(s.cells, fec, c.End())
    && CountHeld(s.cells, fec, c.End()) + |c.codingShreds| >= c.numDataShreds
    && c.recoveryAttempts < MAX_RECOVERY_ATTEMPTS
  }

  function RecoveryInput(s: Slot, fec: nat): seq<Shred>
    requires Position(s.coding, fec) < |s.coding|
  {
    var c := s.coding[Position(s.coding, fec)];
    HeldShreds(s.cells, fec, c.End()) + c.codingShreds
  }

  function Attempted(s: Slot, fec: nat): Slot
    requires Position(s.coding, fec) < |s.coding|
  {
    var p := Position(s.coding, fec);
    s.(coding := s.coding[p := s.coding[p].(recoveryAttempts := s.coding[p].recoveryAttempts + 1)])
  }

  /** The slot after the shreds of a recovery are in, before a filled set is dropped. */
  function Refilled(s: Slot, fec: nat, recover: seq<Shred> -> Rebuilt): Slot
    requires Position(s.coding, fec) < |s.coding|
  {
    match recover(RecoveryInput(s, fec))
    case Unrecoverable => Attempted(s, fec)
    case Rebuilt(shreds) => InsertRebuilt(Attempted(s, fec), shreds, |shreds|)
  }

  function DropIfFull(s: Slot, p: nat): Slot
    requires p < |s.coding|
  {
    if NoneMissing(s.cells, s.coding[p].fecSetIndex, s.coding[p].End())
    then s.(coding := SwapRemove(s.coding, p)) else s
  }

  function Recover(s: Slot, fec: nat, recover: seq<Shred> -> Rebuilt): (Slot, Option<Recovery>) {
    var p := Position(s.coding, fec);
    if p == |s.coding| then (s, None)
    else if NoneMissing(s.cells, fec, s.coding[p].End()) then (s.(coding := SwapRemove(s.coding, p)), None)
    else if !Recoverable(s, fec) then (s, None)
    else
      var rebuilt := recover(RecoveryInput(s, fec));
      var t := Refilled(s, fec, recover);
      RefilledKeepsCoding(s, fec, recover);
      (DropIfFull(t, p),
       Some(Recovery(fec, s.coding[p].End() - 1,
                     if rebuilt.Unrecoverable? then 0 else CountRebuilt(Attempted(s, fec), rebuilt.shreds, |rebuilt.shreds|),
                     rebuilt.Unrecoverable? || exists i :: 0 <= i < |rebuilt.shreds| && rebuilt.shreds[i] == None)))
  }

  lemma InsertRebuiltKeepsCoding(s: Slot, shreds: seq<Option<Shred>>, n: nat)
    requires n <= |shreds|
    ensures InsertRebuilt(s, shreds, n).coding == s.coding
  {
    if n > 0 {
      InsertRebuiltKeepsCoding(s, shreds, n - 1);
    }
  }

  lemma RefilledKeepsCoding(s: Slot, fec: nat, recover: seq<Shred> -> Rebuilt)
    requires Position(s.coding, fec) < |s.coding|
    ensures Refilled(s, fec, recover).coding == Attempted(s, fec).coding
  {
    match recover(RecoveryInput(s, fec))
    case Unrecoverable =>
    case Rebuilt(shreds) => InsertRebuiltKeepsCoding(Attempted(s, fec), shreds, |shreds|);
  }

  // ----- emission -----

  /** A data set handed out: its index range and its shreds in order. */
  datatype Taken = Taken(slot: nat, start: nat, end: nat, shreds: seq<Shred>)

  ghost function LastEnd(ends: set<nat>, index: nat): (r: Option<nat>)
    ensures IsLastBelow(ends, index, r)
  {
    if index == 0 then None else if index - 1 in ends then Some(index - 1) else LastEnd(ends, index - 1)
  }

  lemma NextEndExists(ends: set<nat>, from: nat)
    ensures exists r: Option<nat> :: IsNextFrom(ends, from, r)
  {
    if e :| e in ends {
      NextEndExists(ends - {e}, from);
      var r: Option<nat> :| IsNextFrom(ends - {e}, from, r);
      assert forall f | f in ends :: f == e || f in ends - {e};
      if e < from || (r.Some? && r.value < e) {
        assert IsNextFrom(ends, from, r);
      } else {
        assert IsNextFrom(ends, from, Some(e));
      }
    } else {
      assert IsNextFrom(ends, from, None);
    }
  }

  ghost function NextEnd(ends: set<nat>, from: nat): (r: Option<nat>)
    ensures IsNextFrom(ends, from, r)
  {
    NextEndExists(ends, from);
    var r: Option<nat> :| IsNextFrom(ends, from, r);
    r
  }

  lemma NextEndUnique(ends: set<nat>, from: nat, r: Option<nat>)
    requires IsNextFrom(ends, from, r)
    ensures r == NextEnd(ends, from)
  {}

  lemma LastEndUnique(ends: set<nat>, index: nat, r: Option<nat>)
    requires IsLastBelow(ends, index, r)
    ensures r == LastEnd(ends, index)
  {}

  /** First index of the segment that index `i` falls in. */
  ghost function SegmentStart(ends: set<nat>, i: nat): (r: nat)
    ensures r <= i
    ensures forall e | e in ends && e < i :: e < r
    ensures r > 0 ==> r - 1 in ends
  {
    match LastEnd(ends, i)
    case None => 0
    case Some(e) => e + 1
  }

  /** Cells `lo..hi` marked as emitted. */
  function MarkEmitted(cells: seq<DataShred>, lo: nat, hi: nat): seq<DataShred> {
    seq(|cells|, i requires 0 <= i < |cells| => if lo <= i < hi then Emitted else cells[i])
  }

  /** The coding sets that survive an emission of `start..=end`. */
  function Retain(coding: seq<CodingSet>, cells: seq<DataShred>, start: nat, end: nat): (r: seq<CodingSet>)
    ensures forall c | c in r :: c in coding
  {
    if coding == [] then [] else
    var rest := Retain(coding[..|coding| - 1], cells, start, end);
    var c := coding[|coding| - 1];
    if c.fecSetIndex <= end && c.End() > start && NoneMissing(cells, c.fecSetIndex, c.End())
    then rest else rest + [c]
  }

  function Finish(s: Slot): Slot {
    s.(finished := true, cells := [], ends := {}, coding := [])
  }

  function Take(s: Slot, start: nat, end: nat): Slot
    requires start <= end < |s.cells|
  {
    var cells := MarkEmitted(s.cells, start, end + 1);
    var t := s.(cells := cells,
                emitted := s.emitted + (end - start + 1),
                coding := Retain(s.coding, cells, start, end));
    if t.last.Some? && t.emitted == t.last.value + 1 then Finish(t) else t
  }

  function TakenSet(s: Slot, start: nat, end: nat): Taken {
    Taken(s.slot, start, end, HeldShreds(s.cells, start, end + 1))
  }

  datatype Emission = Emission(state: Slot, taken: seq<Taken>)

  /** A segment is handed out when all of it is held. */
  function TakeIfHeld(s: Slot, start: nat, end: nat): Emission
    requires start <= end
  {
    if AllHeld(s.cells, start, end + 1) then
      assert HeldAt(s.cells, end);
      Emission(Take(s, start, end), [TakenSet(s, start, end)])
    else
      Emission(s, [])
  }

  /** The emission loop: segments from `start`, ends from `from`, stopping past `last`. */
  ghost function TakeFrom(s: Slot, start: nat, from: nat, last: nat): Emission
    requires start <= from <= last + 1
    decreases last + 1 - from
  {
    match NextEnd(s.ends, from)
    case None => Emission(s, [])
    case Some(end) =>
      var one := TakeIfHeld(s, start, end);
      if end > last then one else
      var rest := TakeFrom(one.state, end + 1, end + 1, last);
      Emission(rest.state, one.taken + rest.taken)
  }

  ghost function TakeCompleted(s: Slot, first: nat, last: nat): Emission
    requires first <= last
  {
    TakeFrom(s, SegmentStart(s.ends, first), first, last)
  }

  // ----- one shred -----

  /** The state before emission, the recovery if one was attempted, and the range to search. */
  datatype Intake = Intake(state: Slot, recovery: Option<Recovery>, searched: Option<(nat, nat)>)

  function TakeIn(s: Slot, shred: Shred, recover: seq<Shred> -> Rebuilt): (r: Intake)
    ensures r.searched.Some? ==> r.searched.value.0 <= r.searched.value.1
  {
    var t := if shred.isData then InsertData(s, shred) else InsertCoding(s, shred);
    var (u, recovery) := Recover(t, shred.fecSetIndex, recover);
    var own := if shred.isData && Accepts(s, shred) then Some((shred.index, shred.index)) else None;
    Intake(u, recovery,
           if recovery.Some? && recovery.value.recovered > 0 then Some((recovery.value.start, recovery.value.end)) else own)
  }

  datatype Outcome = Outcome(state: Slot, recovery: Option<Recovery>, taken: seq<Taken>)

  ghost function Insert(s: Slot, shred: Shred, recover: seq<Shred> -> Rebuilt): Outcome {
    if s.finished then Outcome(s, None, []) else
    var i := TakeIn(s, shred, recover);
    match i.searched
    case None => Outcome(i.state, i.recovery, [])
    case Some(range) =>
      var e := TakeCompleted(i.state, range.0, range.1);
      Outcome(e.state, i.recovery, e.taken)
  }
}
