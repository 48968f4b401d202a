/**
 Runs of one honest block: a data set is handed out exactly when all its shreds and the
 shred that ends the set before it are in.  For data shreds alone this makes the result
 independent of order and duplicates.
 */
module HonestRuns {
  import opened Options
  import opened Bitset
  import opened Shreds
  import opened SlotSpec
  import opened SlotLaws
  import opened SlotRun
  import opened ExactlyOnce
  import opened Completeness
  import opened RecoveryBounds
  import opened AgreeingRuns
  import opened HonestBlock

  /** The indices of the data shreds a slot has, handed out or not. */
  ghost function GotSet(s: Slot): (r: set<nat>)
    ensures forall i: nat :: i in r <==> !MissingAt(s.cells, i)
  {
    set i: nat | i < |s.cells| && !MissingAt(s.cells, i)
  }

  /** From `got` alone one can tell that `i`'s data set is whole and where it starts. */
  ghost predicate Ready(b: seq<Shred>, got: set<nat>, i: nat)
    requires IsBlock(b) && i < |b|
  {
    && (forall j: nat | SetStart(b, i) <= j <= SetEnd(b, i) :: j in got)
    && (SetStart(b, i) > 0 ==> SetStart(b, i) - 1 in got)
  }

  // ----- emitted cells -----

  lemma {:induction false} EmittedUp(s: Slot, b: seq<Shred>, parity: set<Shred>, i: nat, e: nat)
    requires IsBlock(b) && Sound(s) && Faithful(s, b, parity) && !s.finished
    requires EmittedAt(s.cells, i) && i <= e < |b| && forall j | i <= j < e :: j !in BlockEnds(b)
    ensures forall j | i <= j <= e :: EmittedAt(s.cells, j)
    decreases e - i
  {
    if i < e {
      assert i !in BlockEnds(b) && !b[i].dataComplete;
      assert !MissingAt(s.cells, i);
      EmittedUp(s, b, parity, i + 1, e);
    }
  }

  lemma {:induction false} EmittedDown(s: Slot, b: seq<Shred>, parity: set<Shred>, st: nat, i: nat)
    requires IsBlock(b) && Sound(s) && Faithful(s, b, parity) && !s.finished
    requires EmittedAt(s.cells, i) && st <= i < |b| && forall j | st <= j < i :: j !in BlockEnds(b)
    ensures forall j | st <= j <= i :: EmittedAt(s.cells, j)
    ensures st > 0 && st - 1 in BlockEnds(b) ==> !MissingAt(s.cells, st - 1)
    decreases i - st
  {
    if st < i {
      assert i - 1 !in BlockEnds(b) && !b[i - 1].dataComplete;
      EmittedDown(s, b, parity, st, i - 1);
    }
  }

  lemma SetBounds(b: seq<Shred>, i: nat)
    requires IsBlock(b) && i < |b|
    ensures forall j | SetStart(b, i) <= j < SetEnd(b, i) :: j !in BlockEnds(b)
    ensures SegmentStart(BlockEnds(b), SetEnd(b, i)) == SetStart(b, i)
  {}

  lemma EmittedIsReady(s: Slot, b: seq<Shred>, parity: set<Shred>, i: nat)
    requires IsBlock(b) && Sound(s) && Faithful(s, b, parity) && !s.finished && i < |b|
    requires EmittedAt(s.cells, i)
    ensures Ready(b, GotSet(s), i)
  {
    SetBounds(b, i);
    var st, e := SetStart(b, i), SetEnd(b, i);
    EmittedUp(s, b, parity, i, e);
    EmittedDown(s, b, parity, st, i);
    forall j: nat | st <= j <= e ensures j in GotSet(s) {
      assert EmittedAt(s.cells, j);
    }
  }

  lemma ReadyIsEmitted(s: Slot, b: seq<Shred>, parity: set<Shred>, i: nat)
    requires IsBlock(b) && Sound(s) && Faithful(s, b, parity) && !s.finished && i < |b|
    requires Complete(s) && Ready(b, GotSet(s), i)
    ensures EmittedAt(s.cells, i)
  {
    SetBounds(b, i);
    var st, e := SetStart(b, i), SetEnd(b, i);
    assert e in GotSet(s) && b[e].dataComplete;
    assert e in s.ends;
    KnownSegment(s, b, parity, i);
    assert !AllHeld(s.cells, st, e + 1);
    var j: nat :| st <= j < e + 1 && !HeldAt(s.cells, j);
    assert j in GotSet(s);
    assert EmittedAt(s.cells, j);
    if j <= i {
      EmittedUp(s, b, parity, j, e);
    } else {
      EmittedDown(s, b, parity, st, j);
    }
  }

  lemma KnownSegment(s: Slot, b: seq<Shred>, parity: set<Shred>, i: nat)
    requires IsBlock(b) && Faithful(s, b, parity) && !s.finished && i < |b|
    requires Ready(b, GotSet(s), i)
    ensures SegmentStart(s.ends, SetEnd(b, i)) == SetStart(b, i)
  {
    SetBounds(b, i);
    var st, e := SetStart(b, i), SetEnd(b, i);
    assert st > 0 ==> st - 1 in GotSet(s) && b[st - 1].dataComplete && st - 1 in s.ends;
    forall j | j in s.ends && j < e ensures j < st {
      assert !MissingAt(s.cells, j) && b[j].dataComplete;
      assert j in BlockEnds(b);
    }
    var a := SegmentStart(s.ends, e);
    assert a > 0 ==> a - 1 in s.ends && a - 1 < e;
  }

  // ----- what is handed out -----

  /** `t` is one data set of the block. */
  ghost predicate IsSetOf(b: seq<Shred>, t: Taken)
    requires IsBlock(b)
  {
    && t.start <= t.end < |b|
    && t.end in BlockEnds(b)
    && t.start == SetStart(b, t.end)
    && t.shreds == b[t.start..t.end + 1]
  }

  lemma TakenIsSetOf(s: Slot, t: Taken, b: seq<Shred>, parity: set<Shred>)
    requires IsBlock(b) && Faithful(s, b, parity) && !s.finished && TakenFrom(s, t)
    ensures IsSetOf(b, t)
  {
    assert HeldAt(s.cells, t.end);
    forall j | t.start <= j < t.end ensures j !in BlockEnds(b) {
      assert j !in s.ends;
      assert HeldAt(s.cells, j);
    }
    assert t.start > 0 ==> t.start - 1 in s.ends;
    var a := SegmentStart(BlockEnds(b), t.end);
    assert t.start > 0 ==> t.start - 1 in BlockEnds(b);
    assert a > 0 ==> a - 1 in BlockEnds(b) && a - 1 < t.end;
    forall k | 0 <= k < |t.shreds| ensures t.shreds[k] == b[t.start..t.end + 1][k] {
      assert HeldAt(s.cells, t.start + k) && t.shreds[t.start + k - t.start] == s.cells[t.start + k].shred;
    }
  }

  lemma CoveredBefore(taken: seq<Taken>, n: nat)
    requires Ascending(taken) && n < |taken| && taken[n].start <= taken[n].end
    ensures forall i: nat | Covers(taken[..n], i) :: i < taken[n].start
  {
    forall i: nat | Covers(taken[..n], i) ensures i < taken[n].start {
      var k :| 0 <= k < n && taken[..n][k].start <= i <= taken[..n][k].end;
      assert taken[k].end < taken[n].start;
    }
  }

  lemma {:induction false} CoveredSize(taken: seq<Taken>)
    requires Ascending(taken) && forall k | 0 <= k < |taken| :: taken[k].start <= taken[k].end
    ensures |CoveredSet(taken)| == Total(taken)
  {
    if taken != [] {
      var n := |taken| - 1;
      CoveredSize(taken[..n]);
      CoveredBefore(taken, n);
      hide Covers, Ascending;
      assert CoveredSet(taken[..n]) !! Range(taken[n].start, taken[n].end + 1);
    }
  }

  ghost function CoveredSet(taken: seq<Taken>): (r: set<nat>)
    ensures forall i: nat :: i in r <==> Covers(taken, i)
  {
    if taken == [] then {} else
    var t := taken[|taken| - 1];
    CoversConcat(taken[..|taken| - 1], [t]);
    assert taken == taken[..|taken| - 1] + [t];
    assert forall i: nat :: Covers([t], i) <==> t.start <= i <= t.end by {
      assert [t][0] == t;
    }
    CoveredSet(taken[..|taken| - 1]) + Range(t.start, t.end + 1)
  }

  /** The log of a run covers exactly what the slot has emitted. */
  ghost predicate LogMatches(s: Slot, log: seq<Taken>, b: seq<Shred>)
    requires IsBlock(b)
  {
    && (forall k | 0 <= k < |log| :: IsSetOf(b, log[k]))
    && (!s.finished ==> forall i: nat :: Covers(log, i) <==> EmittedAt(s.cells, i))
    && (s.finished ==> forall i: nat | i < |b| :: Covers(log, i))
  }

  lemma InsertTakesSets(s: Slot, shred: Shred, recover: seq<Shred> -> Rebuilt, b: seq<Shred>, parity: set<Shred>)
    requires IsBlock(b) && Honest(s, b, parity) && Genuine(b, parity, shred)
    requires (forall x | x in parity :: !x.isData) && Truthful(recover, b, parity)
    ensures forall k | 0 <= k < |Insert(s, shred, recover).taken| :: IsSetOf(b, Insert(s, shred, recover).taken[k])
    ensures Insert(s, shred, recover).state.finished && !s.finished ==>
      Insert(s, shred, recover).state.emitted == |b|
  {
    if !s.finished {
      TakeInSound(s, shred, recover);
      TakeInFaithful(s, shred, recover, b, parity);
      var i := TakeIn(s, shred, recover);
      hide TakeIn, Truthful, Faithful;
      if i.searched.Some? {
        var (first, last) := i.searched.value;
        var start := SegmentStart(i.state.ends, first);
        Emissions(i.state, start, first, last);
        hide IsSetOf, TakenFrom;
        var e := TakeCompleted(i.state, first, last);
        forall k | 0 <= k < |e.taken| ensures IsSetOf(b, e.taken[k]) {
          TakenIsSetOf(i.state, e.taken[k], b, parity);
        }
        LastIsBlockEnd(i.state, b, parity);
      }
    }
  }

  lemma LastIsBlockEnd(s: Slot, b: seq<Shred>, parity: set<Shred>)
    requires IsBlock(b) && Faithful(s, b, parity) && !s.finished
    ensures s.last == None || s.last == Some(|b| - 1)
  {}

  lemma AllBelow(s: Slot, taken: seq<Taken>, b: seq<Shred>, parity: set<Shred>)
    requires IsBlock(b) && Faithful(s, b, parity) && !s.finished
    requires forall k | 0 <= k < |taken| :: IsSetOf(b, taken[k])
    ensures forall i | i in EmittedSet(s.cells) + CoveredSet(taken) :: i < |b|
  {}

  lemma FinishCoversAll(s: Slot, log: seq<Taken>, taken: seq<Taken>, b: seq<Shred>, parity: set<Shred>)
    requires IsBlock(b) && Sound(s) && Faithful(s, b, parity) && !s.finished && LogMatches(s, log, b)
    requires Ascending(taken) && (forall k | 0 <= k < |taken| :: IsSetOf(b, taken[k]))
    requires forall i: nat | Covers(taken, i) :: !EmittedAt(s.cells, i)
    requires s.emitted + Total(taken) == |b|
    ensures forall i: nat | i < |b| :: Covers(log + taken, i)
  {
    assert forall k | 0 <= k < |taken| :: taken[k].start <= taken[k].end;
    CoveredSize(taken);
    CoversConcat(log, taken);
    AllBelow(s, taken, b, parity);
    hide Covers, Ascending, Total, IsSetOf, Faithful, IsBlock;
    var all := EmittedSet(s.cells) + CoveredSet(taken);
    assert EmittedSet(s.cells) !! CoveredSet(taken);
    assert |all| == |b|;
    FillsRange(all, |b|);
    forall i: nat | i < |b| ensures Covers(log, i) || Covers(taken, i) {
      assert i in all;
    }
  }

  lemma InsertMatches(s: Slot, log: seq<Taken>, shred: Shred, recover: seq<Shred> -> Rebuilt, b: seq<Shred>, parity: set<Shred>)
    requires IsBlock(b) && Honest(s, b, parity) && Genuine(b, parity, shred) && LogMatches(s, log, b)
    requires (forall x | x in parity :: !x.isData) && Truthful(recover, b, parity)
    ensures var o := Insert(s, shred, recover); LogMatches(o.state, log + o.taken, b)
  {
    hide Insert, Sound, IsSetOf, IsBlock, Truthful, Genuine, Faithful, Covers, Total, Ascending, WholeDataSet, LogMatches;
    InsertEmits(s, shred, recover);
    InsertTakesSets(s, shred, recover, b, parity);
    var o := Insert(s, shred, recover);
    if s.finished {
      assert log + [] == log;
    } else if o.state.finished {
      assert forall i: nat | Covers(o.taken, i) :: !EmittedAt(s.cells, i);
      FinishedMatches(s, o.state, log, o.taken, b, parity);
    } else {
      GrownMatches(s, o.state, log, o.taken, b);
    }
  }

  lemma GrownMatches(s: Slot, t: Slot, log: seq<Taken>, taken: seq<Taken>, b: seq<Shred>)
    requires IsBlock(b) && !s.finished && !t.finished && LogMatches(s, log, b)
    requires forall k | 0 <= k < |taken| :: IsSetOf(b, taken[k])
    requires forall i: nat :: EmittedAt(t.cells, i) <==> EmittedAt(s.cells, i) || Covers(taken, i)
    ensures LogMatches(t, log + taken, b)
  {
    hide IsSetOf, IsBlock, Covers, EmittedAt;
    CoversConcat(log, taken);
  }

  lemma FinishedMatches(s: Slot, t: Slot, log: seq<Taken>, taken: seq<Taken>, b: seq<Shred>, parity: set<Shred>)
    requires IsBlock(b) && Sound(s) && Faithful(s, b, parity) && !s.finished && t.finished && LogMatches(s, log, b)
    requires Ascending(taken) && (forall k | 0 <= k < |taken| :: IsSetOf(b, taken[k]))
    requires forall i: nat | Covers(taken, i) :: !EmittedAt(s.cells, i)
    requires s.emitted + Total(taken) == |b|
    ensures LogMatches(t, log + taken, b)
  {
    FinishCoversAll(s, log, taken, b, parity);
    hide IsSetOf, IsBlock, Covers, Faithful, Sound, Total, Ascending;
  }

  lemma {:induction false} RunHonest(slot: nat, shreds: seq<Shred>, n: nat, recover: seq<Shred> -> Rebuilt, b: seq<Shred>, parity: set<Shred>)
    requires n <= |shreds| && IsBlock(b) && forall i | 0 <= i < |shreds| :: Genuine(b, parity, shreds[i])
    requires (forall x | x in parity :: !x.isData) && Truthful(recover, b, parity)
    ensures Honest(RunSlot(slot, shreds, n, recover), b, parity)
    ensures LogMatches(RunSlot(slot, shreds, n, recover), LogSlot(slot, shreds, n, recover), b)
  {
    hide Honest, Genuine, Truthful, LogMatches, Insert;
    if n == 0 {
      NewSlotHonest(slot, b, parity);
    } else {
      RunHonest(slot, shreds, n - 1, recover, b, parity);
      var s := RunSlot(slot, shreds, n - 1, recover);
      InsertHonest(s, shreds[n - 1], recover, b, parity);
      InsertMatches(s, LogSlot(slot, shreds, n - 1, recover), shreds[n - 1], recover, b, parity);
    }
  }

  lemma NewSlotHonest(slot: nat, b: seq<Shred>, parity: set<Shred>)
    requires IsBlock(b)
    ensures Honest(NewSlot(slot), b, parity) && LogMatches(NewSlot(slot), [], b)
  {
    NewSlotSound(slot);
  }

  /** What a slot has, also after it finished and freed its shreds. */
  ghost function Known(s: Slot, b: seq<Shred>): set<nat> {
    if s.finished then Range(0, |b|) else GotSet(s)
  }

  lemma ReadyWithAll(b: seq<Shred>, i: nat)
    requires IsBlock(b) && i < |b|
    ensures Ready(b, Range(0, |b|), i)
  {}

  /** The slot is finished exactly when everything is handed out. */
  lemma FinishedIffAll(s: Slot, log: seq<Taken>, b: seq<Shred>, parity: set<Shred>)
    requires IsBlock(b) && Honest(s, b, parity) && LogMatches(s, log, b)
    ensures s.finished <==> forall i: nat | i < |b| :: Covers(log, i)
  {
    if !s.finished {
      if s.last == None {
        assert !Covers(log, |b| - 1);
      } else {
        AllBelow(s, [], b, parity);
        FullSize(EmittedSet(s.cells), |b|);
        var i :| 0 <= i < |b| && i !in EmittedSet(s.cells);
        assert !Covers(log, i);
      }
    }
  }

  lemma FullSize(a: set<nat>, n: nat)
    requires forall i | i in a :: i < n
    ensures (forall i | 0 <= i < n :: i in a) ==> |a| == n
  {
    if forall i | 0 <= i < n :: i in a {
      assert a == Range(0, n);
    }
  }

  lemma CoveredIffReady(s: Slot, log: seq<Taken>, b: seq<Shred>, parity: set<Shred>, i: nat)
    requires IsBlock(b) && Honest(s, b, parity) && LogMatches(s, log, b) && Complete(s) && i < |b|
    ensures Covers(log, i) <==> Ready(b, Known(s, b), i)
  {
    if s.finished {
      ReadyWithAll(b, i);
    } else if EmittedAt(s.cells, i) {
      EmittedIsReady(s, b, parity, i);
    } else if Ready(b, GotSet(s), i) {
      ReadyIsEmitted(s, b, parity, i);
    }
  }

  /**
   One honest block, data and coding shreds in any order and any number, a truthful decoder:
   what was handed out are data sets of the block; index `i` is among them exactly when its
   whole data set and the end of the one before it got in, received or recovered; and the
   slot is finished exactly when every index of the block is.
   */
  lemma HandedOutIffReady(slot: nat, shreds: seq<Shred>, recover: seq<Shred> -> Rebuilt, b: seq<Shred>, parity: set<Shred>, g: Geometry)
    requires IsBlock(b) && forall i | 0 <= i < |shreds| :: Genuine(b, parity, shreds[i]) && Agrees(g, shreds[i])
    requires (forall x | x in parity :: !x.isData) && Truthful(recover, b, parity)
    requires KeepsToSet(recover) && Tiled(g)
    ensures var s := RunSlot(slot, shreds, |shreds|, recover);
      var log := LogSlot(slot, shreds, |shreds|, recover);
      && (forall k | 0 <= k < |log| :: IsSetOf(b, log[k]))
      && (forall i: nat | i < |b| :: Covers(log, i) <==> Ready(b, Known(s, b), i))
      && (s.finished <==> forall i: nat | i < |b| :: Covers(log, i))
  {
    RunHonest(slot, shreds, |shreds|, recover, b, parity);
    RunSettles(slot, shreds, |shreds|, recover, g);
    var s := RunSlot(slot, shreds, |shreds|, recover);
    var log := LogSlot(slot, shreds, |shreds|, recover);
    hide RunSlot, LogSlot, Genuine, Agrees, Truthful, KeepsToSet, Tiled, Honest, IsSetOf, Ready;
    FinishedIffAll(s, log, b, parity);
    forall i: nat | i < |b| ensures Covers(log, i) <==> Ready(b, Known(s, b), i) {
      CoveredIffReady(s, log, b, parity, i);
    }
  }
}
