/**
 For the data shreds of one honest block, in any order and with duplicates, the incremental
 deshredder hands out at every shred exactly what the full rescan does.
 */
module Refinement {
  import opened Options
  import opened Bitset
  import opened Shreds
  import opened SlotSpec
  import opened SlotLaws
  import opened SlotRun
  import opened ExactlyOnce
  import opened Completeness
  import opened RecoveryBounds
  import opened HonestBlock
  import opened HonestRuns
  import opened FullRescan

  /** A stream of data shreds of the block `b` of `slot`. */
  ghost predicate DataStream(b: seq<Shred>, slot: nat, shreds: seq<Shred>) {
    && IsBlock(b)
    && (forall i | 0 <= i < |b| :: b[i].slot == slot)
    && forall k | 0 <= k < |shreds| :: FromBlock(b, shreds[k])
  }

  predicate FromBlock(b: seq<Shred>, x: Shred) {
    x.isData && x.index < |b| && x == b[x.index]
  }

  ghost predicate DataOnly(s: Slot, b: seq<Shred>) {
    Honest(s, b, {}) && Complete(s) && s.coding == []
  }

  /** Both decoders have the same shreds and have handed out the same segments. */
  ghost predicate InStep(s: Slot, r: Rescan, b: seq<Shred>) {
    if s.finished then
      && (forall i: nat | i < |b| :: i in r.shreds && r.shreds[i] == b[i])
      && r.complete == BlockEnds(b)
      && r.complete <= r.processed
    else
      && (forall i: nat :: i in r.shreds <==> !MissingAt(s.cells, i))
      && (forall i: nat | i in r.shreds :: i < |b| && r.shreds[i] == b[i])
      && r.complete == s.ends
      && (forall e :: e in r.processed <==> e in s.ends && EmittedAt(s.cells, e))
  }

  /** The data set of `b` that the known end `e` closes. */
  ghost function SetAt(b: seq<Shred>, slot: nat, ends: set<nat>, e: nat): Taken
    requires e < |b|
  {
    Taken(slot, SegmentStart(ends, e), e, b[SegmentStart(ends, e)..e + 1])
  }

  // ----- the full rescan -----

  ghost predicate EndsAt(taken: seq<Taken>, e: nat) {
    exists k :: 0 <= k < |taken| && taken[k].end == e
  }

  ghost predicate NewSegment(r: Rescan, slot: nat, t: Taken) {
    && t.slot == slot && t.start <= t.end
    && t.end !in r.processed
    && IsSegment(r.complete, t.start, t.end)
    && AllPresent(r.shreds, t.start, t.end + 1)
    && t.shreds == Present(r.shreds, t.start, t.end + 1)
  }

  /** A rescan changes nothing but which ends are processed: the ones it hands out. */
  ghost predicate Records(r: Rescan, o: RescanOutcome) {
    && o.state.shreds == r.shreds && o.state.complete == r.complete
    && forall e :: e in o.state.processed <==> e in r.processed || EndsAt(o.taken, e)
  }

  /** A rescan from `start` hands out new, wholly present segments in order. */
  ghost predicate VisitsNew(r: Rescan, slot: nat, start: nat, taken: seq<Taken>) {
    && Ascending(taken)
    && forall k | 0 <= k < |taken| :: NewSegment(r, slot, taken[k]) && start <= taken[k].start
  }

  /** A rescan from `start` leaves out none of them. */
  ghost predicate VisitsAll(r: Rescan, start: nat, taken: seq<Taken>) {
    forall e | e in r.complete && e >= start && e !in r.processed
        && AllPresent(r.shreds, SegmentStart(r.complete, e), e + 1) ::
      EndsAt(taken, e)
  }

  ghost predicate Visits(r: Rescan, slot: nat, start: nat, o: RescanOutcome) {
    Records(r, o) && VisitsNew(r, slot, start, o.taken) && VisitsAll(r, start, o.taken)
  }

  lemma EndsAtConcat(x: seq<Taken>, y: seq<Taken>)
    ensures forall e :: EndsAt(x + y, e) <==> EndsAt(x, e) || EndsAt(y, e)
  {
    forall e: nat ensures EndsAt(x + y, e) <==> EndsAt(x, e) || EndsAt(y, e) {
      if k :| 0 <= k < |x| && x[k].end == e {
        assert (x + y)[k].end == e;
      }
      if k :| 0 <= k < |y| && y[k].end == e {
        assert (x + y)[|x| + k].end == e;
      }
    }
  }

  /** One visited end. */
  lemma VisitOne(r: Rescan, slot: nat, start: nat, end: nat)
    requires IsSegment(r.complete, start, end)
    ensures var one := Visit(r, slot, start, end);
      && Records(r, one) && VisitsNew(r, slot, start, one.taken)
      && (forall k | 0 <= k < |one.taken| :: one.taken[k].end == end)
      && (end !in r.processed && AllPresent(r.shreds, start, end + 1) ==> EndsAt(one.taken, end))
  {
    hide Present, SegmentStart, AllPresent;
    var one := Visit(r, slot, start, end);
    if one.taken != [] {
      assert one.taken[0].end == end;
    }
  }

  lemma LaterVisits(r: Rescan, slot: nat, end: nat, one: RescanOutcome, rest: seq<Taken>)
    requires Records(r, one) && VisitsNew(one.state, slot, end + 1, rest)
    ensures forall k | 0 <= k < |rest| :: NewSegment(r, slot, rest[k]) && rest[k].start > end
  {
    hide Present, IsSegment, AllPresent, EndsAt;
    forall k | 0 <= k < |rest| ensures NewSegment(r, slot, rest[k]) && rest[k].start > end {
      assert NewSegment(one.state, slot, rest[k]);
    }
  }

  lemma VisitStep(r: Rescan, slot: nat, start: nat, end: nat, rest: RescanOutcome)
    requires start == SegmentStart(r.complete, start) && NextEnd(r.complete, start) == Some(end)
    requires Visits(Visit(r, slot, start, end).state, slot, end + 1, rest)
    ensures Visits(r, slot, start, RescanOutcome(rest.state, Visit(r, slot, start, end).taken + rest.taken))
  {
    NextSegment(r.complete, start);
    AfterEnd(r.complete, end);
    VisitOne(r, slot, start, end);
    hide Visit, Present, SegmentStart, AllPresent, EndsAt, NewSegment;
    var one := Visit(r, slot, start, end);
    LaterVisits(r, slot, end, one, rest.taken);
    EndsAtConcat(one.taken, rest.taken);
    EndsAtOnly(one.taken, end);
    assert VisitsNew(r, slot, start, one.taken + rest.taken);
  }

  lemma EndsAtOnly(taken: seq<Taken>, end: nat)
    requires forall k | 0 <= k < |taken| :: taken[k].end == end
    ensures forall e | EndsAt(taken, e) :: e == end
  {}

  lemma {:induction false} RescanVisits(r: Rescan, slot: nat, start: nat)
    requires start == SegmentStart(r.complete, start)
    ensures Visits(r, slot, start, VisitFrom(r, slot, start))
    decreases |EndsFrom(r.complete, start)|
  {
    hide Visits, Visit, SegmentStart;
    match NextEnd(r.complete, start)
    case None => NothingToVisit(r, slot, start);
    case Some(end) =>
      FewerEnds(r.complete, start, end);
      AfterEnd(r.complete, end);
      VisitKeepsShreds(r, slot, start, end);
      RescanVisits(Visit(r, slot, start, end).state, slot, end + 1);
      VisitStep(r, slot, start, end, VisitFrom(Visit(r, slot, start, end).state, slot, end + 1));
  }

  lemma VisitKeepsShreds(r: Rescan, slot: nat, start: nat, end: nat)
    requires start <= end
    ensures Visit(r, slot, start, end).state.complete == r.complete
  {}

  lemma NothingToVisit(r: Rescan, slot: nat, start: nat)
    requires NextEnd(r.complete, start) == None
    ensures Visits(r, slot, start, RescanOutcome(r, []))
  {}

  lemma {:induction false} PresentOfBlock(shreds: map<nat, Shred>, b: seq<Shred>, lo: nat, hi: nat)
    requires lo <= hi <= |b| && AllPresent(shreds, lo, hi)
    requires forall i: nat | i in shreds && i < |b| :: shreds[i] == b[i]
    ensures Present(shreds, lo, hi) == b[lo..hi]
    decreases hi
  {
    if lo < hi {
      PresentOfBlock(shreds, b, lo, hi - 1);
    }
  }

  // ----- the two meet -----

  lemma {:induction false} SegmentEmittedTogether(s: Slot, j: nat, e: nat)
    requires EmissionsClosed(s) && EmittedAt(s.cells, j) && j <= e
    requires forall i | j <= i < e :: i !in s.ends
    ensures EmittedAt(s.cells, e)
    decreases e - j
  {
    if j < e {
      assert j !in s.ends;
      SegmentEmittedTogether(s, j + 1, e);
    }
  }

  /** Held whole here is new and wholly present there. */
  lemma HeldIffNew(s: Slot, r: Rescan, b: seq<Shred>, e: nat)
    requires Sound(s) && !s.finished && InStep(s, r, b) && e in s.ends
    ensures AllHeld(s.cells, SegmentStart(s.ends, e), e + 1) <==>
            e !in r.processed && AllPresent(r.shreds, SegmentStart(s.ends, e), e + 1)
  {
    var st := SegmentStart(s.ends, e);
    if AllHeld(s.cells, st, e + 1) {
      assert HeldAt(s.cells, e);
      forall i | st <= i < e + 1 ensures i in r.shreds {
        assert HeldAt(s.cells, i);
      }
    } else if e !in r.processed && AllPresent(r.shreds, st, e + 1) {
      var j: nat :| st <= j < e + 1 && !HeldAt(s.cells, j);
      assert j in r.shreds && EmittedAt(s.cells, j);
      SegmentEmittedTogether(s, j, e);
      assert false;
    }
  }

  /** Exactly the wholly held segments of `t`, as data sets of the block. */
  ghost predicate HandsOutHeld(t: Slot, b: seq<Shred>, taken: seq<Taken>) {
    && Ascending(taken)
    && (forall k | 0 <= k < |taken| :: HeldSetOf(t, b, taken[k]))
    && (forall e | e in t.ends && AllHeld(t.cells, SegmentStart(t.ends, e), e + 1) ::
          EndsAt(taken, e))
  }

  ghost predicate HeldSetOf(t: Slot, b: seq<Shred>, x: Taken) {
    && x.start <= x.end < |b| && x.end in t.ends
    && AllHeld(t.cells, SegmentStart(t.ends, x.end), x.end + 1)
    && x == SetAt(b, t.slot, t.ends, x.end)
  }

  lemma NewIsHeld(t: Slot, r: Rescan, b: seq<Shred>, x: Taken)
    requires Sound(t) && !t.finished && InStep(t, r, b) && NewSegment(r, t.slot, x)
    ensures HeldSetOf(t, b, x)
  {
    hide Sound, AllHeld, SegmentStart, Present;
    HeldIffNew(t, r, b, x.end);
    assert x.end in r.shreds;
    PresentOfBlock(r.shreds, b, x.start, x.end + 1);
  }

  lemma RescanHandsOutHeld(t: Slot, r: Rescan, b: seq<Shred>)
    requires Sound(t) && !t.finished && InStep(t, r, b)
    ensures HandsOutHeld(t, b, VisitFrom(r, t.slot, 0).taken)
  {
    RescanVisits(r, t.slot, 0);
    var taken := VisitFrom(r, t.slot, 0).taken;
    forall k | 0 <= k < |taken| ensures HeldSetOf(t, b, taken[k]) {
      NewIsHeld(t, r, b, taken[k]);
    }
    forall e | e in t.ends && AllHeld(t.cells, SegmentStart(t.ends, e), e + 1) ensures EndsAt(taken, e) {
      HeldIffNew(t, r, b, e);
    }
    hide VisitFrom, SegmentStart, Sound, AllHeld, AllPresent, EndsAt, HeldSetOf, NewSegment, InStep, Records;
  }

  lemma {:induction false} SameHandout(t: Slot, b: seq<Shred>, x: seq<Taken>, y: seq<Taken>)
    requires HandsOutHeld(t, b, x) && HandsOutHeld(t, b, y)
    ensures x == y
  {
    hide AllHeld, SetAt, SegmentStart;
    SameEnds(x, y, seq(|x|, i requires 0 <= i < |x| => x[i].end), seq(|y|, i requires 0 <= i < |y| => y[i].end));
  }

  /** Ascending lists with the same ends have the same ends in the same places. */
  lemma SameEnds(x: seq<Taken>, y: seq<Taken>, a: seq<nat>, c: seq<nat>)
    requires |a| == |x| && |c| == |y|
    requires forall i | 0 <= i < |x| :: a[i] == x[i].end && x[i].start <= x[i].end
    requires forall i | 0 <= i < |y| :: c[i] == y[i].end && y[i].start <= y[i].end
    requires Ascending(x) && Ascending(y)
    requires forall e :: e in a <==> e in c
    ensures a == c
  {
    assert Increasing(a) && Increasing(c);
    IncreasingUnique(a, c);
  }

  ghost predicate Increasing(a: seq<nat>) {
    forall i, j | 0 <= i < j < |a| :: a[i] < a[j]
  }

  lemma {:induction false} IncreasingUnique(a: seq<nat>, c: seq<nat>)
    requires Increasing(a) && Increasing(c) && forall e :: e in a <==> e in c
    ensures a == c
  {
    assert |a| > 0 ==> a[0] in c;
    assert |c| > 0 ==> c[0] in a;
    if a != [] {
      var x, y := a[|a| - 1], c[|c| - 1];
      assert x in c && y in a;
      assert x == y;
      var f, h := a[..|a| - 1], c[..|c| - 1];
      forall e ensures e in f <==> e in h {
        assert e in f <==> e in a && e != x;
        assert e in h <==> e in c && e != y;
      }
      IncreasingUnique(f, h);
      assert a == f + [x] && c == h + [y];
    }
  }

  // ----- the incremental deshredder -----

  lemma DataOnlyIntake(s: Slot, shred: Shred, recover: seq<Shred> -> Rebuilt)
    requires s.coding == [] && shred.isData && !s.finished
    ensures TakeIn(s, shred, recover) ==
      Intake(InsertData(s, shred), None, if Accepts(s, shred) then Some((shred.index, shred.index)) else None)
  {}

  lemma CoveredEnd(t: Slot, taken: seq<Taken>, e: nat)
    requires forall k | 0 <= k < |taken| :: TakenFrom(t, taken[k])
    requires e in t.ends
    ensures Covers(taken, e) <==> EndsAt(taken, e)
  {
    if Covers(taken, e) {
      var k :| 0 <= k < |taken| && taken[k].start <= e <= taken[k].end;
      assert TakenFrom(t, taken[k]);
      assert taken[k].end == e;
    }
    if EndsAt(taken, e) {
      var k :| 0 <= k < |taken| && taken[k].end == e;
      assert TakenFrom(t, taken[k]);
    }
  }

  lemma TakenIsHeldSet(t: Slot, b: seq<Shred>, x: Taken)
    requires IsBlock(b) && Faithful(t, b, {}) && !t.finished && TakenFrom(t, x)
    ensures HeldSetOf(t, b, x)
  {
    TakenIsSetOf(t, x, b, {});
  }

  /** One accepted data shred: what is emitted, and that nothing held is passed over. */
  lemma AcceptedEmission(s: Slot, log: seq<Taken>, shred: Shred, recover: seq<Shred> -> Rebuilt, b: seq<Shred>, e: nat)
    requires IsBlock(b) && DataOnly(s, b) && !s.finished && LogMatches(s, log, b)
    requires FromBlock(b, shred) && Accepts(s, shred) && Truthful(recover, b, {})
    requires var t := InsertData(s, shred); e in t.ends && AllHeld(t.cells, SegmentStart(t.ends, e), e + 1)
    ensures Covers(Insert(s, shred, recover).taken, e)
  {
    var i, t := shred.index, InsertData(s, shred);
    DataOnlyIntake(s, shred, recover);
    InsertDataSound(s, shred);
    InsertDataLocal(s, shred);
    NewlyHeldTouches(s, t, i, i, e);
    assert HeldAt(t.cells, e) && !EmittedAt(s.cells, e);
    InsertDataFaithful(s, shred, b, {});
    assert e < |b|;
    Emissions(t, SegmentStart(t.ends, i), i, i);
    InsertEmits(s, shred, recover);
    InsertTakesSets(s, shred, recover, b, {});
    var o := Insert(s, shred, recover);
    hide Insert, InsertData, TakeFrom, Covers, Sound, SegmentStart, AllHeld, Faithful, IsSetOf, HandsOut, TakeIn, Complete, NotDue;
    if o.state.finished {
      FinishCoversAll(s, log, o.taken, b, {});
      CoversConcat(log, o.taken);
    }
  }

  lemma AcceptedTaken(s: Slot, shred: Shred, recover: seq<Shred> -> Rebuilt, b: seq<Shred>)
    requires IsBlock(b) && DataOnly(s, b) && !s.finished
    requires FromBlock(b, shred) && Accepts(s, shred)
    ensures var t, o := InsertData(s, shred), Insert(s, shred, recover);
      && !t.finished && Sound(t) && Faithful(t, b, {})
      && Ascending(o.taken) && Marks(t, Emission(o.state, o.taken))
      && forall k | 0 <= k < |o.taken| :: TakenFrom(t, o.taken[k])
  {
    var i, t := shred.index, InsertData(s, shred);
    DataOnlyIntake(s, shred, recover);
    InsertDataSound(s, shred);
    InsertDataFaithful(s, shred, b, {});
    hide InsertData, Sound, SegmentStart, TakeFrom, TakeIn, Faithful;
    Emissions(t, SegmentStart(t.ends, i), i, i);
  }

  lemma DeshredderHandsOutHeld(s: Slot, log: seq<Taken>, shred: Shred, recover: seq<Shred> -> Rebuilt, b: seq<Shred>)
    requires IsBlock(b) && DataOnly(s, b) && !s.finished && LogMatches(s, log, b)
    requires FromBlock(b, shred) && Accepts(s, shred) && Truthful(recover, b, {})
    ensures HandsOutHeld(InsertData(s, shred), b, Insert(s, shred, recover).taken)
  {
    AcceptedTaken(s, shred, recover, b);
    var t, o := InsertData(s, shred), Insert(s, shred, recover);
    hide InsertData, Insert, Sound, SegmentStart, Faithful, Marks, HeldSetOf, TakenFrom, AllHeld, EndsAt, Covers;
    forall k | 0 <= k < |o.taken| ensures HeldSetOf(t, b, o.taken[k]) {
      TakenIsHeldSet(t, b, o.taken[k]);
    }
    forall e | e in t.ends && AllHeld(t.cells, SegmentStart(t.ends, e), e + 1) ensures EndsAt(o.taken, e) {
      AcceptedEmission(s, log, shred, recover, b, e);
      CoveredEnd(t, o.taken, e);
    }
  }

  // ----- one step -----

  lemma StoreKnown(r: Rescan, shred: Shred, b: seq<Shred>)
    requires FromBlock(b, shred) && shred.index in r.shreds && r.shreds[shred.index] == b[shred.index]
    requires shred.dataComplete ==> shred.index in r.complete
    ensures Store(r, shred) == r
  {
    assert r.shreds[shred.index := shred] == r.shreds;
  }

  /** The segment the known end `e` closes is processed or has a gap. */
  ghost predicate Stale(r: Rescan, e: nat) {
    e in r.processed || !AllPresent(r.shreds, SegmentStart(r.complete, e), e + 1)
  }

  lemma StaleVisit(r: Rescan, slot: nat, start: nat, end: nat)
    requires IsSegment(r.complete, start, end) && Stale(r, end)
    ensures Visit(r, slot, start, end) == RescanOutcome(r, [])
  {}

  lemma {:induction false} NothingNew(r: Rescan, slot: nat, start: nat)
    requires start == SegmentStart(r.complete, start)
    requires forall e | e in r.complete :: Stale(r, e)
    ensures VisitFrom(r, slot, start) == RescanOutcome(r, [])
    decreases |EndsFrom(r.complete, start)|
  {
    hide SegmentStart, Visit, Stale, IsSegment;
    if NextEnd(r.complete, start).Some? {
      var end := NextEnd(r.complete, start).value;
      FewerEnds(r.complete, start, end);
      NextSegment(r.complete, start);
      AfterEnd(r.complete, end);
      StaleVisit(r, slot, start, end);
      NothingNew(r, slot, end + 1);
    }
  }

  lemma NothingHeld(s: Slot, r: Rescan, b: seq<Shred>)
    requires Sound(s) && !s.finished && Complete(s) && InStep(s, r, b)
    ensures VisitFrom(r, s.slot, 0) == RescanOutcome(r, [])
  {
    forall e | e in r.complete ensures Stale(r, e) {
      HeldIffNew(s, r, b, e);
    }
    hide InStep, Complete, Sound;
    NothingNew(r, s.slot, 0);
  }

  lemma StoreInStep(s: Slot, r: Rescan, shred: Shred, b: seq<Shred>)
    requires Sound(s) && !s.finished && InStep(s, r, b) && FromBlock(b, shred) && Accepts(s, shred)
    ensures InStep(InsertData(s, shred), Store(r, shred), b)
  {}

  lemma StillInStep(t: Slot, r: Rescan, b: seq<Shred>, e: Slot, o: RescanOutcome)
    requires IsBlock(b) && Faithful(t, b, {}) && !t.finished && InStep(t, r, b) && Records(r, o)
    requires forall k | 0 <= k < |o.taken| :: TakenFrom(t, o.taken[k])
    requires !e.finished ==> Marks(t, Emission(e, o.taken))
    requires e.finished ==> forall i: nat | i < |b| :: EmittedAt(t.cells, i) || Covers(o.taken, i)
    ensures InStep(e, o.state, b)
  {
    forall x | x in t.ends ensures Covers(o.taken, x) <==> EndsAt(o.taken, x) {
      CoveredEnd(t, o.taken, x);
    }
    CoveredAreHeld(t, o.taken);
    EndsAreEnds(t, o.taken);
    hide EndsAt, TakenFrom;
    if e.finished {
      AllHandedOut(t, r, b, o);
    } else {
      hide Covers;
      forall x ensures x in o.state.processed <==> x in e.ends && EmittedAt(e.cells, x) {
        assert x in t.ends ==> (x in o.state.processed <==> EmittedAt(t.cells, x) || Covers(o.taken, x));
      }
    }
  }

  lemma AllHandedOut(t: Slot, r: Rescan, b: seq<Shred>, o: RescanOutcome)
    requires IsBlock(b) && Faithful(t, b, {}) && !t.finished && InStep(t, r, b) && Records(r, o)
    requires forall i: nat | Covers(o.taken, i) :: HeldAt(t.cells, i)
    requires forall x | x in t.ends :: Covers(o.taken, x) <==> EndsAt(o.taken, x)
    requires forall i: nat | i < |b| :: EmittedAt(t.cells, i) || Covers(o.taken, i)
    ensures forall i: nat | i < |b| :: i in o.state.shreds && o.state.shreds[i] == b[i]
    ensures o.state.complete == BlockEnds(b) && o.state.complete <= o.state.processed
  {
    hide Covers, EndsAt;
    forall i: nat | i < |b| ensures !MissingAt(t.cells, i) {
      assert EmittedAt(t.cells, i) || HeldAt(t.cells, i);
    }
    assert t.ends == BlockEnds(b);
  }

  lemma CoveredAreHeld(t: Slot, taken: seq<Taken>)
    requires forall k | 0 <= k < |taken| :: TakenFrom(t, taken[k])
    ensures forall i: nat | Covers(taken, i) :: HeldAt(t.cells, i)
  {
    forall i: nat | Covers(taken, i) ensures HeldAt(t.cells, i) {
      var k :| 0 <= k < |taken| && taken[k].start <= i <= taken[k].end;
      assert TakenFrom(t, taken[k]);
    }
  }

  lemma EndsAreEnds(t: Slot, taken: seq<Taken>)
    requires forall k | 0 <= k < |taken| :: TakenFrom(t, taken[k])
    ensures forall e | EndsAt(taken, e) :: e in t.ends
  {}

  /** One shred of the block: both hand out the same, and stay in step. */
  lemma StepAgrees(s: Slot, log: seq<Taken>, r: Rescan, shred: Shred, recover: seq<Shred> -> Rebuilt, b: seq<Shred>)
    requires IsBlock(b) && DataOnly(s, b) && LogMatches(s, log, b) && InStep(s, r, b)
    requires FromBlock(b, shred) && shred.slot == s.slot && Truthful(recover, b, {})
    ensures Insert(s, shred, recover).taken == Ingest(r, shred).taken
    ensures InStep(Insert(s, shred, recover).state, Ingest(r, shred).state, b)
  {
    if s.finished || !Accepts(s, shred) {
      StoreKnown(r, shred, b);
      if s.finished {
        NothingNew(r, shred.slot, 0);
      } else {
        DataOnlyIntake(s, shred, recover);
        NothingHeld(s, r, b);
        RejectedUnchanged(s, shred);
      }
    } else {
      AcceptedStepAgrees(s, log, r, shred, recover, b);
    }
  }

  lemma AcceptedStepAgrees(s: Slot, log: seq<Taken>, r: Rescan, shred: Shred, recover: seq<Shred> -> Rebuilt, b: seq<Shred>)
    requires IsBlock(b) && DataOnly(s, b) && LogMatches(s, log, b) && InStep(s, r, b) && !s.finished && Accepts(s, shred)
    requires FromBlock(b, shred) && shred.slot == s.slot && Truthful(recover, b, {})
    ensures Insert(s, shred, recover).taken == Ingest(r, shred).taken
    ensures InStep(Insert(s, shred, recover).state, Ingest(r, shred).state, b)
  {
    var t, o, q := InsertData(s, shred), Insert(s, shred, recover), Store(r, shred);
    assert t.slot == s.slot;
    StoreInStep(s, r, shred, b);
    AcceptedTaken(s, shred, recover, b);
    DeshredderHandsOutHeld(s, log, shred, recover, b);
    InsertMatches(s, log, shred, recover, b, {});
    InsertDataSound(s, shred);
    hide InsertData, Insert, Store, InStep, VisitFrom, HandsOutHeld, DataOnly, Faithful, Sound, Honest, Marks, IsSetOf, TakenFrom, Truthful;
    RescanHandsOutHeld(t, q, b);
    RescanVisits(q, t.slot, 0);
    SameHandout(t, b, o.taken, VisitFrom(q, t.slot, 0).taken);
    CoversConcat(log, o.taken);
    hide EmittedAt, Covers;
    StillInStep(t, q, b, o.state, VisitFrom(q, t.slot, 0));
  }

  // ----- runs of data shreds -----

  lemma DataOnlyStep(s: Slot, shred: Shred, recover: seq<Shred> -> Rebuilt, b: seq<Shred>)
    requires IsBlock(b) && DataOnly(s, b) && FromBlock(b, shred) && Truthful(recover, b, {})
    ensures DataOnly(Insert(s, shred, recover).state, b)
  {
    InsertHonest(s, shred, recover, b, {});
    if !s.finished {
      DataOnlyIntake(s, shred, recover);
      InsertDataSound(s, shred);
      InsertDataLocal(s, shred);
      InsertDropsOnlyFull(s, shred, recover);
      hide Honest, InsertData, TakeIn, Complete;
      if Accepts(s, shred) {
        EmissionCompletes(s, InsertData(s, shred), shred.index, shred.index);
      } else {
        RejectedUnchanged(s, shred);
      }
      NoCodingLeft(InsertData(s, shred), Insert(s, shred, recover).state, b);
    }
  }

  lemma NoCodingLeft(s: Slot, t: Slot, b: seq<Shred>)
    requires OnlyFullDropped(s, t) && s.coding == [] && Honest(t, b, {})
    ensures t.coding == []
  {
    if !t.finished {
      var first := if |t.coding| > 0 then t.coding[0] else CodingSet(0, 1, [], 0);
      assert |t.coding| > 0 ==> first in t.coding;
    }
  }

  /** The rescanning decoder after the first `n` shreds. */
  ghost function RunRescan(shreds: seq<Shred>, n: nat): Rescan
    requires n <= |shreds|
  {
    if n == 0 then Rescan(map[], {}, {}) else Ingest(RunRescan(shreds, n - 1), shreds[n - 1]).state
  }

  lemma {:induction false} RunInStep(slot: nat, shreds: seq<Shred>, n: nat, recover: seq<Shred> -> Rebuilt, b: seq<Shred>)
    requires DataStream(b, slot, shreds) && n <= |shreds| && Truthful(recover, b, {})
    ensures var s := RunSlot(slot, shreds, n, recover);
      && s.slot == slot && DataOnly(s, b)
      && LogMatches(s, LogSlot(slot, shreds, n, recover), b)
      && InStep(s, RunRescan(shreds, n), b)
  {
    hide DataOnly, Insert, Ingest, LogMatches, Truthful, InStep, FromBlock;
    if n == 0 {
      EmptyInStep(slot, b);
    } else {
      RunInStep(slot, shreds, n - 1, recover, b);
      var s, log := RunSlot(slot, shreds, n - 1, recover), LogSlot(slot, shreds, n - 1, recover);
      SlotOfShred(b, slot, shreds, n - 1);
      DataOnlyStep(s, shreds[n - 1], recover, b);
      StepAgrees(s, log, RunRescan(shreds, n - 1), shreds[n - 1], recover, b);
      HonestMatches(s, log, shreds[n - 1], recover, b);
    }
  }

  lemma HonestMatches(s: Slot, log: seq<Taken>, shred: Shred, recover: seq<Shred> -> Rebuilt, b: seq<Shred>)
    requires IsBlock(b) && DataOnly(s, b) && LogMatches(s, log, b) && FromBlock(b, shred) && Truthful(recover, b, {})
    ensures var o := Insert(s, shred, recover);
      LogMatches(o.state, log + o.taken, b) && o.state.slot == s.slot
  {
    InsertMatches(s, log, shred, recover, b, {});
    InsertEmits(s, shred, recover);
  }

  lemma SlotOfShred(b: seq<Shred>, slot: nat, shreds: seq<Shred>, k: nat)
    requires DataStream(b, slot, shreds) && k < |shreds|
    ensures FromBlock(b, shreds[k]) && shreds[k].slot == slot
  {}

  lemma EmptyInStep(slot: nat, b: seq<Shred>)
    requires IsBlock(b)
    ensures DataOnly(NewSlot(slot), b) && LogMatches(NewSlot(slot), [], b)
    ensures InStep(NewSlot(slot), Rescan(map[], {}, {}), b)
  {
    NewSlotHonest(slot, b, {});
  }

  function NoDecoder(input: seq<Shred>): Rebuilt { Unrecoverable }

  /** Without coding shreds the decoder is never asked. */
  lemma {:induction false} DecoderUnused(slot: nat, shreds: seq<Shred>, n: nat, recover: seq<Shred> -> Rebuilt, b: seq<Shred>)
    requires DataStream(b, slot, shreds) && n <= |shreds|
    ensures RunSlot(slot, shreds, n, recover) == RunSlot(slot, shreds, n, NoDecoder)
    ensures LogSlot(slot, shreds, n, recover) == LogSlot(slot, shreds, n, NoDecoder)
  {
    hide Insert, DataStream, FromBlock;
    if n > 0 {
      DecoderUnused(slot, shreds, n - 1, recover, b);
      SlotOfShred(b, slot, shreds, n - 1);
      NoCodingSets(slot, shreds, n - 1, b);
      DecoderUnusedStep(RunSlot(slot, shreds, n - 1, NoDecoder), shreds[n - 1], recover);
    }
  }

  lemma NoCodingSets(slot: nat, shreds: seq<Shred>, n: nat, b: seq<Shred>)
    requires DataStream(b, slot, shreds) && n <= |shreds|
    ensures RunSlot(slot, shreds, n, NoDecoder).coding == []
  {
    RunInStep(slot, shreds, n, NoDecoder, b);
  }

  lemma DecoderUnusedStep(s: Slot, shred: Shred, recover: seq<Shred> -> Rebuilt)
    requires s.coding == [] && shred.isData
    ensures Insert(s, shred, recover) == Insert(s, shred, NoDecoder)
  {
    if !s.finished {
      DataOnlyIntake(s, shred, recover);
      DataOnlyIntake(s, shred, NoDecoder);
      hide TakeIn;
    }
  }

  /**
   At every shred of every stream of one block's data shreds, the incremental search hands
   out exactly the list of data sets the full rescan does.
   */
  lemma SameAsFullRescan(slot: nat, shreds: seq<Shred>, n: nat, recover: seq<Shred> -> Rebuilt, b: seq<Shred>)
    requires DataStream(b, slot, shreds) && n < |shreds|
    ensures Insert(RunSlot(slot, shreds, n, recover), shreds[n], recover).taken ==
            Ingest(RunRescan(shreds, n), shreds[n]).taken
  {
    RunInStep(slot, shreds, n, NoDecoder, b);
    SlotOfShred(b, slot, shreds, n);
    DecoderUnused(slot, shreds, n, recover, b);
    DecoderUnusedStep(RunSlot(slot, shreds, n, NoDecoder), shreds[n], recover);
    hide Insert, Ingest, DataOnly, InStep, LogMatches, RunSlot, LogSlot, RunRescan;
    StepAgrees(RunSlot(slot, shreds, n, NoDecoder), LogSlot(slot, shreds, n, NoDecoder), RunRescan(shreds, n), shreds[n], NoDecoder, b);
  }

  /** The indices received in the first `n` shreds. */
  ghost function Received(shreds: seq<Shred>, n: nat): set<nat>
    requires n <= |shreds|
  {
    if n == 0 then {} else Received(shreds, n - 1) + {shreds[n - 1].index}
  }

  lemma {:induction false} RescanHasReceived(b: seq<Shred>, slot: nat, shreds: seq<Shred>, n: nat)
    requires DataStream(b, slot, shreds) && n <= |shreds|
    ensures RunRescan(shreds, n).shreds.Keys == Received(shreds, n)
  {
    if n > 0 {
      RescanHasReceived(b, slot, shreds, n - 1);
      SlotOfShred(b, slot, shreds, n - 1);
      var q := Store(RunRescan(shreds, n - 1), shreds[n - 1]);
      RescanVisits(q, shreds[n - 1].slot, 0);
      hide VisitFrom;
    }
  }

  lemma KnownIsReceived(s: Slot, r: Rescan, b: seq<Shred>)
    requires DataOnly(s, b) && InStep(s, r, b) && r.shreds.Keys <= Range(0, |b|)
    ensures Known(s, b) == r.shreds.Keys
  {}

  lemma {:induction false} ReceivedInBlock(b: seq<Shred>, slot: nat, shreds: seq<Shred>, n: nat)
    requires DataStream(b, slot, shreds) && n <= |shreds|
    ensures Received(shreds, n) <= Range(0, |b|)
  {
    if n > 0 {
      ReceivedInBlock(b, slot, shreds, n - 1);
      SlotOfShred(b, slot, shreds, n - 1);
    }
  }

  /**
   What a stream of a block's data shreds hands out depends only on which indices it holds:
   index `i` exactly when its whole data set and the end of the data set before it are among
   them.
   */
  lemma HandedOutByReceived(slot: nat, shreds: seq<Shred>, recover: seq<Shred> -> Rebuilt, b: seq<Shred>)
    requires DataStream(b, slot, shreds)
    ensures var log := LogSlot(slot, shreds, |shreds|, recover);
      var s := RunSlot(slot, shreds, |shreds|, recover);
      && (forall k | 0 <= k < |log| :: IsSetOf(b, log[k]))
      && (forall i: nat | i < |b| :: Covers(log, i) <==> Ready(b, Received(shreds, |shreds|), i))
      && (s.finished <==> forall i: nat | i < |b| :: Covers(log, i))
  {
    DecoderUnused(slot, shreds, |shreds|, recover, b);
    RunInStep(slot, shreds, |shreds|, NoDecoder, b);
    RescanHasReceived(b, slot, shreds, |shreds|);
    ReceivedInBlock(b, slot, shreds, |shreds|);
    var s, log := RunSlot(slot, shreds, |shreds|, NoDecoder), LogSlot(slot, shreds, |shreds|, NoDecoder);
    hide RunSlot, LogSlot, RunRescan, Received, InStep, Honest, LogMatches, Ready, Covers, IsSetOf, Complete;
    KnownIsReceived(s, RunRescan(shreds, |shreds|), b);
    FinishedIffAll(s, log, b, {});
    forall i: nat | i < |b| ensures Covers(log, i) <==> Ready(b, Known(s, b), i) {
      CoveredIffReady(s, log, b, {}, i);
    }
    MatchesAreSets(s, log, b);
  }

  lemma MatchesAreSets(s: Slot, log: seq<Taken>, b: seq<Shred>)
    requires IsBlock(b) && LogMatches(s, log, b)
    ensures forall k | 0 <= k < |log| :: IsSetOf(b, log[k])
  {}

  /** Order and duplicates do not matter: the same indices received hand out the same indices. */
  lemma OrderDoesNotMatter(slot: nat, xs: seq<Shred>, ys: seq<Shred>, recover: seq<Shred> -> Rebuilt, b: seq<Shred>)
    requires DataStream(b, slot, xs) && DataStream(b, slot, ys)
    requires Received(xs, |xs|) == Received(ys, |ys|)
    ensures forall i: nat | i < |b| ::
      Covers(LogSlot(slot, xs, |xs|, recover), i) <==> Covers(LogSlot(slot, ys, |ys|, recover), i)
    ensures RunSlot(slot, xs, |xs|, recover).finished <==> RunSlot(slot, ys, |ys|, recover).finished
  {
    HandedOutByReceived(slot, xs, recover, b);
    HandedOutByReceived(slot, ys, recover, b);
    hide RunSlot, LogSlot, Received, Ready, Covers, DataStream, IsSetOf;
  }

  /**
   Having a whole data set is not enough: a block of two one-shred data sets of which only
   the second arrives hands out nothing, because the end of the first is not known.
   */
  lemma WholeSetAloneIsNotEnough(slot: nat, recover: seq<Shred> -> Rebuilt)
    ensures var first := Shred(slot, 0, 0, true, true, false, []);
      var second := Shred(slot, 1, 0, true, true, true, []);
      && DataStream([first, second], slot, [second])
      && Received([second], 1) == {1} && SetStart([first, second], 1) == 1 == SetEnd([first, second], 1)
      && !Covers(LogSlot(slot, [second], 1, recover), 1)
  {
    var first := Shred(slot, 0, 0, true, true, false, []);
    var second := Shred(slot, 1, 0, true, true, true, []);
    var b := [first, second];
    assert 0 in BlockEnds(b) && 1 in BlockEnds(b);
    assert Received([second], 0) == {};
    HandedOutByReceived(slot, [second], recover, b);
  }
}
