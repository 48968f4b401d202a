/**
 Registry and audit together: a window is only released once no row that is still to be scored
 was first seen through its connection, so the latency reported for it is final.
 */
module LatencyRelease {
  import opened Common
  import opened Options
  import opened AuditSpec
  import opened RegistrySpec
  import opened RegistryRuns

  /** A signature a connection was the first of its source to report. */
  datatype Sighting = Sighting(key: WindowKey, sig: Signature)

  /**
   What became of a sighting while nobody had told the slot: still untold; told by some later
   report, but not yet behind the floor of a sweep; or told and then passed by a sweep.
   */
  datatype Fate = Untold | Told(slot: nat) | Passed

  /**
   `heard` is the tip after a connection's last report, `blind` the sightings of signatures
   without a slot, and `closed` the tip each closed window was stamped with.
   */
  datatype Joint = Joint(r: Registry, heard: map<WindowKey, nat>, blind: map<Sighting, Fate>, closed: map<WindowKey, nat>)

  datatype Event =
    | Reported(sid: nat, sig: Signature, ns: int, slot: nat, meta: Meta)
    | Swept(sigs: seq<Signature>)
    | Closed(key: WindowKey, tip: nat)

  function Reporter(sid: nat, meta: Meta): WindowKey { WindowKey(sid, meta.connection.GetOr(0)) }

  /** A closed connection reports nothing more; the tip a window is closed with was read after its last report. */
  ghost predicate Enabled(s: Joint, e: Event) {
    Shaped(s.r) &&
    match e
    case Reported(sid, _, _, _, meta) => sid < |s.r.shred| && Reporter(sid, meta) !in s.closed
    case Swept(sigs) => ListsRetired(s.r, false, sigs)
    case Closed(key, tip) => key !in s.closed && (key in s.heard ==> s.heard[key] <= tip)
  }

  /** A report with a slot tells it to every sighting of the signature that waits for one. */
  function Tell(fate: Fate, slot: nat): Fate {
    if fate == Untold && slot != 0 then Told(slot) else fate
  }

  /** A sweep passes the sightings whose slot is behind its floor. */
  function Pass(fate: Fate, floor: nat): Fate {
    if fate.Told? && fate.slot < floor then Passed else fate
  }

  /** The report is the first of its source, and neither it nor one before told the slot. */
  predicate SeesBlind(r: Registry, sid: nat, sig: Signature, slot: nat) {
    slot == 0 && (sig in r.events ==> r.events[sig].slot == 0 && !Present(r.events[sig], sid))
  }

  ghost function Step(s: Joint, e: Event): Joint
    requires Enabled(s, e)
  {
    match e
    case Reported(sid, sig, ns, slot, meta) =>
      var key := Reporter(sid, meta);
      var told := map x | x in s.blind :: if x.sig == sig then Tell(s.blind[x], slot) else s.blind[x];
      s.(r := RecordFirst(s.r, sid, sig, ns, slot, meta),
         heard := s.heard[key := Max(s.r.highSlot, slot)],
         blind := if SeesBlind(s.r, sid, sig, slot) then told[Sighting(key, sig) := Untold] else told)
    case Swept(sigs) =>
      s.(r := Finalize(s.r, false, sigs), blind := map x | x in s.blind :: Pass(s.blind[x], Floor(s.r)))
    case Closed(key, tip) => s.(closed := s.closed[key := tip])
  }

  /** The sighting waits for a slot, or for a sweep to pass it. */
  predicate Waits(s: Joint, x: Sighting) { x in s.blind && s.blind[x] != Passed }

  /** Of a waiting sighting the row has just the slot that was told; any other row is no later than its connection's last report, nor is the floor. */
  ghost predicate SightingOk(s: Joint, row: SigRow, x: Sighting) {
    && x.key in s.heard
    && (if Waits(s, x) then row.slot == (if s.blind[x].Told? then s.blind[x].slot else 0)
        else 0 < row.slot <= s.heard[x.key] && s.r.finalizedFloor <= s.heard[x.key])
  }

  ghost predicate JointOk(s: Joint) {
    && Shaped(s.r)
    && s.r.finalizedFloor <= s.r.highSlot
    && (forall key | key in s.heard :: s.heard[key] <= s.r.highSlot)
    && (forall key | key in s.heard && key in s.closed :: s.heard[key] <= s.closed[key])
    && (forall sig | sig in s.r.events :: s.r.events[sig].slot <= s.r.highSlot)
  }

  /** Every row knows its sightings. */
  ghost predicate RowsOk(s: Joint) {
    forall sig, i | sig in s.r.events && Present(s.r.events[sig], i) ::
      SightingOk(s, s.r.events[sig], Sighting(ConnectionOf(s.r.events[sig], i), sig))
  }

  /** A waiting sighting is still in its row. */
  ghost predicate WaitersHeld(s: Joint) {
    && (forall x | Waits(s, x) :: x.sig in s.r.events && Through(s.r.events[x.sig], x.key))
    && (forall x | x in s.blind && s.blind[x].Told? :: s.blind[x].slot > 0)
  }

  lemma SightedThrough(row: SigRow, sid: nat, ns: int, slot: nat, meta: Meta, i: nat)
    requires sid < |row.ts|
    ensures var after := Sighted(row, sid, ns, slot, meta);
      && after.slot == (if row.slot == 0 then slot else row.slot)
      && |after.ts| == |row.ts|
      && (Present(after, i) ==>
            if Present(row, i) then ConnectionOf(after, i) == ConnectionOf(row, i)
            else i == sid && ConnectionOf(after, i) == Reporter(sid, meta))
  {}

  /** A row the source was in already still knows the source's sighting. */
  lemma KnownSource(s: Joint, e: Event, i: nat)
    requires JointOk(s) && RowsOk(s) && WaitersHeld(s) && Enabled(s, e) && e.Reported? && Present(RowFor(s.r, e.sig, e.slot), i)
    ensures var after := Step(s, e);
      SightingOk(after, after.r.events[e.sig], Sighting(ConnectionOf(RowFor(s.r, e.sig, e.slot), i), e.sig))
  {
    hide ConnectionOf, Sighted, Present;
    var row := RowFor(s.r, e.sig, e.slot);
    SightedThrough(row, e.sid, e.ns, e.slot, e.meta, i);
    NewRowEmpty(s.r, e.sig, e.slot, i);
    assert SightingOk(s, row, Sighting(ConnectionOf(row, i), e.sig));
    FirstOnly(s, e);
  }

  /** The source of the report was not in the row before: nothing of it was waiting. */
  lemma NewSource(s: Joint, e: Event)
    requires JointOk(s) && WaitersHeld(s) && Enabled(s, e) && e.Reported? && !Present(RowFor(s.r, e.sig, e.slot), e.sid)
    ensures var after := Step(s, e);
      SightingOk(after, after.r.events[e.sig], Sighting(Reporter(e.sid, e.meta), e.sig))
  {
    hide ConnectionOf, Sighted, Present;
    var row, x := RowFor(s.r, e.sig, e.slot), Sighting(Reporter(e.sid, e.meta), e.sig);
    SightedThrough(row, e.sid, e.ns, e.slot, e.meta, e.sid);
    NewRowEmpty(s.r, e.sig, e.slot, e.sid);
    assert !Waits(s, x);
  }

  /** A source that is in the row has its first report behind it. */
  lemma FirstOnly(s: Joint, e: Event)
    requires Enabled(s, e) && e.Reported?
    ensures SeesBlind(s.r, e.sid, e.sig, e.slot) ==> !Present(RowFor(s.r, e.sig, e.slot), e.sid)
    ensures forall i | Present(RowFor(s.r, e.sig, e.slot), i) :: ConnectionOf(RowFor(s.r, e.sig, e.slot), i).source == i
    ensures Reporter(e.sid, e.meta).source == e.sid
  {}

  lemma ReportedRow(s: Joint, e: Event, i: nat)
    requires JointOk(s) && RowsOk(s) && WaitersHeld(s) && Enabled(s, e) && e.Reported?
    ensures var after := Step(s, e);
      Present(after.r.events[e.sig], i) ==> SightingOk(after, after.r.events[e.sig], Sighting(ConnectionOf(after.r.events[e.sig], i), e.sig))
  {
    hide ConnectionOf, Sighted, Present, SightingOk;
    var row := RowFor(s.r, e.sig, e.slot);
    SightedThrough(row, e.sid, e.ns, e.slot, e.meta, i);
    if Present(row, i) {
      KnownSource(s, e, i);
    } else if i == e.sid {
      NewSource(s, e);
    }
  }

  lemma NewRowEmpty(r: Registry, sig: Signature, slot: nat, i: nat)
    ensures sig in r.events ==> RowFor(r, sig, slot) == r.events[sig]
    ensures Present(RowFor(r, sig, slot), i) ==> sig in r.events
    ensures sig !in r.events ==> RowFor(r, sig, slot).slot == slot
  {}

  lemma ReportedRows(s: Joint, e: Event)
    requires JointOk(s) && RowsOk(s) && WaitersHeld(s) && Enabled(s, e) && e.Reported?
    ensures JointOk(Step(s, e)) && RowsOk(Step(s, e))
  {
    hide ConnectionOf, Sighted;
    var after := Step(s, e);
    forall sig, i: nat | sig in after.r.events && Present(after.r.events[sig], i)
      ensures SightingOk(after, after.r.events[sig], Sighting(ConnectionOf(after.r.events[sig], i), sig))
    {
      if sig == e.sig {
        ReportedRow(s, e, i);
      } else {
        assert SightingOk(s, s.r.events[sig], Sighting(ConnectionOf(s.r.events[sig], i), sig));
      }
    }
    SightedThrough(RowFor(s.r, e.sig, e.slot), e.sid, e.ns, e.slot, e.meta, 0);
  }

  lemma ReportedHeld(s: Joint, e: Event)
    requires JointOk(s) && WaitersHeld(s) && Enabled(s, e) && e.Reported?
    ensures WaitersHeld(Step(s, e))
  {
    hide Sighted;
    var after, row := Step(s, e), RowFor(s.r, e.sig, e.slot);
    forall x | Waits(after, x) ensures x.sig in after.r.events && Through(after.r.events[x.sig], x.key) {
      if x.sig == e.sig {
        SightedStays(row, e.sid, e.ns, e.slot, e.meta, x.key);
      } else {
        assert Waits(s, x);
      }
    }
  }

  /** A source keeps its first sighting, and one that had none gets the report's. */
  lemma SightedStays(row: SigRow, sid: nat, ns: int, slot: nat, meta: Meta, key: WindowKey)
    requires sid < |row.ts|
    ensures var after := Sighted(row, sid, ns, slot, meta);
      && (Through(row, key) ==> Through(after, key))
      && (!Present(row, sid) ==> Through(after, Reporter(sid, meta)))
  {}

  lemma SweptOk(s: Joint, e: Event)
    requires JointOk(s) && RowsOk(s) && WaitersHeld(s) && Enabled(s, e) && e.Swept?
    ensures JointOk(Step(s, e)) && RowsOk(Step(s, e)) && WaitersHeld(Step(s, e))
  {
    hide ConnectionOf, RetireAll, Present, Through;
    var after, floor := Step(s, e), Floor(s.r);
    assert after.r.events == s.r.events - (set x | x in e.sigs);
    assert forall sig | sig in s.r.events && sig !in e.sigs :: !Retires(s.r, false, sig);
    forall sig, i | sig in after.r.events && Present(after.r.events[sig], i)
      ensures SightingOk(after, after.r.events[sig], Sighting(ConnectionOf(after.r.events[sig], i), sig))
    {
      assert SightingOk(s, s.r.events[sig], Sighting(ConnectionOf(s.r.events[sig], i), sig));
    }
    forall x | Waits(after, x) ensures x.sig in after.r.events && Through(after.r.events[x.sig], x.key) {
      assert Waits(s, x);
      WaitersRow(s, x);
      assert !Retires(s.r, false, x.sig);
    }
  }

  /** The row of a waiting sighting has the slot it was told. */
  lemma WaitersRow(s: Joint, x: Sighting)
    requires RowsOk(s) && WaitersHeld(s) && Waits(s, x)
    ensures x.sig in s.r.events && SightingOk(s, s.r.events[x.sig], x)
  {
    assert Through(s.r.events[x.sig], x.key);
    assert Present(s.r.events[x.sig], x.key.source);
  }

  lemma ClosedOk(s: Joint, e: Event)
    requires JointOk(s) && RowsOk(s) && WaitersHeld(s) && Enabled(s, e) && e.Closed?
    ensures JointOk(Step(s, e)) && RowsOk(Step(s, e)) && WaitersHeld(Step(s, e))
  {
    hide Through, Present, ConnectionOf;
    var after := Step(s, e);
    forall sig, i | sig in after.r.events && Present(after.r.events[sig], i)
      ensures SightingOk(after, after.r.events[sig], Sighting(ConnectionOf(after.r.events[sig], i), sig))
    {
      assert SightingOk(s, s.r.events[sig], Sighting(ConnectionOf(s.r.events[sig], i), sig));
    }
    assert forall x | Waits(after, x) :: Waits(s, x);
  }

  lemma StepOk(s: Joint, e: Event)
    requires JointOk(s) && RowsOk(s) && WaitersHeld(s) && Enabled(s, e)
    ensures JointOk(Step(s, e)) && RowsOk(Step(s, e)) && WaitersHeld(Step(s, e))
  {
    if e.Reported? {
      ReportedRows(s, e);
      ReportedHeld(s, e);
    } else if e.Swept? {
      SweptOk(s, e);
    } else {
      ClosedOk(s, e);
    }
    hide JointOk, RowsOk, WaitersHeld, Step, Enabled;
  }

  ghost predicate IsRun(trace: seq<Joint>, es: seq<Event>) {
    && |trace| == |es| + 1
    && (exists shred: seq<bool>, rotating: seq<bool> ::
          |shred| == |rotating| && trace[0] == Joint(NewRegistry(shred, rotating), map[], map[], map[]))
    && forall k | 0 <= k < |es| :: Enabled(trace[k], es[k]) && trace[k + 1] == Step(trace[k], es[k])
  }

  lemma {:induction false} AlwaysOk(trace: seq<Joint>, es: seq<Event>, k: nat)
    requires IsRun(trace, es) && k < |trace|
    ensures JointOk(trace[k]) && RowsOk(trace[k]) && WaitersHeld(trace[k])
  {
    hide JointOk, RowsOk, WaitersHeld, Step, Enabled;
    if k == 0 {
      var shred: seq<bool>, rotating: seq<bool> :| |shred| == |rotating| && trace[0] == Joint(NewRegistry(shred, rotating), map[], map[], map[]);
      NewJointOk(shred, rotating);
    } else {
      AlwaysOk(trace, es, k - 1);
      StepOk(trace[k - 1], es[k - 1]);
    }
  }

  lemma NewJointOk(shred: seq<bool>, rotating: seq<bool>)
    requires |shred| == |rotating|
    ensures var s := Joint(NewRegistry(shred, rotating), map[], map[], map[]);
      JointOk(s) && RowsOk(s) && WaitersHeld(s)
  {}

  /** No row that is still to be scored was first seen through `key`. */
  ghost predicate NoneLeft(r: Registry, key: WindowKey) {
    forall sig | sig in r.events :: !Through(r.events[sig], key)
  }

  /** Every sighting of a signature without a slot was told one, and a sweep has passed it since. */
  ghost predicate AllPassed(s: Joint, key: WindowKey) {
    forall x | x in s.blind && x.key == key :: s.blind[x] == Passed
  }

  /**
   When a window that delivered something is released before its time is up, no row in flight
   was first seen through its connection exactly when each signature it was the first of its
   source to report without a slot has been told one by a later report, behind the floor of a
   sweep since then. The floor may have been read earlier.
   */
  lemma ReleasedIsFinalIff(trace: seq<Joint>, es: seq<Event>, k: nat, key: WindowKey, w: Window, tip: nat, floor: nat, now: nat, giveUp: nat)
    requires IsRun(trace, es) && k < |trace|
    requires key in trace[k].closed && w.tipClose == Some(trace[k].closed[key]) && w.delivered > 0
    requires floor <= trace[k].r.finalizedFloor
    requires Releasable(w, tip, floor, now, giveUp) && !Stale(w, now, giveUp)
    ensures NoneLeft(trace[k].r, key) <==> AllPassed(trace[k], key)
  {
    AlwaysOk(trace, es, k);
    var s := trace[k];
    hide IsRun, ChecksDone;
    ThroughIsOk(s, key);
    assert forall x | x in s.blind && x.key == key && s.blind[x] != Passed :: Waits(s, x);
    hide JointOk, RowsOk, Through;
  }

  lemma ThroughIsOk(s: Joint, key: WindowKey)
    requires JointOk(s) && RowsOk(s)
    ensures forall sig | sig in s.r.events && Through(s.r.events[sig], key) :: SightingOk(s, s.r.events[sig], Sighting(key, sig))
    ensures key in s.heard && key in s.closed ==> s.heard[key] <= s.closed[key]
  {}

  /** A connection that always told the slot is released with its latency final. */
  lemma ReleasedIsFinal(trace: seq<Joint>, es: seq<Event>, k: nat, key: WindowKey, w: Window, tip: nat, floor: nat, now: nat, giveUp: nat)
    requires IsRun(trace, es) && k < |trace|
    requires forall j, x | 0 <= j < k && es[j] == x && x.Reported? && Reporter(x.sid, x.meta) == key :: x.slot != 0
    requires key in trace[k].closed && w.tipClose == Some(trace[k].closed[key]) && w.delivered > 0
    requires floor <= trace[k].r.finalizedFloor
    requires Releasable(w, tip, floor, now, giveUp) && !Stale(w, now, giveUp)
    ensures NoneLeft(trace[k].r, key)
  {
    ReleasedIsFinalIff(trace, es, k, key, w, tip, floor, now, giveUp);
    NeverBlind(trace, es, k, key);
    hide IsRun, NoneLeft, Releasable, Stale;
  }

  lemma {:induction false} NeverBlind(trace: seq<Joint>, es: seq<Event>, k: nat, key: WindowKey)
    requires IsRun(trace, es) && k < |trace|
    requires forall j, x | 0 <= j < k && es[j] == x && x.Reported? && Reporter(x.sid, x.meta) == key :: x.slot != 0
    ensures forall x | x in trace[k].blind :: x.key != key
  {
    hide Reporter, RecordFirst, Finalize;
    if k > 0 {
      NeverBlind(trace, es, k - 1, key);
      assert Enabled(trace[k - 1], es[k - 1]) && trace[k] == Step(trace[k - 1], es[k - 1]);
    }
  }

  // ----- it stays final -----

  lemma ReportedLeavesNone(s: Joint, e: Event, key: WindowKey)
    requires Enabled(s, e) && e.Reported? && key in s.closed && NoneLeft(s.r, key)
    ensures NoneLeft(Step(s, e).r, key)
  {
    hide Sighted;
    var row := RowFor(s.r, e.sig, e.slot);
    SightedThrough(row, e.sid, e.ns, e.slot, e.meta, key.source);
    assert !Through(row, key);
  }

  lemma {:induction false} RetireLeavesShare(r: Registry, sigs: seq<Signature>, key: WindowKey)
    requires Shaped(r) && (forall x | x in sigs :: x in r.events) && (forall i, j | 0 <= i < j < |sigs| :: sigs[i] != sigs[j])
    requires NoneLeft(r, key)
    ensures ShareOf(RetireAll(r, sigs).latency, key).contested == ShareOf(r.latency, key).contested
    ensures ShareOf(RetireAll(r, sigs).latency, key).wins == ShareOf(r.latency, key).wins
  {
    if sigs != [] {
      hide ShareOf, Contends, Through, FoldUpTo;
      var front, last := sigs[..|sigs| - 1], sigs[|sigs| - 1];
      assert sigs == front + [last];
      RetireLeavesShare(r, front, key);
      var before, row := RetireAll(r, front), r.events[last];
      FoldedShare(before.(events := before.events - {last}, contestedTotal := before.contestedTotal + 1), row, |row.ts|, key);
    }
  }

  lemma SweptLeavesNone(s: Joint, e: Event, key: WindowKey)
    requires Enabled(s, e) && e.Swept? && NoneLeft(s.r, key)
    ensures NoneLeft(Step(s, e).r, key)
    ensures ShareOf(Step(s, e).r.latency, key).contested == ShareOf(s.r.latency, key).contested
    ensures ShareOf(Step(s, e).r.latency, key).wins == ShareOf(s.r.latency, key).wins
  {
    RetireLeavesShare(s.r.(finalizedFloor := Floor(s.r)), e.sigs, key);
    hide RetireAll, Through, ShareOf;
  }

  /** From then on the window's share of contests and wins never changes. */
  lemma {:induction false} StaysFinal(trace: seq<Joint>, es: seq<Event>, j: nat, k: nat, key: WindowKey)
    requires IsRun(trace, es) && j <= k < |trace| && key in trace[j].closed && NoneLeft(trace[j].r, key)
    ensures key in trace[k].closed && NoneLeft(trace[k].r, key)
    ensures ShareOf(trace[k].r.latency, key).contested == ShareOf(trace[j].r.latency, key).contested
    ensures ShareOf(trace[k].r.latency, key).wins == ShareOf(trace[j].r.latency, key).wins
    decreases k
  {
    hide NoneLeft, ShareOf;
    if j < k {
      StaysFinal(trace, es, j, k - 1, key);
      var s, e := trace[k - 1], es[k - 1];
      assert Enabled(s, e) && trace[k] == Step(s, e);
      if e.Reported? {
        ReportedLeavesNone(s, e, key);
      } else if e.Swept? {
        SweptLeavesNone(s, e, key);
      }
      hide Enabled, IsRun, Finalize;
    }
  }

  // ----- a connection that reports slot 0 -----

  const BLIND := WindowKey(0, 5)

  /**
   The connection reports a signature without a slot and closes before any slot was seen; the
   other source moves on, and a sweep finds nothing to retire.
   */
  function BlindEvents(): seq<Event> {
    [Reported(0, 7, 10, 0, Meta(None, None, Some(5))), Closed(BLIND, 0),
     Reported(1, 8, 20, 1000, Meta(None, None, None)), Swept([])]
  }

  function BlindFirst(): Registry {
    RecordFirst(NewRegistry([false, true], [true, false]), 0, 7, 10, 0, Meta(None, None, Some(5)))
  }

  function BlindSecond(): Registry {
    RecordFirst(BlindFirst(), 1, 8, 20, 1000, Meta(None, None, None))
  }

  function BlindTrace(): seq<Joint> {
    var start := Joint(NewRegistry([false, true], [true, false]), map[], map[], map[]);
    var first := Joint(BlindFirst(), map[BLIND := 0], map[Sighting(BLIND, 7) := Untold], map[]);
    var closed := first.(closed := map[BLIND := 0]);
    var second := closed.(r := BlindSecond(), heard := map[BLIND := 0, WindowKey(1, 0) := 1000]);
    [start, first, closed, second, second.(r := BlindSecond().(finalizedFloor := 936))]
  }

  /** The window of that connection: subscribed before any slot, one delivery for slot 0, closed at tip 0. */
  function BlindWindow(): Window {
    Close(Deliver(Subscribe(NewWindow(0, 1), 0), Delivery(0, 7, false, [Some(0)], {0}), 10, false), 0, 0)
  }

  lemma BlindRegistries()
    ensures BlindSecond().highSlot == 1000 && BlindSecond().finalizedFloor == 0
    ensures BlindSecond().events.Keys == {7, 8} && BlindSecond().events[7].slot == 0 && BlindSecond().events[8].slot == 1000
    ensures Through(BlindSecond().events[7], BLIND)
    ensures BlindFirst().highSlot == 0 && BlindFirst().events.Keys == {7} && |BlindFirst().shred| == 2
  {}

  lemma BlindRetiresNone()
    ensures ListsRetired(BlindSecond(), false, [])
    ensures Finalize(BlindSecond(), false, []) == BlindSecond().(finalizedFloor := 936)
  {
    BlindRegistries();
    hide BlindSecond;
    assert Floor(BlindSecond()) == 936;
    forall s ensures !Retires(BlindSecond(), false, s) {
    }
  }

  lemma BlindIsRun()
    ensures IsRun(BlindTrace(), BlindEvents())
  {
    var trace, es := BlindTrace(), BlindEvents();
    BlindRegistries();
    BlindRetiresNone();
    hide Finalize, ListsRetired;
    assert Enabled(trace[0], es[0]) && Step(trace[0], es[0]) == trace[1];
    assert Enabled(trace[1], es[1]) && Step(trace[1], es[1]) == trace[2];
    assert Enabled(trace[2], es[2]) && Step(trace[2], es[2]) == trace[3];
    assert Enabled(trace[3], es[3]) && Step(trace[3], es[3]) == trace[4];
  }

  /**
   A run of the registry and a window that `take_finished` releases in time: the floor passed the
   tip it was closed with, but its row has no slot and stays.
   */
  lemma SlotZeroIsNotFinal()
    ensures var trace, w := BlindTrace(), BlindWindow();
      && IsRun(trace, BlindEvents())
      && BLIND in trace[4].closed && w.tipClose == Some(trace[4].closed[BLIND]) && w.delivered > 0
      && Releasable(w, 1000, trace[4].r.finalizedFloor, 0, 600) && !Stale(w, 0, 600)
      && !AllPassed(trace[4], BLIND) && !NoneLeft(trace[4].r, BLIND)
  {
    BlindIsRun();
    BlindRegistries();
    hide BlindSecond, BlindFirst;
    var s := BlindTrace()[4];
    assert Sighting(BLIND, 7) in s.blind && s.blind[Sighting(BLIND, 7)] == Untold;
    assert 7 in s.r.events;
  }
}
