/** Which deliveries a task carries: all that count for its slot, unless the window started silent. */
module WindowDeliveries {
  import opened Options
  import opened AuditSpec
  import opened AuditLaws
  import opened WindowRuns

  /** Everything delivered for `slot` before event `k` that is to be compared, the latest mask per signature. */
  function Due(c: Settings, es: seq<Event>, k: nat, slot: nat): Deliveries
    requires c.n > 0 && k <= |es|
  {
    if k == 0 then map[] else DueStep(c, Due(c, es, k - 1, slot), es[k - 1], slot)
  }

  function DueStep(c: Settings, due: Deliveries, e: Event, slot: nat): Deliveries
    requires c.n > 0
  {
    if e.Delivered? && e.d.slot == slot && Comparable(e.d, c.n, c.skipVotes)
    then due[e.d.signature := MaskOf(e.d, c.filters)]
    else due
  }

  /** What a window keeps for a slot its cursor has not passed. */
  ghost predicate Keeps(c: Settings, w: Window, due: Deliveries, slot: nat) {
    && w.filters == c.filters
    && (!w.subscribed ==> w.tipOpen.None? && w.firstDelivered.None?)
    && (w.firstDelivered.None? ==> due == map[])
    && (w.tipOpen.None? ==> SampledAt(w.sampled, slot) == map[] && (slot > 0 ==> due == map[]))
    && (w.tipOpen.Some? && slot >= w.nextCheck.GetOr(0) ==>
          SampledAt(w.sampled, slot) == if slot >= StartSlot(w).value then due else map[])
  }

  lemma DeliverKeeps(c: Settings, w: Window, due: Deliveries, d: Delivery, slot: nat)
    requires c.n > 0 && Keeps(c, w, due, slot) && w.subscribed
    ensures Keeps(c, Deliver(w, d, c.n, c.skipVotes), DueStep(c, due, Delivered(d), slot), slot)
  {
    hide MaskOf, Comparable;
  }

  /** Handing out takes each task's deliveries and leaves those of later slots. */
  lemma {:induction false} HandDeliveries(key: WindowKey, w: Window, end: nat, tip: nat, lag: nat, n: nat, budget: nat)
    requires n > 0 && w.nextCheck.Some?
    ensures var (after, tasks) := Hand(key, w, end, tip, lag, n, budget);
      && (forall t | t in tasks :: t.slot >= w.nextCheck.value && t.deliveries == SampledAt(w.sampled, t.slot))
      && after.nextCheck.Some? && after.nextCheck.value >= w.nextCheck.value
      && (forall s | s >= after.nextCheck.value :: SampledAt(after.sampled, s) == SampledAt(w.sampled, s))
      && after == w.(nextCheck := after.nextCheck, sampled := after.sampled, inFlight := after.inFlight,
                     auditStart := after.auditStart, auditEnd := after.auditEnd)
    decreases budget
  {
    if budget > 0 && CanHand(w, end, tip, lag) {
      HandDeliveries(key, HandOne(w, n), end, tip, lag, n, budget - 1);
      hide CanHand;
    }
  }

  lemma ReadyKeeps(c: Settings, w: Window, first: Option<nat>, due: Deliveries, tip: nat, slot: nat)
    requires c.n > 0 && Keeps(c, w, due, slot) && CursorOk(w, first, c.n)
    ensures Keeps(c, Ready(c.key, w, tip, c.lag, c.n).0, due, slot)
    ensures forall t | t in Ready(c.key, w, tip, c.lag, c.n).1 && t.slot == slot ::
      StartSlot(FillTip(w, tip)).Some?
      && t.deliveries == if slot >= StartSlot(FillTip(w, tip)).value then due else map[]
  {
    hide CursorOk, CeilTo, Hand, EndSlot, StartKnown;
    var filled := FillTip(w, tip);
    FillTipCursor(w, first, tip, c.n);
    assert Keeps(c, filled, due, slot);
    if !Waits(filled, tip) {
      PositionedCursor(filled, first, tip, c.lag, c.n);
      var at := Positioned(filled, tip, c.lag, c.n);
      assert filled.nextCheck.Some? ==> filled.nextCheck.value <= at.nextCheck.value;
      HandDeliveries(c.key, at, EndSlot(at, tip), tip, c.lag, c.n, MAX_TASKS_PER_WINDOW);
    }
  }

  lemma StepKeeps(c: Settings, w: Window, first: Option<nat>, due: Deliveries, e: Event, slot: nat)
    requires c.n > 0 && Keeps(c, w, due, slot) && CursorOk(w, first, c.n)
    requires e.Subscribed? ==> !w.subscribed
    requires e.Delivered? ==> w.subscribed
    ensures Keeps(c, Step(c, w, e), DueStep(c, due, e, slot), slot)
  {
    hide CursorOk, Ready, Deliver, MaskOf;
    if e.Took? {
      ReadyKeeps(c, w, first, due, e.tip, slot);
    } else if e.Delivered? {
      DeliverKeeps(c, w, due, e.d, slot);
    }
  }

  lemma DueUnfolded(c: Settings, es: seq<Event>, k: nat, slot: nat)
    requires c.n > 0 && k <= |es|
    ensures Due(c, es, k, slot) == if k == 0 then map[] else DueStep(c, Due(c, es, k - 1, slot), es[k - 1], slot)
  {
    hide DueStep;
  }

  lemma {:induction false} RunKeeps(c: Settings, es: seq<Event>, k: nat, slot: nat)
    requires c.n > 0 && k <= |es| && Orderly(c, es)
    ensures Keeps(c, Run(c, es, k), Due(c, es, k, slot), slot)
  {
    hide Run, Handed, Batch, Due, Step, DueStep, CursorOk, Orderly;
    Unfolded(c, es, k);
    DueUnfolded(c, es, k, slot);
    if k > 0 {
      hide Keeps;
      RunKeeps(c, es, k - 1, slot);
      CursorConserved(c, es, k - 1);
      OrderlyAt(c, es, k - 1);
      StepKeeps(c, Run(c, es, k - 1), First(c, es, k - 1), Due(c, es, k - 1, slot), es[k - 1], slot);
    }
  }

  /**
   A task carries everything delivered for its slot so far, if the slot is not before the start
   of the window as known when it is handed out; otherwise it carries nothing.
   */
  lemma TaskDeliveries(c: Settings, es: seq<Event>, k: nat, t: SlotTask)
    requires c.n > 0 && k < |es| && Orderly(c, es) && t in Batch(c, es, k)
    ensures es[k].Took? && StartSlot(FillTip(Run(c, es, k), es[k].tip)).Some?
    ensures t.deliveries ==
            if t.slot >= StartSlot(FillTip(Run(c, es, k), es[k].tip)).value then Due(c, es, k, t.slot) else map[]
  {
    hide Run, Due, Ready, Keeps, CursorOk, Orderly;
    RunKeeps(c, es, k, t.slot);
    CursorConserved(c, es, k);
    ReadyKeeps(c, Run(c, es, k), First(c, es, k), Due(c, es, k, t.slot), es[k].tip, t.slot);
  }

  /** Nothing is lost exactly when the slot is not before the start, or nothing was due for it. */
  lemma DeliveriesExactIff(c: Settings, es: seq<Event>, k: nat, t: SlotTask)
    requires c.n > 0 && k < |es| && Orderly(c, es) && t in Batch(c, es, k)
    ensures es[k].Took? && StartSlot(FillTip(Run(c, es, k), es[k].tip)).Some?
    ensures t.deliveries == Due(c, es, k, t.slot) <==>
            t.slot >= StartSlot(FillTip(Run(c, es, k), es[k].tip)).value || Due(c, es, k, t.slot) == map[]
  {
    hide Run, Due, Batch, Orderly;
    TaskDeliveries(c, es, k, t);
  }

  // ----- windows that heard from their source before the cursor was set -----

  /** The cursor was set only after the first delivery. */
  ghost predicate HeardFirst(c: Settings, es: seq<Event>, k: nat)
    requires c.n > 0 && k <= |es|
  {
    forall j | 0 <= j <= k && Run(c, es, j).nextCheck.Some? :: Run(c, es, j).firstDelivered.Some?
  }

  /** The cursor stands at or behind the start for good. */
  ghost predicate CursorInRange(w: Window) {
    && (w.nextCheck.Some? ==> StartSlot(w).Some? && w.nextCheck.value >= StartSlot(w).value)
    && (!w.subscribed ==> w.tipOpen.None?)
  }

  lemma StepInRange(c: Settings, w: Window, first: Option<nat>, e: Event)
    requires c.n > 0 && CursorInRange(w) && CursorOk(w, first, c.n)
    requires e.Subscribed? ==> !w.subscribed
    requires w.nextCheck.Some? ==> w.firstDelivered.Some?
    ensures CursorInRange(Step(c, w, e))
  {
    if e.Took? {
      TookInRange(c, w, first, e.tip);
      hide Ready;
    }
  }

  lemma TookInRange(c: Settings, w: Window, first: Option<nat>, tip: nat)
    requires c.n > 0 && CursorInRange(w) && CursorOk(w, first, c.n)
    ensures CursorInRange(Ready(c.key, w, tip, c.lag, c.n).0)
    ensures !Waits(FillTip(w, tip), tip) ==> HandFrom(w, tip, c.lag, c.n) >= StartSlot(FillTip(w, tip)).value
  {
    hide CursorOk, CeilTo, Hand, EndSlot, StartKnown;
    var filled := FillTip(w, tip);
    FillTipCursor(w, first, tip, c.n);
    if !Waits(filled, tip) {
      CeilMultiple(StartSlot(filled).value, c.n);
      PositionedCursor(filled, first, tip, c.lag, c.n);
      var at := Positioned(filled, tip, c.lag, c.n);
      HandDeliveries(c.key, at, EndSlot(at, tip), tip, c.lag, c.n, MAX_TASKS_PER_WINDOW);
    }
  }

  lemma {:induction false} RunInRange(c: Settings, es: seq<Event>, k: nat)
    requires c.n > 0 && k <= |es| && Orderly(c, es) && HeardFirst(c, es, k)
    ensures CursorInRange(Run(c, es, k))
  {
    hide Run, Handed, Batch, Step, CursorOk, Orderly;
    Unfolded(c, es, k);
    if k > 0 {
      hide CursorInRange;
      RunInRange(c, es, k - 1);
      CursorConserved(c, es, k - 1);
      OrderlyAt(c, es, k - 1);
      assert Run(c, es, k - 1).nextCheck.Some? ==> Run(c, es, k - 1).firstDelivered.Some?;
      StepInRange(c, Run(c, es, k - 1), First(c, es, k - 1), es[k - 1]);
    } else {
      assert CursorInRange(NewWindow(c.commitmentLag, c.filters));
    }
  }

  /**
   If the window heard from its source before its cursor was set, every slot handed out lies in
   the audited range, from its start to its end.
   */
  lemma HeardFirstInRange(c: Settings, es: seq<Event>, k: nat, t: SlotTask)
    requires c.n > 0 && k < |es| && Orderly(c, es) && HeardFirst(c, es, k) && t in Batch(c, es, k)
    ensures es[k].Took? && StartSlot(FillTip(Run(c, es, k), es[k].tip)).Some?
    ensures StartSlot(FillTip(Run(c, es, k), es[k].tip)).value <= t.slot <= EndSlot(Run(c, es, k), es[k].tip)
  {
    hide Run, Orderly, HeardFirst, HandFrom, Ready, EndSlot, Waits;
    RunInRange(c, es, k);
    CursorConserved(c, es, k);
    BatchLimits(c, es, k);
    var w, first, tip := Run(c, es, k), First(c, es, k), es[k].tip;
    TookInRange(c, w, first, tip);
    FillTipCursor(w, first, tip, c.n);
    ReadyLaws(c.key, w, first, tip, c.lag, c.n);
    hide CursorOk, Past, StartSlot;
    if !Waits(FillTip(w, tip), tip) {
      var i :| 0 <= i < |Batch(c, es, k)| && Batch(c, es, k)[i] == t;
      PastFrom(HandFrom(w, tip, c.lag, c.n), c.n, i);
    }
  }

  /** A tick hands out nothing: the start may still move, or the first slot is too near the tip or past the end. */
  ghost predicate HandsNothing(c: Settings, w: Window, tip: nat)
    requires c.n > 0
  {
    Waits(FillTip(w, tip), tip) || HandFrom(w, tip, c.lag, c.n) > EndSlot(w, tip) || HandFrom(w, tip, c.lag, c.n) + c.lag > tip
  }

  /**
   In general a tick hands out no slot before the start exactly when it hands out nothing or its
   cursor, after a jump, stands at the start or behind it.
   */
  lemma TickInRangeIff(c: Settings, es: seq<Event>, k: nat)
    requires c.n > 0 && k < |es| && Orderly(c, es) && es[k].Took?
    ensures var w, tip := Run(c, es, k), es[k].tip;
      && (Batch(c, es, k) == [] <==> HandsNothing(c, w, tip))
      && ((forall t | t in Batch(c, es, k) :: t.slot >= StartSlot(FillTip(w, tip)).GetOr(0)) <==>
            HandsNothing(c, w, tip) || HandFrom(w, tip, c.lag, c.n) >= StartSlot(FillTip(w, tip)).value)
  {
    hide Run, Orderly, HandFrom, Ready, EndSlot, Waits;
    CursorConserved(c, es, k);
    var w, first, tip := Run(c, es, k), First(c, es, k), es[k].tip;
    FillTipCursor(w, first, tip, c.n);
    ReadyLaws(c.key, w, first, tip, c.lag, c.n);
    hide CursorOk, Past, StartSlot;
    if !Waits(FillTip(w, tip), tip) {
      var next, batch := HandFrom(w, tip, c.lag, c.n), Batch(c, es, k);
      PastNone(next, c.n);
      assert |batch| > 0 ==> batch[0] in batch && batch[0].slot == next;
      forall t | t in batch ensures t.slot >= next {
        var i :| 0 <= i < |batch| && batch[i] == t;
        PastFrom(next, c.n, i);
      }
    }
  }

  /**
   If the window heard from its source before its cursor was set, every task carries exactly
   the deliveries due for its slot.
   */
  lemma DeliveriesExact(c: Settings, es: seq<Event>, k: nat, t: SlotTask)
    requires c.n > 0 && k < |es| && Orderly(c, es) && HeardFirst(c, es, k) && t in Batch(c, es, k)
    ensures t.deliveries == Due(c, es, k, t.slot)
  {
    hide Run, Due, Orderly, HeardFirst, Batch;
    TaskDeliveries(c, es, k, t);
    HeardFirstInRange(c, es, k, t);
  }

  lemma PastFrom(next: nat, n: nat, i: nat)
    requires n > 0
    ensures Past(next, n, i) >= next
  {
    PastGrows(next, n, 0, i);
    PastNone(next, n);
  }

  // ----- a window that starts silent -----

  const SILENT := Settings(WindowKey(0, 0), 0, 10, false, 0, 1)

  /** The cursor is set at 110 before the first delivery, which is for slot 110. */
  function SilentStart(): seq<Event> {
    [Subscribed(100), Took(110),
     Delivered(Delivery(110, 7, false, [Some(0)], {0})), Delivered(Delivery(120, 8, false, [Some(0)], {0})),
     Took(123)]
  }

  lemma SilentRun()
    ensures var w := NewWindow(0, 1).(subscribed := true, tipOpen := Some(100));
      var es := SilentStart();
      && Run(SILENT, es, 0) == NewWindow(0, 1)
      && Run(SILENT, es, 1) == w
      && Run(SILENT, es, 2) == w.(nextCheck := Some(110))
      && Run(SILENT, es, 3) == w.(nextCheck := Some(110), delivered := 1, firstDelivered := Some(110), maxDelivered := 110)
      && Run(SILENT, es, 4) == w.(nextCheck := Some(110), delivered := 2, firstDelivered := Some(110), maxDelivered := 120,
                                  sampled := map[120 := map[8 := {0}]])
  {
    var es, w := SilentStart(), NewWindow(0, 1).(subscribed := true, tipOpen := Some(100));
    Unfolded(SILENT, es, 0);
    Unfolded(SILENT, es, 1);
    Unfolded(SILENT, es, 2);
    Unfolded(SILENT, es, 3);
    Unfolded(SILENT, es, 4);
    hide Run, Handed, Batch;
    assert CeilTo(102, 10) == 110;
    assert Ready(SILENT.key, w, 110, 0, 10).0 == w.(nextCheck := Some(110));
    TagZero(110, 7);
    TagZero(120, 8);
    hide MaskOf;
  }

  lemma TagZero(slot: nat, signature: Signature)
    ensures MaskOf(Delivery(slot, signature, false, [Some(0)], {0}), 1) == {0}
  {}

  lemma SilentDue()
    ensures Due(SILENT, SilentStart(), 4, 110) == map[7 := {0}]
  {
    TagZero(110, 7);
    var es := SilentStart();
    assert Due(SILENT, es, 2, 110) == map[];
    assert Due(SILENT, es, 3, 110) == map[7 := {0}];
  }

  /**
   Without that, a delivery can be lost: the first delivery of a silent window moves its start
   past the cursor, and the slot it was for is still handed out, with nothing delivered.
   */
  lemma SilentWindowLosesDelivery()
    ensures Orderly(SILENT, SilentStart()) && !HeardFirst(SILENT, SilentStart(), 4)
    ensures Batch(SILENT, SilentStart(), 4) == [SlotTask(SILENT.key, 110, map[], 0)]
    ensures StartSlot(Run(SILENT, SilentStart(), 4)) == Some(112)
    ensures Due(SILENT, SilentStart(), 4, 110) == map[7 := {0}]
  {
    SilentRun();
    SilentDue();
    hide Run, Due;
    var es := SilentStart();
    assert !HeardFirst(SILENT, es, 4) by {
      assert Run(SILENT, es, 2).nextCheck.Some?;
    }
    SilentBatch(Run(SILENT, es, 4));
  }

  lemma SilentBatch(w: Window)
    requires w == NewWindow(0, 1).(subscribed := true, tipOpen := Some(100), nextCheck := Some(110), delivered := 2,
                                   firstDelivered := Some(110), maxDelivered := 120, sampled := map[120 := map[8 := {0}]])
    ensures Ready(SILENT.key, w, 123, 0, 10).1 == [SlotTask(SILENT.key, 110, map[], 0)]
  {
    assert CanHand(w, 119, 123, 0) && TaskAt(SILENT.key, w) == SlotTask(SILENT.key, 110, map[], 0);
    assert !CanHand(HandOne(w, 10), 119, 123, 0);
    assert Hand(SILENT.key, w, 119, 123, 0, 10, MAX_TASKS_PER_WINDOW).1 == [TaskAt(SILENT.key, w)] + [];
  }
}
