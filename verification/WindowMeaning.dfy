/**
 A window by the events that made it: its audited range, what was delivered for a slot, when it is
 released, and that by then the whole range was worked through.
 */
module WindowMeaning {
  import opened Common
  import opened Options
  import opened AuditSpec
  import opened AuditLaws
  import opened WindowRuns
  import opened WindowDeliveries

  // ----- the audited range -----

  /** Two slots after the slot the window opened at, and after the first delivery. */
  ghost predicate AtOrAfterStart(w: Window, slot: nat) {
    && w.tipOpen.Some? && slot >= w.tipOpen.value + 2
    && (w.firstDelivered.Some? ==> slot >= w.firstDelivered.value + 2)
  }

  /** Three slots and the commitment's lag before the slot the window closed at, or the tip, and before the last delivery. */
  ghost predicate AtOrBeforeEnd(w: Window, tip: nat, slot: nat) {
    slot == 0 ||
    (&& slot + 3 + w.commitmentLag <= (if w.tipClose.Some? then w.tipClose.value else tip)
     && (w.delivered > 0 ==> slot < w.maxDelivered))
  }

  lemma RangeMeans(w: Window, tip: nat, slot: nat)
    ensures StartSlot(w).Some? <==> w.tipOpen.Some?
    ensures StartSlot(w).Some? ==> (slot >= StartSlot(w).value <==> AtOrAfterStart(w, slot))
    ensures slot <= EndSlot(w, tip) <==> AtOrBeforeEnd(w, tip, slot)
  {}

  /** A window waits for its start: none is known, or nothing was delivered, it is open, and fewer than 10 slots went by. */
  lemma WaitsMeans(w: Window, tip: nat)
    ensures Waits(w, tip) <==>
      || w.tipOpen.None?
      || (w.nextCheck.None? && w.firstDelivered.None? && w.endedAt.None? && tip < w.tipOpen.value + 10)
  {}

  /** `x` is the least multiple of `n` that is `least` or more. */
  ghost predicate IsCeil(x: nat, least: nat, n: nat)
    requires n > 0
  {
    x % n == 0 && least <= x < least + n
  }

  /** Where the cursor stands: as it was left, or on the first sampled slot from `start` on. */
  ghost predicate StandsAt(w: Window, start: nat, n: nat, cursor: nat)
    requires n > 0
  {
    if w.nextCheck.Some? then cursor == w.nextCheck.value else IsCeil(cursor, start, n)
  }

  /** A cursor more than `lag` and 600 slots behind the tip moves to the first sampled slot that is not. */
  ghost predicate MovesTo(cursor: nat, next: nat, tip: nat, lag: nat, n: nat)
    requires n > 0
  {
    if cursor + lag + 600 < tip then IsCeil(next, tip - lag - 600, n) else next == cursor
  }

  /** Where a tick hands out from. */
  lemma HandFromMeans(w: Window, tip: nat, lag: nat, n: nat)
    requires n > 0 && !Waits(FillTip(w, tip), tip)
    ensures exists cursor: nat ::
      StandsAt(w, StartSlot(FillTip(w, tip)).value, n, cursor) && MovesTo(cursor, HandFrom(w, tip, lag, n), tip, lag, n)
  {
    var filled := FillTip(w, tip);
    var cursor, floor := Cursor(filled, n), Monus(tip, lag + MAX_CURSOR_LAG_SLOTS);
    CeilMultiple(StartSlot(filled).value, n);
    CeilMultiple(floor, n);
    hide CeilTo, Waits, StartSlot;
    assert StandsAt(w, StartSlot(filled).value, n, cursor);
    assert MovesTo(cursor, HandFrom(w, tip, lag, n), tip, lag, n);
  }

  // ----- the fields by the events -----

  /** How many deliveries came. */
  function CountDelivered(es: seq<Event>, k: nat): nat
    requires k <= |es|
  {
    if k == 0 then 0 else CountDelivered(es, k - 1) + if es[k - 1].Delivered? then 1 else 0
  }

  ghost predicate FirstDelivery(es: seq<Event>, k: nat, j: nat)
    requires k <= |es|
  {
    j < k && es[j].Delivered? && forall i | 0 <= i < j :: !es[i].Delivered?
  }

  ghost predicate LastClose(es: seq<Event>, k: nat, j: nat)
    requires k <= |es|
  {
    j < k && es[j].Closed? && forall i | j < i < k :: !es[i].Closed?
  }

  /** The slot an event tells, 0 if none. */
  function SlotTold(e: Event): nat {
    match e
    case Subscribed(tip) => tip
    case Delivered(d) => d.slot
    case Took(tip) => tip
    case Settled(_) => 0
    case Closed(_, _) => 0
  }

  ghost predicate IsSubscribed(es: seq<Event>, k: nat)
    requires k <= |es|
  {
    exists i :: 0 <= i < k && es[i].Subscribed?
  }

  /** Event `j` tells a slot, at or after the subscription. */
  ghost predicate Opens(es: seq<Event>, j: nat) {
    j < |es| && SlotTold(es[j]) > 0 && IsSubscribed(es, j + 1)
  }

  ghost predicate FirstOpens(es: seq<Event>, k: nat, j: nat) {
    j < k && Opens(es, j) && forall i: nat | i < j :: !Opens(es, i)
  }

  ghost predicate FieldsMean(w: Window, c: Settings, es: seq<Event>, k: nat)
    requires k <= |es|
  {
    && w.commitmentLag == c.commitmentLag && w.filters == c.filters
    && w.delivered == CountDelivered(es, k)
    && (w.firstDelivered.Some? <==> exists j: nat :: FirstDelivery(es, k, j))
    && (forall j: nat | FirstDelivery(es, k, j) :: w.firstDelivered == Some(es[j].d.slot))
    && (forall j | 0 <= j < k && es[j].Delivered? :: es[j].d.slot <= w.maxDelivered)
    && (w.maxDelivered > 0 ==> exists j :: 0 <= j < k && es[j].Delivered? && es[j].d.slot == w.maxDelivered)
  }

  ghost predicate TipsMean(w: Window, es: seq<Event>, k: nat)
    requires k <= |es|
  {
    OpenMeans(w, es, k) && CloseMeans(w, es, k)
  }

  lemma {:induction false} HandFields(key: WindowKey, w: Window, end: nat, tip: nat, lag: nat, n: nat, budget: nat)
    ensures var after := Hand(key, w, end, tip, lag, n, budget).0;
      after == w.(nextCheck := after.nextCheck, sampled := after.sampled, inFlight := after.inFlight,
                  auditStart := after.auditStart, auditEnd := after.auditEnd)
    decreases budget
  {
    if budget > 0 && CanHand(w, end, tip, lag) {
      HandFields(key, HandOne(w, n), end, tip, lag, n, budget - 1);
      hide CanHand;
    }
  }

  /** A tick changes the opening slot, the cursor and what goes with it, and nothing else. */
  lemma ReadyFields(key: WindowKey, w: Window, tip: nat, lag: nat, n: nat)
    requires n > 0
    ensures var after := Ready(key, w, tip, lag, n).0;
      && after.tipOpen == FillTip(w, tip).tipOpen
      && after == w.(tipOpen := after.tipOpen, nextCheck := after.nextCheck, sampled := after.sampled, inFlight := after.inFlight,
                     slotsUnchecked := after.slotsUnchecked, auditStart := after.auditStart, auditEnd := after.auditEnd)
  {
    hide Hand, EndSlot, StartKnown, CeilTo;
    var filled := FillTip(w, tip);
    if !Waits(filled, tip) {
      var at := Positioned(filled, tip, lag, n);
      HandFields(key, at, EndSlot(at, tip), tip, lag, n, MAX_TASKS_PER_WINDOW);
    }
  }

  /** What each event does to the fields that the range depends on. */
  lemma StepFields(c: Settings, w: Window, e: Event)
    requires c.n > 0
    ensures var after := Step(c, w, e);
      && after.commitmentLag == w.commitmentLag && after.filters == w.filters
      && after.delivered == w.delivered + (if e.Delivered? then 1 else 0)
      && after.firstDelivered == (if e.Delivered? && w.firstDelivered.None? then Some(e.d.slot) else w.firstDelivered)
      && after.maxDelivered == (if e.Delivered? && e.d.slot > w.maxDelivered then e.d.slot else w.maxDelivered)
      && after.tipClose == (if e.Closed? then Some(e.tip) else w.tipClose)
      && after.endedAt == (if e.Closed? then Some(e.now) else w.endedAt)
      && after.subscribed == (w.subscribed || e.Subscribed?)
      && after.tipOpen == (if e.Subscribed? then (if e.tip > 0 then Some(e.tip) else None)
                           else if w.subscribed && w.tipOpen.None? && SlotTold(e) > 0 then Some(SlotTold(e)) else w.tipOpen)
  {
    hide Ready, MaskOf, Comparable, AddAll;
    if e.Took? {
      ReadyFields(c.key, w, e.tip, c.lag, c.n);
    }
  }

  lemma FieldsMore(w: Window, after: Window, c: Settings, es: seq<Event>, k: nat, next: nat)
    requires k < |es| && next == k + 1 && c.n > 0 && FieldsMean(w, c, es, k) && after == Step(c, w, es[k])
    ensures FieldsMean(after, c, es, next)
  {
    StepFields(c, w, es[k]);
    hide Step;
    assert forall j: nat | FirstDelivery(es, k, j) :: FirstDelivery(es, next, j);
    assert forall j: nat | FirstDelivery(es, next, j) :: j == k || FirstDelivery(es, k, j);
    if w.firstDelivered.None? && es[k].Delivered? {
      NoFirst(es, k);
      assert FirstDelivery(es, next, k);
    }
  }

  lemma {:induction false} NoFirst(es: seq<Event>, k: nat)
    requires k <= |es| && forall j: nat :: !FirstDelivery(es, k, j)
    ensures forall i | 0 <= i < k :: !es[i].Delivered?
  {
    if k > 0 {
      var before := k - 1;
      forall j: nat ensures !FirstDelivery(es, before, j) {
        assert !FirstDelivery(es, k, j);
      }
      NoFirst(es, before);
      assert !FirstDelivery(es, k, k - 1);
    }
  }

  ghost predicate OpenMeans(w: Window, es: seq<Event>, k: nat)
    requires k <= |es|
  {
    && (w.subscribed <==> IsSubscribed(es, k))
    && (w.tipOpen.Some? <==> exists j: nat :: FirstOpens(es, k, j))
    && (forall j: nat | FirstOpens(es, k, j) :: w.tipOpen == Some(SlotTold(es[j])))
  }

  ghost predicate CloseMeans(w: Window, es: seq<Event>, k: nat)
    requires k <= |es|
  {
    && (w.tipClose.Some? <==> exists j: nat :: LastClose(es, k, j)) && (w.endedAt.Some? <==> w.tipClose.Some?)
    && (forall j: nat | LastClose(es, k, j) :: w.tipClose == Some(es[j].tip) && w.endedAt == Some(es[j].now))
  }

  lemma OpenStep(w: Window, after: Window, c: Settings, es: seq<Event>, k: nat, next: nat)
    requires k < |es| && next == k + 1 && c.n > 0 && OpenMeans(w, es, k) && after == Step(c, w, es[k])
    requires es[k].Subscribed? ==> !w.subscribed
    ensures OpenMeans(after, es, next)
  {
    StepFields(c, w, es[k]);
    OpensMore(es, k, next);
    SubscribedTold(es[k]);
    hide Step, SlotTold, FirstOpens, Opens;
    assert IsSubscribed(es, next) <==> IsSubscribed(es, k) || es[k].Subscribed?;
    hide IsSubscribed;
    if j: nat :| FirstOpens(es, k, j) {
      assert FirstOpens(es, next, j);
      assert after.tipOpen == w.tipOpen;
    } else {
      assert w.tipOpen.None?;
      assert FirstOpens(es, next, k) <==> Opens(es, k);
      assert after.tipOpen == if Opens(es, k) then Some(SlotTold(es[k])) else None;
    }
  }

  lemma CloseStep(w: Window, after: Window, c: Settings, es: seq<Event>, k: nat, next: nat)
    requires k < |es| && next == k + 1 && c.n > 0 && CloseMeans(w, es, k) && after == Step(c, w, es[k])
    ensures CloseMeans(after, es, next)
  {
    StepFields(c, w, es[k]);
    CloseMore(es, k, next);
    hide Step, LastClose;
    assert es[k].Closed? ==> LastClose(es, next, k);
  }

  lemma TipsMore(w: Window, after: Window, c: Settings, es: seq<Event>, k: nat, next: nat)
    requires k < |es| && next == k + 1 && c.n > 0 && TipsMean(w, es, k) && after == Step(c, w, es[k])
    requires es[k].Subscribed? ==> !w.subscribed
    ensures TipsMean(after, es, next)
  {
    hide Step, OpenMeans, CloseMeans;
    OpenStep(w, after, c, es, k, next);
    CloseStep(w, after, c, es, k, next);
  }

  lemma SubscribedTold(e: Event)
    ensures e.Subscribed? ==> SlotTold(e) == e.tip
  {}

  lemma CloseMore(es: seq<Event>, k: nat, next: nat)
    requires k < |es| && next == k + 1
    ensures es[k].Closed? ==> forall j: nat :: LastClose(es, next, j) <==> j == k
    ensures !es[k].Closed? ==> forall j: nat :: LastClose(es, next, j) <==> LastClose(es, k, j)
  {}

  /** The first to tell a slot stays the first; the next event may be it if there was none. */
  lemma OpensMore(es: seq<Event>, k: nat, next: nat)
    requires k < |es| && next == k + 1
    ensures forall j: nat | FirstOpens(es, k, j) :: forall i: nat :: FirstOpens(es, next, i) <==> i == j
    ensures (forall j: nat :: !FirstOpens(es, k, j)) ==> forall i: nat :: FirstOpens(es, next, i) <==> i == k && Opens(es, k)
    ensures Opens(es, k) <==> SlotTold(es[k]) > 0 && (IsSubscribed(es, k) || es[k].Subscribed?)
    ensures !IsSubscribed(es, k) ==> forall j: nat :: !FirstOpens(es, k, j)
  {
    NoneOpens(es, k);
    if !IsSubscribed(es, k) {
      forall j: nat | j < k ensures !Opens(es, j) {
      }
    }
    hide Opens;
  }

  lemma {:induction false} NoneOpens(es: seq<Event>, k: nat)
    requires k <= |es|
    ensures (forall j: nat :: !FirstOpens(es, k, j)) ==> forall i: nat | i < k :: !Opens(es, i)
  {
    hide Opens;
    if k > 0 && forall j: nat :: !FirstOpens(es, k, j) {
      var before := k - 1;
      forall j: nat ensures !FirstOpens(es, before, j) {
        assert !FirstOpens(es, k, j);
      }
      NoneOpens(es, before);
      assert !FirstOpens(es, k, k - 1);
    }
  }

  /** In every state of an orderly run the fields of the window are what the events say. */
  lemma {:induction false} WindowOfEvents(c: Settings, es: seq<Event>, k: nat)
    requires c.n > 0 && k <= |es| && Orderly(c, es)
    ensures FieldsMean(Run(c, es, k), c, es, k) && TipsMean(Run(c, es, k), es, k)
  {
    hide Run, Handed, Batch, Step, FieldsMean, TipsMean, Orderly;
    Unfolded(c, es, k);
    if k == 0 {
      NewMeans(c, es);
    } else {
      WindowOfEvents(c, es, k - 1);
      OrderlyAt(c, es, k - 1);
      FieldsMore(Run(c, es, k - 1), Run(c, es, k), c, es, k - 1, k);
      TipsMore(Run(c, es, k - 1), Run(c, es, k), c, es, k - 1, k);
    }
  }

  lemma NewMeans(c: Settings, es: seq<Event>)
    ensures var w := NewWindow(c.commitmentLag, c.filters); FieldsMean(w, c, es, 0) && TipsMean(w, es, 0)
  {}

  // ----- what was delivered for a slot -----

  /** Event `j` delivers signature `s` for `slot`, to be compared. */
  ghost predicate Counts(c: Settings, es: seq<Event>, j: nat, slot: nat, s: Signature)
    requires c.n > 0
  {
    && j < |es| && es[j].Delivered? && es[j].d.slot == slot && es[j].d.signature == s
    && slot % c.n == 0 && !(c.skipVotes && es[j].d.isVote)
  }

  /** Filter `i` is among those a delivery came for: as tagged, or without tags the only filter, or those that match. */
  ghost predicate CameFor(d: Delivery, filters: nat, i: nat) {
    if |d.tags| > 0 then Some(i) in d.tags
    else if filters <= 1 then i == 0
    else i in d.matching
  }

  ghost predicate CountsLast(c: Settings, es: seq<Event>, k: nat, j: nat, slot: nat, s: Signature)
    requires c.n > 0
  {
    j < k && Counts(c, es, j, slot, s) && forall i: nat | j < i < k :: !Counts(c, es, i, slot, s)
  }

  ghost predicate DueOk(c: Settings, due: Deliveries, es: seq<Event>, k: nat, slot: nat, s: Signature)
    requires c.n > 0
  {
    && (s in due <==> exists j: nat :: j < k && Counts(c, es, j, slot, s))
    && forall j: nat | CountsLast(c, es, k, j, slot, s) && j < |es| && es[j].Delivered? ::
         s in due && forall i: nat :: i in due[s] <==> CameFor(es[j].d, c.filters, i)
  }

  lemma MaskMeans(d: Delivery, filters: nat)
    ensures forall i: nat :: i in MaskOf(d, filters) <==> CameFor(d, filters, i)
  {
    assert d.tags == [] <==> |d.tags| == 0;
  }

  lemma CountsMore(c: Settings, es: seq<Event>, k: nat, next: nat, slot: nat, s: Signature)
    requires c.n > 0 && k < |es| && next == k + 1
    ensures (exists j: nat :: j < next && Counts(c, es, j, slot, s)) <==> (exists j: nat :: j < k && Counts(c, es, j, slot, s)) || Counts(c, es, k, slot, s)
    ensures Counts(c, es, k, slot, s) ==> forall j: nat | CountsLast(c, es, next, j, slot, s) :: j == k
    ensures !Counts(c, es, k, slot, s) ==> forall j: nat :: CountsLast(c, es, next, j, slot, s) <==> CountsLast(c, es, k, j, slot, s)
  {
    hide Counts;
  }

  /** What is due for a slot: for each signature delivered for it, the filters its last delivery came for. */
  lemma {:induction false} DueMeans(c: Settings, es: seq<Event>, k: nat, slot: nat, s: Signature)
    requires c.n > 0 && k <= |es|
    ensures DueOk(c, Due(c, es, k, slot), es, k, slot, s)
  {
    hide Due, CameFor;
    DueUnfolded(c, es, k, slot);
    if k > 0 {
      DueMeans(c, es, k - 1, slot, s);
      DueStepMeans(c, Due(c, es, k - 1, slot), es, k - 1, k, slot, s);
    }
  }

  lemma DueStepMeans(c: Settings, due: Deliveries, es: seq<Event>, k: nat, next: nat, slot: nat, s: Signature)
    requires c.n > 0 && k < |es| && next == k + 1 && DueOk(c, due, es, k, slot, s)
    ensures DueOk(c, DueStep(c, due, es[k], slot), es, next, slot, s)
  {
    CountsMore(c, es, k, next, slot, s);
    DueStepOne(c, due, es[k], slot, s);
    CountsHere(c, es, k, slot, s);
    hide Counts, CountsLast, CameFor, DueStep;
  }

  lemma CountsHere(c: Settings, es: seq<Event>, k: nat, slot: nat, s: Signature)
    requires c.n > 0 && k < |es|
    ensures Counts(c, es, k, slot, s) <==>
      es[k].Delivered? && es[k].d.slot == slot && es[k].d.signature == s && slot % c.n == 0 && !(c.skipVotes && es[k].d.isVote)
  {}

  lemma DueStepOne(c: Settings, due: Deliveries, e: Event, slot: nat, s: Signature)
    requires c.n > 0
    ensures var after := DueStep(c, due, e, slot);
      if e.Delivered? && e.d.slot == slot && e.d.signature == s && slot % c.n == 0 && !(c.skipVotes && e.d.isVote)
      then s in after && forall i: nat :: i in after[s] <==> CameFor(e.d, c.filters, i)
      else (s in after <==> s in due) && (s in after ==> after[s] == due[s])
  {
    if e.Delivered? {
      MaskMeans(e.d, c.filters);
    }
    hide MaskOf, CameFor;
  }

  /** A delivery that is kept is a duplicate exactly when its signature was due for its slot already. */
  lemma DuplicateMeans(c: Settings, es: seq<Event>, k: nat)
    requires c.n > 0 && k < |es| && Orderly(c, es) && es[k].Delivered?
    requires es[k].d.slot >= Run(c, es, k).nextCheck.GetOr(0) && es[k].d.slot > 0
    ensures var w, after, d := Run(c, es, k), Run(c, es, k + 1), es[k].d;
      after.duplicates == w.duplicates +
        if Counts(c, es, k, d.slot, d.signature) && AtOrAfterStart(after, d.slot) && d.signature in Due(c, es, k, d.slot) then 1 else 0
  {
    RunKeeps(c, es, k, es[k].d.slot);
    Unfolded(c, es, k + 1);
    OrderlyAt(c, es, k);
    hide Run, Handed, Batch, MaskOf, Due;
    RangeMeans(Run(c, es, k + 1), 0, es[k].d.slot);
    RangeMeans(Noted(Run(c, es, k), es[k].d), 0, es[k].d.slot);
  }

  // ----- release -----

  /**
   A window is released when it has ended, and either nothing of it is out, no slot from its cursor
   on is in its range and its latency is final, or it ended `giveUp` ago.
   */
  lemma ReleasableMeans(w: Window, tip: nat, floor: nat, now: nat, giveUp: nat)
    ensures Releasable(w, tip, floor, now, giveUp) <==>
      && w.endedAt.Some?
      && (|| now >= w.endedAt.value + giveUp
          || (&& w.inFlight == 0
              && (w.tipOpen.None? || forall slot: nat | AtOrBeforeEnd(w, tip, slot) ::
                    if w.nextCheck.Some? then slot < w.nextCheck.value else !AtOrAfterStart(w, slot))
              && (w.delivered == 0 || w.tipClose.None? || w.tipClose.value < floor)))
  {
    forall slot: nat
      ensures StartSlot(w).Some? ==> (slot >= StartSlot(w).value <==> AtOrAfterStart(w, slot))
      ensures slot <= EndSlot(w, tip) <==> AtOrBeforeEnd(w, tip, slot)
    {
      RangeMeans(w, tip, slot);
    }
    assert StartSlot(w).Some? <==> w.tipOpen.Some?;
    hide EndSlot, StartSlot, AtOrBeforeEnd, AtOrAfterStart;
    var end := EndSlot(w, tip);
    assert AtOrBeforeEnd(w, tip, end);
    if StartSlot(w).Some? && w.nextCheck.None? {
      assert AtOrAfterStart(w, end) <==> end >= StartSlot(w).value;
    }
  }

  /**
   When a window is released in time, each sampled slot of its range from where its cursor started
   is on record as checked, skipped or unchecked: the cursor has passed it and nothing is out.
   */
  lemma ReleasedCoversRange(c: Settings, es: seq<Event>, k: nat, tip: nat, floor: nat, now: nat, giveUp: nat, slot: nat)
    requires c.n > 0 && k <= |es| && Orderly(c, es)
    requires Releasable(Run(c, es, k), tip, floor, now, giveUp) && !Stale(Run(c, es, k), now, giveUp)
    requires AtOrAfterStart(Run(c, es, k), slot) && AtOrBeforeEnd(Run(c, es, k), tip, slot)
    ensures var w := Run(c, es, k);
      && w.inFlight == 0 && w.nextCheck.Some? && slot < w.nextCheck.value
      && First(c, es, k).Some?
      && w.nextCheck.value == First(c, es, k).value + c.n * (w.slotsChecked + w.slotsSkipped + w.slotsUnchecked)
  {
    hide Run, First, Orderly, CursorOk;
    CursorConserved(c, es, k);
    ReleasedPassed(Run(c, es, k), First(c, es, k), c.n, tip, floor, now, giveUp, slot);
  }

  lemma ReleasedPassed(w: Window, first: Option<nat>, n: nat, tip: nat, floor: nat, now: nat, giveUp: nat, slot: nat)
    requires n > 0 && CursorOk(w, first, n)
    requires Releasable(w, tip, floor, now, giveUp) && !Stale(w, now, giveUp)
    requires AtOrAfterStart(w, slot) && AtOrBeforeEnd(w, tip, slot)
    ensures w.inFlight == 0 && w.nextCheck.Some? && slot < w.nextCheck.value
    ensures first.Some? && w.nextCheck.value == first.value + n * (w.slotsChecked + w.slotsSkipped + w.slotsUnchecked)
  {
    ReleasableMeans(w, tip, floor, now, giveUp);
    assert w.tipOpen.Some?;
    hide Releasable, AtOrAfterStart, AtOrBeforeEnd;
  }

  // ----- what is kept -----

  lemma {:induction false} HandSpan(key: WindowKey, w: Window, end: nat, tip: nat, lag: nat, n: nat, budget: nat)
    ensures var (after, tasks) := Hand(key, w, end, tip, lag, n, budget);
      && after.auditStart == (if tasks == [] || w.auditStart.Some? then w.auditStart else Some(tasks[0].slot))
      && after.auditEnd == (if tasks == [] then w.auditEnd else Some(tasks[|tasks| - 1].slot))
    decreases budget
  {
    if budget > 0 && CanHand(w, end, tip, lag) {
      HandSpan(key, HandOne(w, n), end, tip, lag, n, budget - 1);
      hide CanHand;
    }
  }

  lemma ReadySpan(key: WindowKey, w: Window, tip: nat, lag: nat, n: nat)
    requires n > 0
    ensures var (after, tasks) := Ready(key, w, tip, lag, n);
      && after.auditStart == (if tasks == [] || w.auditStart.Some? then w.auditStart else Some(tasks[0].slot))
      && after.auditEnd == (if tasks == [] then w.auditEnd else Some(tasks[|tasks| - 1].slot))
  {
    hide Hand, EndSlot, StartKnown, CeilTo;
    var filled := FillTip(w, tip);
    if !Waits(filled, tip) {
      var at := Positioned(filled, tip, lag, n);
      HandSpan(key, at, EndSlot(at, tip), tip, lag, n, MAX_TASKS_PER_WINDOW);
    }
  }

  lemma OthersKeepSpan(c: Settings, w: Window, e: Event)
    requires c.n > 0 && !e.Took?
    ensures Step(c, w, e).auditStart == w.auditStart && Step(c, w, e).auditEnd == w.auditEnd
  {
    hide MaskOf, Comparable, AddAll;
  }

  /** The audited span of a window is from the first to the last slot it ever handed out. */
  lemma {:induction false} SpanMeans(c: Settings, es: seq<Event>, k: nat)
    requires c.n > 0 && k <= |es|
    ensures var w, handed := Run(c, es, k), Handed(c, es, k);
      && w.auditStart == (if handed == [] then None else Some(handed[0].slot))
      && w.auditEnd == (if handed == [] then None else Some(handed[|handed| - 1].slot))
  {
    hide Run, Handed, Step, Ready;
    Unfolded(c, es, k);
    if k > 0 {
      SpanMeans(c, es, k - 1);
      var w, e := Run(c, es, k - 1), es[k - 1];
      if e.Took? {
        TookStep(c, w, e);
        ReadySpan(c.key, w, e.tip, c.lag, c.n);
      } else {
        OthersKeepSpan(c, w, e);
      }
    }
  }

  /** After a tick of a window that hands out, nothing is kept for slots behind its cursor. */
  lemma PrunedMeans(key: WindowKey, w: Window, tip: nat, lag: nat, n: nat)
    requires n > 0 && !Waits(FillTip(w, tip), tip)
    ensures var after := Ready(key, w, tip, lag, n).0;
      forall slot | slot in after.sampled :: after.nextCheck.Some? ==> slot >= after.nextCheck.value
  {
    hide Hand, EndSlot, CeilTo, Waits, StartSlot;
  }
}
