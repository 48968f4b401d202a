/**
 The life of one window: what is handed to the checker is in order, and carries the deliveries
 of its slot.
 */
module WindowRuns {
  import opened Options
  import opened AuditSpec
  import opened AuditLaws

  datatype Settings = Settings(key: WindowKey, lag: nat, n: nat, skipVotes: bool, commitmentLag: nat, filters: nat)

  datatype Event =
    | Subscribed(tip: nat)
    | Delivered(d: Delivery)
    | Took(tip: nat)
    | Settled(o: Outcome)
    | Closed(tip: nat, now: nat)

  function Step(c: Settings, w: Window, e: Event): Window
    requires c.n > 0
  {
    match e
    case Subscribed(tip) => Subscribe(w, tip)
    case Delivered(d) => Deliver(w, d, c.n, c.skipVotes)
    case Took(tip) => Ready(c.key, w, tip, c.lag, c.n).0
    case Settled(o) => Settle(w, o)
    case Closed(tip, now) => Close(w, tip, now)
  }

  /** The window after the first `k` events. */
  function Run(c: Settings, es: seq<Event>, k: nat): Window
    requires c.n > 0 && k <= |es|
  {
    if k == 0 then NewWindow(c.commitmentLag, c.filters) else Step(c, Run(c, es, k - 1), es[k - 1])
  }

  /** The tasks event `k` hands out. */
  function Batch(c: Settings, es: seq<Event>, k: nat): seq<SlotTask>
    requires c.n > 0 && k < |es|
  {
    if es[k].Took? then Ready(c.key, Run(c, es, k), es[k].tip, c.lag, c.n).1 else []
  }

  /** All tasks handed out by the first `k` events. */
  function Handed(c: Settings, es: seq<Event>, k: nat): seq<SlotTask>
    requires c.n > 0 && k <= |es|
  {
    if k == 0 then [] else Handed(c, es, k - 1) + Batch(c, es, k - 1)
  }

  /** One subscription, before any delivery, and only tasks that are out come back. */
  ghost predicate Orderly(c: Settings, es: seq<Event>)
    requires c.n > 0
  {
    forall k | 0 <= k < |es| ::
      && (es[k].Subscribed? ==> !Run(c, es, k).subscribed)
      && (es[k].Delivered? ==> Run(c, es, k).subscribed)
      && (es[k].Settled? ==> Run(c, es, k).inFlight > 0)
  }

  lemma OrderlyAt(c: Settings, es: seq<Event>, k: nat)
    requires c.n > 0 && k < |es| && Orderly(c, es)
    ensures es[k].Subscribed? ==> !Run(c, es, k).subscribed
    ensures es[k].Delivered? ==> Run(c, es, k).subscribed
    ensures es[k].Settled? ==> Run(c, es, k).inFlight > 0
  {
    hide Run;
  }

  /** The recursions one event at a time, for proofs that hide them. */
  lemma Unfolded(c: Settings, es: seq<Event>, k: nat)
    requires c.n > 0 && k <= |es|
    ensures k == 0 ==> Run(c, es, k) == NewWindow(c.commitmentLag, c.filters) && Handed(c, es, k) == []
    ensures k > 0 ==>
      && Run(c, es, k) == Step(c, Run(c, es, k - 1), es[k - 1])
      && Handed(c, es, k) == Handed(c, es, k - 1) + Batch(c, es, k - 1)
  {}

  // ----- the cursor over a run -----

  /** Where the cursor of the run started. */
  ghost function First(c: Settings, es: seq<Event>, k: nat): Option<nat>
    requires c.n > 0 && k <= |es|
  {
    if k == 0 then None else
    if es[k - 1].Took? then FirstAfter(Run(c, es, k - 1), First(c, es, k - 1), es[k - 1].tip, c.n)
    else First(c, es, k - 1)
  }

  lemma StepCursor(c: Settings, w: Window, first: Option<nat>, e: Event)
    requires c.n > 0 && CursorOk(w, first, c.n) && (e.Settled? ==> w.inFlight > 0)
    ensures CursorOk(Step(c, w, e), if e.Took? then FirstAfter(w, first, e.tip, c.n) else first, c.n)
  {
    hide CursorOk, Ready, Deliver, FirstAfter;
    match e
    case Subscribed(tip) => OthersLeaveCursor(w, first, c.n, tip, 0, Delivery(0, 0, false, [], {}), c.skipVotes);
    case Delivered(d) => OthersLeaveCursor(w, first, c.n, 0, 0, d, c.skipVotes);
    case Took(tip) => ReadyLaws(c.key, w, first, tip, c.lag, c.n);
    case Settled(o) => SettleLaws(w, first, c.n, o);
    case Closed(tip, now) => OthersLeaveCursor(w, first, c.n, tip, now, Delivery(0, 0, false, [], {}), c.skipVotes);
  }

  /** In every state of an orderly run each sampled slot the cursor passed is accounted for exactly once. */
  lemma {:induction false} CursorConserved(c: Settings, es: seq<Event>, k: nat)
    requires c.n > 0 && k <= |es| && Orderly(c, es)
    ensures CursorOk(Run(c, es, k), First(c, es, k), c.n)
  {
    if k > 0 {
      CursorConserved(c, es, k - 1);
      hide CursorOk, Step, FirstAfter;
      StepCursor(c, Run(c, es, k - 1), First(c, es, k - 1), es[k - 1]);
    }
  }

  // ----- what was handed out -----

  /** Sampled slots in increasing order, all behind the cursor. */
  ghost predicate InOrder(c: Settings, tasks: seq<SlotTask>, cursor: Option<nat>)
    requires c.n > 0
  {
    && (cursor.None? ==> tasks == [])
    && (forall i | 0 <= i < |tasks| ::
          tasks[i].key == c.key && tasks[i].slot % c.n == 0 && cursor.Some? && tasks[i].slot < cursor.value)
    && (forall i, j | 0 <= i < j < |tasks| :: tasks[i].slot < tasks[j].slot)
  }

  lemma PastGrows(next: nat, n: nat, i: nat, j: nat)
    requires n > 0 && i <= j
    ensures Past(next, n, i) <= Past(next, n, j)
    ensures i < j ==> Past(next, n, i) < Past(next, n, j)
  {
    PastMore(next, n, i, j - i);
    if i < j {
      AtLeastOnce(n, j - i);
    }
  }

  lemma BatchInOrder(c: Settings, w: Window, first: Option<nat>, tip: nat)
    requires c.n > 0 && CursorOk(w, first, c.n)
    ensures var (after, batch) := Ready(c.key, w, tip, c.lag, c.n);
      && InOrder(c, batch, after.nextCheck)
      && (w.nextCheck.Some? ==>
            && after.nextCheck.Some? && w.nextCheck.value <= after.nextCheck.value
            && forall t | t in batch :: w.nextCheck.value <= t.slot)
      && (forall t | t in batch :: t.slot <= EndSlot(w, tip) && t.slot + c.lag <= tip)
      && |batch| <= MAX_TASKS_PER_WINDOW
  {
    hide Ready, CursorOk, Past;
    ReadyLaws(c.key, w, first, tip, c.lag, c.n);
    var (after, batch) := Ready(c.key, w, tip, c.lag, c.n);
    FillTipCursor(w, first, tip, c.n);
    if !Waits(FillTip(w, tip), tip) {
      var next := HandFrom(w, tip, c.lag, c.n);
      HandFromMultiple(w, first, tip, c.lag, c.n);
      hide HandFrom;
      PastNone(next, c.n);
      forall i: nat, j: nat | i < j <= |batch| ensures Past(next, c.n, i) < Past(next, c.n, j) {
        PastGrows(next, c.n, i, j);
      }
      forall i: nat | i <= |batch| ensures Past(next, c.n, i) % c.n == 0 && next <= Past(next, c.n, i) {
        PastMultiple(next, c.n, i);
        PastGrows(next, c.n, 0, i);
      }
    }
  }

  lemma HandFromMultiple(w: Window, first: Option<nat>, tip: nat, lag: nat, n: nat)
    requires n > 0 && CursorOk(w, first, n) && !Waits(FillTip(w, tip), tip)
    ensures HandFrom(w, tip, lag, n) % n == 0
  {
    hide CeilTo, Past;
    var filled := FillTip(w, tip);
    CeilMultiple(StartSlot(filled).value, n);
    CeilMultiple(Monus(tip, lag + MAX_CURSOR_LAG_SLOTS), n);
    if first.Some? {
      PastMultiple(first.value, n, Accounted(w));
    }
  }

  lemma OtherStepsKeepCursor(c: Settings, w: Window, e: Event)
    requires c.n > 0 && !e.Took?
    ensures Step(c, w, e).nextCheck == w.nextCheck
  {}

  /** Over a whole run the slots handed to the checker are strictly increasing multiples of n. */
  lemma {:induction false} HandedInOrder(c: Settings, es: seq<Event>, k: nat)
    requires c.n > 0 && k <= |es| && Orderly(c, es)
    ensures InOrder(c, Handed(c, es, k), Run(c, es, k).nextCheck)
  {
    hide Run, Handed, Ready, Orderly, Step;
    Unfolded(c, es, k);
    if k > 0 {
      HandedInOrder(c, es, k - 1);
      CursorConserved(c, es, k - 1);
      var w, first, e := Run(c, es, k - 1), First(c, es, k - 1), es[k - 1];
      if e.Took? {
        BatchInOrder(c, w, first, e.tip);
        TookStep(c, w, e);
      } else {
        OtherStepsKeepCursor(c, w, e);
      }
    }
  }

  lemma TookStep(c: Settings, w: Window, e: Event)
    requires c.n > 0 && e.Took?
    ensures Step(c, w, e) == Ready(c.key, w, e.tip, c.lag, c.n).0
  {}

  /** Every tick hands out at most 32 slots, up to the end of the audited range and `lag` behind the tip. */
  lemma BatchLimits(c: Settings, es: seq<Event>, k: nat)
    requires c.n > 0 && k < |es| && Orderly(c, es)
    ensures |Batch(c, es, k)| <= MAX_TASKS_PER_WINDOW
    ensures forall t | t in Batch(c, es, k) ::
      es[k].Took? && t.slot <= EndSlot(Run(c, es, k), es[k].tip) && t.slot + c.lag <= es[k].tip
  {
    hide Run, Ready, Orderly;
    CursorConserved(c, es, k);
    if es[k].Took? {
      BatchInOrder(c, Run(c, es, k), First(c, es, k), es[k].tip);
    }
  }
}
