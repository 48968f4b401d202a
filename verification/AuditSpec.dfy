/** One window of the filter audit as a value: deliveries, the checking cursor, and its counters. */
module AuditSpec {
  import opened Common
  import opened Options

  const START_MARGIN: nat := 2
  const END_MARGIN: nat := 3
  const START_WITHOUT_DELIVERY_SLOTS: nat := 10
  const MAX_CURSOR_LAG_SLOTS: nat := 600
  const MAX_TASKS_PER_WINDOW: nat := 32

  datatype WindowKey = WindowKey(source: nat, connection: nat)

  type Signature = nat
  /** The filters a `u32` mask has a bit for. */
  type Mask = set<nat>
  type Deliveries = map<Signature, Mask>

  datatype CheckTotals = CheckTotals(
    expected: nat, delivered: nat, matched: nat, missed: nat, extraInBlock: nat, extraNotInBlock: nat)

  const NO_TOTALS := CheckTotals(0, 0, 0, 0, 0, 0)

  function AddTotals(a: CheckTotals, b: CheckTotals): CheckTotals {
    CheckTotals(a.expected + b.expected, a.delivered + b.delivered, a.matched + b.matched, a.missed + b.missed,
                a.extraInBlock + b.extraInBlock, a.extraNotInBlock + b.extraNotInBlock)
  }

  datatype Window = Window(
    commitmentLag: nat,
    filters: nat,
    tipOpen: Option<nat>,
    subscribed: bool,
    tipClose: Option<nat>,
    endedAt: Option<nat>,
    delivered: nat,
    firstDelivered: Option<nat>,
    maxDelivered: nat,
    duplicates: nat,
    sampled: map<nat, Deliveries>,
    nextCheck: Option<nat>,
    inFlight: nat,
    totals: seq<CheckTotals>,
    slotsChecked: nat,
    slotsSkipped: nat,
    slotsUnchecked: nat,
    auditStart: Option<nat>,
    auditEnd: Option<nat>)

  function NewWindow(commitmentLag: nat, filters: nat): Window {
    Window(commitmentLag, filters, None, false, None, None, 0, None, 0, 0, map[], None, 0,
           seq(filters, _ => NO_TOTALS), 0, 0, 0, None, None)
  }

  datatype SlotTask = SlotTask(key: WindowKey, slot: nat, deliveries: Deliveries, attempts: nat)

  /** `u64::saturating_sub` */
  function Monus(a: nat, b: nat): nat { if a >= b then a - b else 0 }

  /** `x.div_ceil(n) * n` */
  function CeilTo(x: nat, n: nat): nat
    requires n > 0
  {
    (x + n - 1) / n * n
  }

  // ----- the audited range -----

  function StartSlot(w: Window): Option<nat> {
    if w.tipOpen.None? then None else Some(Max(w.tipOpen.value, w.firstDelivered.GetOr(0)) + START_MARGIN)
  }

  predicate StartKnown(w: Window, tip: nat) {
    || w.firstDelivered.Some?
    || w.endedAt.Some?
    || (w.tipOpen.Some? && tip >= w.tipOpen.value + START_WITHOUT_DELIVERY_SLOTS)
  }

  function EndSlot(w: Window, tip: nat): nat {
    var end := Monus(w.tipClose.GetOr(tip), END_MARGIN + w.commitmentLag);
    if w.delivered > 0 then Min(end, Monus(w.maxDelivered, 1)) else end
  }

  // ----- what happens to a window -----

  /** Tip 0 means that no slot was seen yet. */
  function Subscribe(w: Window, tip: nat): Window {
    w.(tipOpen := if tip > 0 then Some(tip) else None, subscribed := true)
  }

  function Close(w: Window, tip: nat, now: nat): Window {
    w.(tipClose := Some(tip), endedAt := Some(now))
  }

  /** A delivered transaction: which filter each tag names, and the filters that match it. */
  datatype Delivery = Delivery(slot: nat, signature: Signature, isVote: bool, tags: seq<Option<nat>>, matching: Mask)

  function MaskOf(d: Delivery, filters: nat): Mask {
    if d.tags == [] && filters > 1 then d.matching
    else if d.tags == [] then {0}
    else set i | i in d.tags && i.Some? :: i.value
  }

  /** Whether deliveries of this kind are compared with the block at all. */
  predicate Comparable(d: Delivery, n: nat, skipVotes: bool)
    requires n > 0
  {
    !(skipVotes && d.isVote) && d.slot % n == 0
  }

  function Noted(w: Window, d: Delivery): Window {
    w.(delivered := w.delivered + 1,
       firstDelivered := if w.firstDelivered.Some? then w.firstDelivered else Some(d.slot),
       tipOpen := if w.subscribed && w.tipOpen.None? && d.slot > 0 then Some(d.slot) else w.tipOpen,
       maxDelivered := Max(w.maxDelivered, d.slot))
  }

  function SampledAt(sampled: map<nat, Deliveries>, slot: nat): Deliveries {
    if slot in sampled then sampled[slot] else map[]
  }

  function Deliver(w: Window, d: Delivery, n: nat, skipVotes: bool): Window
    requires n > 0
  {
    var noted := Noted(w, d);
    if Comparable(d, n, skipVotes) && StartSlot(noted).Some? && d.slot >= StartSlot(noted).value then
      var at := SampledAt(noted.sampled, d.slot);
      noted.(sampled := noted.sampled[d.slot := at[d.signature := MaskOf(d, w.filters)]],
             duplicates := noted.duplicates + if d.signature in at then 1 else 0)
    else noted
  }

  // ----- handing out slots -----

  function FillTip(w: Window, tip: nat): Window {
    if w.subscribed && w.tipOpen.None? && tip > 0 then w.(tipOpen := Some(tip)) else w
  }

  /** The cursor is not set and the start may still move, or there is no start. */
  predicate Waits(w: Window, tip: nat) {
    (w.nextCheck.None? && !StartKnown(w, tip)) || StartSlot(w).None?
  }

  /** Where the cursor stands before it is moved up to the tip. */
  function Cursor(w: Window, n: nat): nat
    requires n > 0 && StartSlot(w).Some?
  {
    w.nextCheck.GetOr(CeilTo(StartSlot(w).value, n))
  }

  /** Sets the cursor; one too far behind the tip jumps, and what it jumps over is unchecked. */
  function Positioned(w: Window, tip: nat, lag: nat, n: nat): Window
    requires n > 0 && StartSlot(w).Some?
  {
    var next, floor := Cursor(w, n), Monus(tip, lag + MAX_CURSOR_LAG_SLOTS);
    if next < floor then
      w.(nextCheck := Some(CeilTo(floor, n)), slotsUnchecked := w.slotsUnchecked + Monus(CeilTo(floor, n), next) / n)
    else w.(nextCheck := Some(next))
  }

  predicate CanHand(w: Window, end: nat, tip: nat, lag: nat) {
    w.nextCheck.Some? && w.nextCheck.value <= end && w.nextCheck.value + lag <= tip
  }

  function TaskAt(key: WindowKey, w: Window): SlotTask
    requires w.nextCheck.Some?
  {
    SlotTask(key, w.nextCheck.value, SampledAt(w.sampled, w.nextCheck.value), 0)
  }

  function HandOne(w: Window, n: nat): Window
    requires w.nextCheck.Some?
  {
    var slot := w.nextCheck.value;
    w.(nextCheck := Some(slot + n),
       sampled := w.sampled - {slot},
       inFlight := w.inFlight + 1,
       auditStart := if w.auditStart.Some? then w.auditStart else Some(slot),
       auditEnd := Some(slot))
  }

  /** Hands out slots up to `end`, `lag` behind the tip, at most `budget`. */
  function Hand(key: WindowKey, w: Window, end: nat, tip: nat, lag: nat, n: nat, budget: nat): (Window, seq<SlotTask>)
    decreases budget
  {
    if budget == 0 || !CanHand(w, end, tip, lag) then (w, [])
    else
      var (after, tasks) := Hand(key, HandOne(w, n), end, tip, lag, n, budget - 1);
      (after, [TaskAt(key, w)] + tasks)
  }

  /** Forgets what was delivered for slots behind the cursor. */
  function Prune(w: Window): Window {
    w.(sampled := map s | s in w.sampled && s >= w.nextCheck.GetOr(0) :: w.sampled[s])
  }

  function Ready(key: WindowKey, w: Window, tip: nat, lag: nat, n: nat): (Window, seq<SlotTask>)
    requires n > 0
  {
    var filled := FillTip(w, tip);
    if Waits(filled, tip) then (filled, []) else
    var at := Positioned(filled, tip, lag, n);
    var (after, tasks) := Hand(key, at, EndSlot(at, tip), tip, lag, n, MAX_TASKS_PER_WINDOW);
    (Prune(after), tasks)
  }

  // ----- results of a check -----

  datatype Outcome = Unchecked | Skipped(results: seq<CheckTotals>) | Checked(results: seq<CheckTotals>)

  function AddAll(a: seq<CheckTotals>, b: seq<CheckTotals>): seq<CheckTotals> {
    seq(|a|, i requires 0 <= i < |a| => if i < |b| then AddTotals(a[i], b[i]) else a[i])
  }

  /** A task of this window came back. */
  function Settle(w: Window, o: Outcome): Window {
    var back := w.(inFlight := Monus(w.inFlight, 1));
    match o
    case Unchecked => back.(slotsUnchecked := w.slotsUnchecked + 1)
    case Skipped(results) => back.(slotsSkipped := w.slotsSkipped + 1, totals := AddAll(w.totals, results))
    case Checked(results) => back.(slotsChecked := w.slotsChecked + 1, totals := AddAll(w.totals, results))
  }

  /** The window as it is reported: tasks still out count as unchecked. */
  function Finished(w: Window): Window { w.(slotsUnchecked := w.slotsUnchecked + w.inFlight) }

  predicate ChecksDone(w: Window, tip: nat) {
    w.inFlight == 0 &&
    (StartSlot(w).None? || w.nextCheck.GetOr(StartSlot(w).value) > EndSlot(w, tip))
  }

  predicate LatencyFinal(w: Window, floor: nat) {
    w.delivered == 0 || w.tipClose.None? || floor > w.tipClose.value
  }

  predicate Stale(w: Window, now: nat, giveUp: nat) {
    w.endedAt.Some? && now >= w.endedAt.value && now - w.endedAt.value >= giveUp
  }

  /** Whether the window is over and reported. */
  predicate Releasable(w: Window, tip: nat, floor: nat, now: nat, giveUp: nat) {
    w.endedAt.Some? && ((ChecksDone(w, tip) && LatencyFinal(w, floor)) || Stale(w, now, giveUp))
  }
}
