/** The open windows of all rotating sources, updated in place under one lock. */
module Auditing {
  import opened Common
  import opened Options
  import opened AuditSpec

  /** The tasks of one window, in order. */
  function TasksOf(tasks: seq<SlotTask>, key: WindowKey): seq<SlotTask> {
    if tasks == [] then [] else
    TasksOf(tasks[..|tasks| - 1], key) + if tasks[|tasks| - 1].key == key then [tasks[|tasks| - 1]] else []
  }

  lemma {:induction false} TasksAppend(a: seq<SlotTask>, b: seq<SlotTask>, key: WindowKey)
    ensures TasksOf(a + b, key) == TasksOf(a, key) + TasksOf(b, key)
  {
    if b == [] {
      assert a + b == a;
    } else {
      assert (a + b)[..|a + b| - 1] == a + b[..|b| - 1];
      TasksAppend(a, b[..|b| - 1], key);
    }
  }

  lemma {:induction false} TasksOfOne(tasks: seq<SlotTask>, key: WindowKey, other: WindowKey)
    requires forall t | t in tasks :: t.key == key
    ensures TasksOf(tasks, other) == if other == key then tasks else []
  {
    if tasks != [] {
      TasksOfOne(tasks[..|tasks| - 1], key, other);
    }
  }

  lemma {:induction false} HandKeys(key: WindowKey, w: Window, end: nat, tip: nat, lag: nat, n: nat, budget: nat)
    ensures forall t | t in Hand(key, w, end, tip, lag, n, budget).1 :: t.key == key && t.attempts == 0
    decreases budget
  {
    if budget > 0 && CanHand(w, end, tip, lag) {
      HandKeys(key, HandOne(w, n), end, tip, lag, n, budget - 1);
      hide CanHand;
    }
  }

  lemma ReadyKeys(key: WindowKey, w: Window, tip: nat, lag: nat, n: nat)
    requires n > 0
    ensures forall t | t in Ready(key, w, tip, lag, n).1 :: t.key == key && t.attempts == 0
  {
    hide Hand, Positioned, EndSlot, StartKnown, Prune;
    var filled := FillTip(w, tip);
    if !Waits(filled, tip) {
      var at := Positioned(filled, tip, lag, n);
      HandKeys(key, at, EndSlot(at, tip), tip, lag, n, MAX_TASKS_PER_WINDOW);
    }
  }

  /** All windows but those in `todo` handed out their ready slots. */
  ghost predicate Taken(before: map<WindowKey, Window>, after: map<WindowKey, Window>, out: seq<SlotTask>, todo: set<WindowKey>,
                        tip: nat, lag: nat, n: nat)
    requires n > 0
  {
    && after.Keys == before.Keys
    && (forall key | key in before :: after[key] == if key in todo then before[key] else Ready(key, before[key], tip, lag, n).0)
    && (forall key ::
          TasksOf(out, key) == if key in before && key !in todo then Ready(key, before[key], tip, lag, n).1 else [])
  }

  lemma NothingTaken(before: map<WindowKey, Window>, tip: nat, lag: nat, n: nat)
    requires n > 0
    ensures Taken(before, before, [], before.Keys, tip, lag, n)
  {
    hide Ready;
  }

  lemma TakenMore(before: map<WindowKey, Window>, after: map<WindowKey, Window>, out: seq<SlotTask>, todo: set<WindowKey>,
                  key: WindowKey, tip: nat, lag: nat, n: nat)
    requires n > 0 && key in todo && key in after && Taken(before, after, out, todo, tip, lag, n)
    ensures var (w, tasks) := Ready(key, after[key], tip, lag, n);
      Taken(before, after[key := w], out + tasks, todo - {key}, tip, lag, n)
  {
    hide Ready, TasksOf;
    var tasks := Ready(key, after[key], tip, lag, n).1;
    ReadyKeys(key, after[key], tip, lag, n);
    forall other ensures TasksOf(out + tasks, other) == TasksOf(out, other) + if other == key then tasks else [] {
      TasksAppend(out, tasks, other);
      TasksOfOne(tasks, key, other);
    }
  }

  class FilterAudit {
    var windows: map<WindowKey, Window>
    const n: nat
    const skipVotes: bool

    constructor (n: nat, skipVotes: bool)
      ensures windows == map[] && this.n == n && this.skipVotes == skipVotes
    {
      windows := map[];
      this.n := n;
      this.skipVotes := skipVotes;
    }

    method Open(key: WindowKey, commitmentLag: nat, filters: nat)
      modifies this
      ensures windows == old(windows)[key := NewWindow(commitmentLag, filters)]
    {
      windows := windows[key := NewWindow(commitmentLag, filters)];
    }

    /** `tip` is the registry's highest slot, read before. */
    method Subscribed(key: WindowKey, tip: nat)
      modifies this
      ensures windows == if key in old(windows) then old(windows)[key := Subscribe(old(windows)[key], tip)] else old(windows)
    {
      if key in windows {
        var w := windows[key];
        windows := windows[key := w.(tipOpen := if tip > 0 then Some(tip) else None, subscribed := true)];
      }
    }

    method Close(key: WindowKey, tip: nat, now: nat)
      modifies this
      ensures windows == if key in old(windows) then old(windows)[key := AuditSpec.Close(old(windows)[key], tip, now)] else old(windows)
    {
      if key in windows {
        windows := windows[key := windows[key].(tipClose := Some(tip), endedAt := Some(now))];
      }
    }

    method OnDelivery(key: WindowKey, d: Delivery)
      requires n > 0
      modifies this
      ensures windows == if key in old(windows) then old(windows)[key := Deliver(old(windows)[key], d, n, skipVotes)] else old(windows)
    {
      if key !in windows {
        return;
      }
      var w := windows[key];
      w := w.(delivered := w.delivered + 1);
      if w.firstDelivered.None? {
        w := w.(firstDelivered := Some(d.slot));
      }
      if w.subscribed && w.tipOpen.None? && d.slot > 0 {
        w := w.(tipOpen := Some(d.slot));
      }
      w := w.(maxDelivered := Max(w.maxDelivered, d.slot));
      var mask := MaskOf(d, w.filters);
      var start := StartSlot(w);
      if !(skipVotes && d.isVote) && d.slot % n == 0 && start.Some? && d.slot >= start.value {
        var at := SampledAt(w.sampled, d.slot);
        if d.signature in at {
          w := w.(duplicates := w.duplicates + 1);
        }
        w := w.(sampled := w.sampled[d.slot := at[d.signature := mask]]);
      }
      windows := windows[key := w];
    }

    /** The slots of one window that are ready to be checked. */
    method ReadyOf(key: WindowKey, before: Window, tip: nat, lag: nat) returns (w: Window, out: seq<SlotTask>)
      requires n > 0
      ensures (w, out) == Ready(key, before, tip, lag, n)
    {
      hide CeilTo, Positioned, Hand;
      w, out := before, [];
      if w.subscribed && w.tipOpen.None? && tip > 0 {
        w := w.(tipOpen := Some(tip));
      }
      if w.nextCheck.None? && !StartKnown(w, tip) {
        return;
      }
      if StartSlot(w).None? {
        return;
      }
      var end := EndSlot(w, tip);
      w := Position(w, tip, lag);
      w, out := HandOut(key, w, end, tip, lag);
      w := w.(sampled := map s | s in w.sampled && s >= w.nextCheck.GetOr(0) :: w.sampled[s]);
    }

    /** Sets the cursor, or moves one that fell too far behind up to the tip. */
    method Position(before: Window, tip: nat, lag: nat) returns (w: Window)
      requires n > 0 && StartSlot(before).Some?
      ensures w == Positioned(before, tip, lag, n) && w.nextCheck.Some?
      ensures EndSlot(w, tip) == EndSlot(before, tip)
    {
      hide CeilTo;
      w := before;
      var next := if w.nextCheck.Some? then w.nextCheck.value else CeilTo(StartSlot(w).value, n);
      var floor := Monus(tip, lag + MAX_CURSOR_LAG_SLOTS);
      if next < floor {
        var jumped := CeilTo(floor, n);
        w := w.(slotsUnchecked := w.slotsUnchecked + Monus(jumped, next) / n);
        next := jumped;
      }
      w := w.(nextCheck := Some(next));
    }

    /** Hands out slot after slot until the range, the tip or the budget of one tick ends it. */
    method HandOut(key: WindowKey, before: Window, end: nat, tip: nat, lag: nat) returns (w: Window, out: seq<SlotTask>)
      requires n > 0 && before.nextCheck.Some?
      ensures (w, out) == Hand(key, before, end, tip, lag, n, MAX_TASKS_PER_WINDOW)
    {
      hide TaskAt;
      w, out := before, [];
      var handed := 0;
      ghost var (last, all) := Hand(key, before, end, tip, lag, n, MAX_TASKS_PER_WINDOW);
      assert [] + all == all;
      while w.nextCheck.value <= end && w.nextCheck.value + lag <= tip && handed < MAX_TASKS_PER_WINDOW
        invariant handed <= MAX_TASKS_PER_WINDOW && w.nextCheck.Some?
        invariant var (after, tasks) := Hand(key, w, end, tip, lag, n, MAX_TASKS_PER_WINDOW - handed);
          Hand(key, before, end, tip, lag, n, MAX_TASKS_PER_WINDOW) == (after, out + tasks)
        decreases MAX_TASKS_PER_WINDOW - handed
      {
        handed := handed + 1;
        var slot := w.nextCheck.value;
        ghost var (after, tasks) := Hand(key, HandOne(w, n), end, tip, lag, n, MAX_TASKS_PER_WINDOW - handed);
        out := TakeTask(key, w, tasks, out);
        w := w.(nextCheck := Some(slot + n),
                sampled := w.sampled - {slot},
                inFlight := w.inFlight + 1,
                auditStart := if w.auditStart.Some? then w.auditStart else Some(slot),
                auditEnd := Some(slot));
      }
      assert out + [] == out;
    }

    method TakeTask(key: WindowKey, w: Window, ghost tasks: seq<SlotTask>, before: seq<SlotTask>) returns (out: seq<SlotTask>)
      requires w.nextCheck.Some?
      ensures out == before + [TaskAt(key, w)]
      ensures before + ([TaskAt(key, w)] + tasks) == out + tasks
    {
      var slot := w.nextCheck.value;
      out := before + [SlotTask(key, slot, SampledAt(w.sampled, slot), 0)];
    }

    /** The ready slots of all windows, each window's in order, the windows in no particular order. */
    method TakeReady(tip: nat, lag: nat) returns (out: seq<SlotTask>)
      requires n > 0
      modifies this
      ensures Taken(old(windows), windows, out, {}, tip, lag, n)
    {
      hide Ready, TasksOf, Taken;
      var todo := windows.Keys;
      out := [];
      NothingTaken(windows, tip, lag, n);
      while todo != {}
        invariant todo <= windows.Keys == old(windows).Keys
        invariant Taken(old(windows), windows, out, todo, tip, lag, n)
        decreases todo
      {
        var key :| key in todo;
        var w, tasks := ReadyOf(key, windows[key], tip, lag);
        TakenMore(old(windows), windows, out, todo, key, tip, lag, n);
        windows := windows[key := w];
        out := out + tasks;
        todo := todo - {key};
      }
    }

    /** What the checker does to a window when a task of it comes back. */
    method SettleTask(key: WindowKey, o: Outcome)
      modifies this
      ensures windows == Settled(old(windows), key, o)
    {
      if key !in windows {
        return;
      }
      var w := windows[key];
      w := w.(inFlight := Monus(w.inFlight, 1));
      match o {
        case Unchecked => w := w.(slotsUnchecked := w.slotsUnchecked + 1);
        case Skipped(results) => w := w.(slotsSkipped := w.slotsSkipped + 1, totals := AddAll(w.totals, results));
        case Checked(results) => w := w.(slotsChecked := w.slotsChecked + 1, totals := AddAll(w.totals, results));
      }
      windows := windows[key := w];
    }

    /** Removes the windows that are over; `tip` and `floor` come from the registry. */
    method TakeFinished(tip: nat, floor: nat, now: nat, giveUp: nat) returns (done: map<WindowKey, Window>)
      modifies this
      ensures done == map key | key in old(windows) && Releasable(old(windows)[key], tip, floor, now, giveUp) :: Finished(old(windows)[key])
      ensures windows == map key | key in old(windows) && !Releasable(old(windows)[key], tip, floor, now, giveUp) :: old(windows)[key]
    {
      hide Finished, Releasable;
      var over := set key | key in windows && Releasable(windows[key], tip, floor, now, giveUp);
      done := map key | key in over :: Finished(windows[key]);
      windows := windows - over;
    }

    method TakeAll() returns (done: map<WindowKey, Window>)
      modifies this
      ensures done == map key | key in old(windows) :: Finished(old(windows)[key])
      ensures windows == map[]
    {
      done := map key | key in windows :: Finished(windows[key]);
      windows := map[];
    }
  }

  /** A window that was released meanwhile is left alone. */
  function Settled(windows: map<WindowKey, Window>, key: WindowKey, o: Outcome): map<WindowKey, Window> {
    if key in windows then windows[key := Settle(windows[key], o)] else windows
  }
}
