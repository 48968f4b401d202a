/**
 Audit and checker together. Windows are opened, fed, closed and released by other threads while
 the checker holds tasks; every locked call is one atomic event, in any interleaving.
 */
module AuditSystem {
  import opened Options
  import opened AuditSpec
  import opened AuditLaws
  import opened Comparison
  import opened Auditing
  import opened CheckSpec
  import opened CheckLaws
  import opened Checking

  /** `tasks` are those the checker holds, queued or in hand; `first` is where each cursor started. */
  datatype System = System(
    windows: map<WindowKey, Window>,
    tasks: seq<SlotTask>,
    first: map<WindowKey, nat>,
    known: set<WindowKey>)

  const START := System(map[], [], map[], {})

  datatype Config = Config(lag: nat, n: nat, skipVotes: bool)

  datatype Event =
    | Opened(key: WindowKey, commitmentLag: nat, filters: nat)
    | Subscribed(key: WindowKey, tip: nat)
    | Delivered(key: WindowKey, d: Delivery)
    | Closed(key: WindowKey, tip: nat, now: nat)
    | Took(key: WindowKey, tip: nat)
    | CameBack(i: nat, fetched: Option<Fetched>)
    | Requeued(i: nat, attempts: nat)
    | Released(key: WindowKey)

  function FirstOf(s: System, key: WindowKey): Option<nat> {
    if key in s.first then Some(s.first[key]) else None
  }

  function Removed(tasks: seq<SlotTask>, i: nat): seq<SlotTask>
    requires i < |tasks|
  {
    tasks[..i] + tasks[i + 1..]
  }

  /** Connection numbers are never reused, and only tasks the checker holds come back. */
  ghost predicate Enabled(s: System, e: Event) {
    match e
    case Opened(key, _, _) => key !in s.known
    case CameBack(i, _) => i < |s.tasks|
    case Requeued(i, _) => i < |s.tasks|
    case _ => true
  }

  ghost function Step(c: Config, s: System, e: Event): System
    requires c.n > 0 && Enabled(s, e)
  {
    match e
    case Opened(key, commitmentLag, filters) =>
      s.(windows := s.windows[key := NewWindow(commitmentLag, filters)], known := s.known + {key})
    case Subscribed(key, tip) =>
      if key in s.windows then s.(windows := s.windows[key := Subscribe(s.windows[key], tip)]) else s
    case Delivered(key, d) =>
      if key in s.windows then s.(windows := s.windows[key := Deliver(s.windows[key], d, c.n, c.skipVotes)]) else s
    case Closed(key, tip, now) =>
      if key in s.windows then s.(windows := s.windows[key := Close(s.windows[key], tip, now)]) else s
    case Took(key, tip) =>
      if key in s.windows then
        var (w, tasks) := Ready(key, s.windows[key], tip, c.lag, c.n);
        var first := FirstAfter(s.windows[key], FirstOf(s, key), tip, c.n);
        s.(windows := s.windows[key := w], tasks := s.tasks + tasks,
           first := if first.Some? then s.first[key := first.value] else s.first)
      else s
    case CameBack(i, fetched) =>
      s.(windows := SettleOne(s.windows, s.tasks[i], fetched), tasks := Removed(s.tasks, i))
    case Requeued(i, attempts) => s.(tasks := s.tasks[i := s.tasks[i].(attempts := attempts)])
    case Released(key) => s.(windows := s.windows - {key})
  }

  /** Every window is in balance with the tasks the checker holds for it; its totals too, if `totals` says so. */
  ghost predicate SystemOk(s: System, n: nat, totals: bool)
    requires n > 0
  {
    && (forall key | key in s.windows ::
          key in s.known && WindowOk(s.windows[key], FirstOf(s, key), n, |TasksOf(s.tasks, key)|, totals))
    && (forall t | t in s.tasks :: t.key in s.known)
    && (forall key | key in s.first :: key in s.known)
  }

  lemma {:induction false} NoTasksOf(tasks: seq<SlotTask>, key: WindowKey)
    requires forall t | t in tasks :: t.key != key
    ensures TasksOf(tasks, key) == []
  {
    if tasks != [] {
      NoTasksOf(tasks[..|tasks| - 1], key);
    }
  }

  lemma NewWindowOk(commitmentLag: nat, filters: nat, n: nat, totals: bool)
    requires n > 0
    ensures WindowOk(NewWindow(commitmentLag, filters), None, n, 0, totals)
  {}

  lemma OthersOk(w: Window, first: Option<nat>, n: nat, out: nat, tip: nat, now: nat, d: Delivery, skipVotes: bool, totals: bool)
    requires n > 0 && WindowOk(w, first, n, out, totals)
    ensures WindowOk(Subscribe(w, tip), first, n, out, totals) && WindowOk(Close(w, tip, now), first, n, out, totals)
    ensures WindowOk(Deliver(w, d, n, skipVotes), first, n, out, totals)
  {
    hide CursorOk, Balanced;
    OthersLeaveCursor(w, first, n, tip, now, d, skipVotes);
  }

  lemma ReadyOk(key: WindowKey, w: Window, first: Option<nat>, tip: nat, lag: nat, n: nat, out: nat, totals: bool)
    requires n > 0 && WindowOk(w, first, n, out, totals)
    ensures var (after, tasks) := Ready(key, w, tip, lag, n);
      WindowOk(after, FirstAfter(w, first, tip, n), n, out + |tasks|, totals)
    ensures first.Some? ==> FirstAfter(w, first, tip, n) == first
  {
    ReadyLaws(key, w, first, tip, lag, n);
    ReadyTotals(key, w, tip, lag, n);
    hide CursorOk, Ready;
  }

  lemma {:induction false} HandTotals(key: WindowKey, w: Window, end: nat, tip: nat, lag: nat, n: nat, budget: nat)
    ensures Hand(key, w, end, tip, lag, n, budget).0.totals == w.totals
    ensures Hand(key, w, end, tip, lag, n, budget).0.filters == w.filters
    decreases budget
  {
    if budget > 0 && CanHand(w, end, tip, lag) {
      HandTotals(key, HandOne(w, n), end, tip, lag, n, budget - 1);
    }
  }

  lemma ReadyTotals(key: WindowKey, w: Window, tip: nat, lag: nat, n: nat)
    requires n > 0
    ensures Ready(key, w, tip, lag, n).0.totals == w.totals && Ready(key, w, tip, lag, n).0.filters == w.filters
  {
    hide Hand, EndSlot, StartKnown, CeilTo;
    var filled := FillTip(w, tip);
    if !Waits(filled, tip) {
      var at := Positioned(filled, tip, lag, n);
      HandTotals(key, at, EndSlot(at, tip), tip, lag, n, MAX_TASKS_PER_WINDOW);
    }
  }

  lemma RemovedCount(tasks: seq<SlotTask>, i: nat, key: WindowKey)
    requires i < |tasks|
    ensures |TasksOf(tasks, key)| == |TasksOf(Removed(tasks, i), key)| + if tasks[i].key == key then 1 else 0
  {
    var a, t, b := tasks[..i], tasks[i], tasks[i + 1..];
    assert tasks == a + [t] + b;
    TasksAppend(a + [t], b, key);
    TasksAppend(a, [t], key);
    TasksAppend(a, b, key);
    TasksOfOne([t], t.key, key);
  }

  lemma TookOk(c: Config, s: System, key: WindowKey, tip: nat, totals: bool)
    requires c.n > 0 && SystemOk(s, c.n, totals) && key in s.windows
    ensures SystemOk(Step(c, s, Took(key, tip)), c.n, totals)
  {
    hide Ready, WindowOk, TasksOf, FirstAfter;
    var tasks := Ready(key, s.windows[key], tip, c.lag, c.n).1;
    ReadyOk(key, s.windows[key], FirstOf(s, key), tip, c.lag, c.n, |TasksOf(s.tasks, key)|, totals);
    ReadyKeys(key, s.windows[key], tip, c.lag, c.n);
    forall other ensures |TasksOf(s.tasks + tasks, other)| == |TasksOf(s.tasks, other)| + if other == key then |tasks| else 0 {
      TasksAppend(s.tasks, tasks, other);
      TasksOfOne(tasks, key, other);
    }
  }

  lemma CameBackOk(c: Config, s: System, i: nat, fetched: Option<Fetched>, totals: bool)
    requires c.n > 0 && SystemOk(s, c.n, totals) && i < |s.tasks| && (totals ==> GoodBlock(fetched))
    ensures SystemOk(Step(c, s, CameBack(i, fetched)), c.n, totals)
  {
    hide WindowOk, TasksOf, OutcomeOf, GoodBlock;
    var t := s.tasks[i];
    forall key ensures |TasksOf(s.tasks, key)| == |TasksOf(Removed(s.tasks, i), key)| + if t.key == key then 1 else 0 {
      RemovedCount(s.tasks, i, key);
    }
    if t.key in s.windows {
      SettleOk(s.windows[t.key], FirstOf(s, t.key), c.n, |TasksOf(s.tasks, t.key)|, t, fetched, totals);
    }
    forall x | x in Removed(s.tasks, i) ensures x in s.tasks {
    }
  }

  lemma RequeuedOk(c: Config, s: System, i: nat, attempts: nat, totals: bool)
    requires c.n > 0 && SystemOk(s, c.n, totals) && i < |s.tasks|
    ensures SystemOk(Step(c, s, Requeued(i, attempts)), c.n, totals)
  {
    hide WindowOk, TasksOf;
    var after := s.tasks[i := s.tasks[i].(attempts := attempts)];
    forall key ensures |TasksOf(after, key)| == |TasksOf(s.tasks, key)| {
      SameCount(after, s.tasks, key);
    }
    forall x | x in after ensures x.key in s.known {
      var j :| 0 <= j < |after| && after[j] == x;
      assert s.tasks[j] in s.tasks;
    }
  }

  lemma OpenedOk(c: Config, s: System, key: WindowKey, commitmentLag: nat, filters: nat, totals: bool)
    requires c.n > 0 && SystemOk(s, c.n, totals) && key !in s.known
    ensures SystemOk(Step(c, s, Opened(key, commitmentLag, filters)), c.n, totals)
  {
    hide WindowOk, TasksOf;
    NewWindowOk(commitmentLag, filters, c.n, totals);
    NoTasksOf(s.tasks, key);
  }

  lemma StepOk(c: Config, s: System, e: Event, totals: bool)
    requires c.n > 0 && SystemOk(s, c.n, totals) && Enabled(s, e)
    requires totals && e.CameBack? ==> GoodBlock(e.fetched)
    ensures SystemOk(Step(c, s, e), c.n, totals)
  {
    hide Subscribe, Deliver, Close, WindowOk, TasksOf, Ready, SettleOne, NewWindow, FirstAfter, GoodBlock;
    match e
    case Opened(key, commitmentLag, filters) => OpenedOk(c, s, key, commitmentLag, filters, totals);
    case Took(key, tip) => if key in s.windows { TookOk(c, s, key, tip, totals); }
    case CameBack(i, fetched) => CameBackOk(c, s, i, fetched, totals);
    case Requeued(i, attempts) => RequeuedOk(c, s, i, attempts, totals);
    case Subscribed(key, tip) =>
      if key in s.windows {
        OthersOk(s.windows[key], FirstOf(s, key), c.n, |TasksOf(s.tasks, key)|, tip, 0, Delivery(0, 0, false, [], {}), false, totals);
      }
    case Delivered(key, d) =>
      if key in s.windows {
        OthersOk(s.windows[key], FirstOf(s, key), c.n, |TasksOf(s.tasks, key)|, 0, 0, d, c.skipVotes, totals);
      }
    case Closed(key, tip, now) =>
      if key in s.windows {
        OthersOk(s.windows[key], FirstOf(s, key), c.n, |TasksOf(s.tasks, key)|, tip, now, Delivery(0, 0, false, [], {}), false, totals);
      }
    case Released(key) =>
  }

  // ----- runs -----

  /** `trace` is a run: it starts empty, and each state follows from the one before by an event. */
  ghost predicate IsRun(c: Config, trace: seq<System>, es: seq<Event>)
    requires c.n > 0
  {
    && |trace| == |es| + 1 && trace[0] == START
    && forall k | 0 <= k < |es| :: Enabled(trace[k], es[k]) && trace[k + 1] == Step(c, trace[k], es[k])
  }

  /** The blocks fetched by the first `k` events have distinct signatures. */
  ghost predicate GoodBlocks(es: seq<Event>, k: nat)
    requires k <= |es|
  {
    forall j | 0 <= j < k && es[j].CameBack? :: GoodBlock(es[j].fetched)
  }

  /**
   In every reachable state all windows are in balance with the tasks the checker holds: their
   cursors and the tasks in flight whatever was fetched, their totals as well if the blocks had
   distinct signatures.
   */
  lemma {:induction false} AlwaysBalanced(c: Config, trace: seq<System>, es: seq<Event>, k: nat, totals: bool)
    requires c.n > 0 && IsRun(c, trace, es) && k < |trace| && (totals ==> GoodBlocks(es, k))
    ensures SystemOk(trace[k], c.n, totals)
  {
    hide SystemOk, Step, Enabled, GoodBlock;
    if k == 0 {
      StartOk(c.n, totals);
    } else {
      AlwaysBalanced(c, trace, es, k - 1, totals);
      StepOk(c, trace[k - 1], es[k - 1], totals);
    }
  }

  lemma StartOk(n: nat, totals: bool)
    requires n > 0
    ensures SystemOk(START, n, totals)
  {}

  /**
   What a window reports, whenever it is released: every sampled slot from its first cursor
   position up to the cursor as checked, skipped or unchecked, and totals in balance if the
   blocks had distinct signatures.
   */
  lemma ReportsBalance(c: Config, trace: seq<System>, es: seq<Event>, k: nat, key: WindowKey)
    requires c.n > 0 && IsRun(c, trace, es) && k < |trace| && key in trace[k].windows
    ensures var w := Finished(trace[k].windows[key]);
      && (GoodBlocks(es, k) ==> TotalsOk(w))
      && (w.nextCheck.Some? <==> key in trace[k].first)
      && (w.nextCheck.Some? ==>
            && w.nextCheck.value >= trace[k].first[key]
            && (w.nextCheck.value - trace[k].first[key]) / c.n == w.slotsChecked + w.slotsSkipped + w.slotsUnchecked)
      && trace[k].windows[key].inFlight == |TasksOf(trace[k].tasks, key)|
  {
    AlwaysBalanced(c, trace, es, k, GoodBlocks(es, k));
    hide IsRun, GoodBlocks;
    var w := trace[k].windows[key];
    assert WindowOk(w, FirstOf(trace[k], key), c.n, |TasksOf(trace[k].tasks, key)|, GoodBlocks(es, k));
    hide SystemOk;
    if key in trace[k].first {
      FinishedAccounts(w, FirstOf(trace[k], key), c.n);
    }
    hide CursorOk;
  }

  // ----- a whole tick of the checker -----

  lemma {:induction false} DueSplits(retries: seq<Retry>, now: nat, key: WindowKey)
    ensures Queued(NotDue(retries, now), key) + |TasksOf(Due(retries, now), key)| == Queued(retries, key)
  {
    if retries != [] {
      var front, r := retries[..|retries| - 1], retries[|retries| - 1];
      DueSplits(front, now, key);
      QueuedOne(front, r, key);
      QueuedOne(NotDue(front, now), r, key);
      TasksAppend(Due(front, now), if r.notBefore <= now then [r.task] else [], key);
      TasksOfOne([r.task], r.task.key, key);
      TasksOfOne([], r.task.key, key);
      hide TasksOf, Queued;
      assert front + [r] == retries;
      assert NotDue(front, now) + [] == NotDue(front, now);
    } else {
      assert TasksIn(NotDue(retries, now)) == TasksIn(retries);
    }
  }

  lemma QueuedOne(retries: seq<Retry>, r: Retry, key: WindowKey)
    ensures Queued(retries + [r], key) == Queued(retries, key) + if r.task.key == key then 1 else 0
  {
    assert TasksIn(retries + [r]) == TasksIn(retries) + [r.task];
    TasksAppend(TasksIn(retries), [r.task], key);
    TasksOfOne([r.task], r.task.key, key);
  }

  lemma {:induction false} DueMembers(retries: seq<Retry>, now: nat)
    requires forall i | 0 <= i < |retries| :: retries[i].task.attempts < MAX_ATTEMPTS
    ensures forall t | t in Due(retries, now) :: t.attempts < MAX_ATTEMPTS
    ensures forall i | 0 <= i < |NotDue(retries, now)| :: NotDue(retries, now)[i].task.attempts < MAX_ATTEMPTS
  {
    if retries != [] {
      DueMembers(retries[..|retries| - 1], now);
    }
  }

  lemma {:induction false} OwnTasks(tasks: seq<SlotTask>, t: SlotTask)
    requires t in tasks
    ensures t in TasksOf(tasks, t.key)
  {
    if t != tasks[|tasks| - 1] {
      OwnTasks(tasks[..|tasks| - 1], t);
    }
  }

  /** Tasks just handed out were never attempted. */
  lemma HandedAreNew(windows: map<WindowKey, Window>, after: map<WindowKey, Window>, handed: seq<SlotTask>, tip: nat, lag: nat, n: nat)
    requires n > 0 && Taken(windows, after, handed, {}, tip, lag, n)
    ensures forall t | t in handed :: t.attempts == 0
  {
    hide Ready, TasksOf;
    forall t | t in handed ensures t.attempts == 0 {
      OwnTasks(handed, t);
      assert t in TasksOf(handed, t.key) && t.key in windows;
      ReadyKeys(t.key, windows[t.key], tip, lag, n);
    }
  }

  /** A tick keeps the checker's limits and leaves each window in balance with the queue. */
  lemma TickKeepsBalance(d: Desk, handed: seq<SlotTask>, c: Config, tip: nat, now: nat, w: World, key: WindowKey, first: Option<nat>, totals: bool)
    requires c.n > 0 && DeskOk(d) && (totals ==> GoodCache(d.cache) && GoodWorld(w)) && key in d.windows
    requires WindowOk(d.windows[key], first, c.n, Queued(d.retries, key), totals)
    requires Taken(d.windows, HandedWindows(d.windows, tip, c.lag, c.n), handed, {}, tip, c.lag, c.n)
    ensures var start := Desk(HandedWindows(d.windows, tip, c.lag, c.n), NotDue(d.retries, now), d.cache, d.backoff, 0);
      var after := Work(start, handed + Due(d.retries, now), w);
      && DeskOk(after) && (totals ==> GoodCache(after.cache))
      && key in after.windows
      && WindowOk(after.windows[key], FirstAfter(d.windows[key], first, tip, c.n), c.n, Queued(after.retries, key), totals)
  {
    hide Ready, WindowOk, GoodWorld, Queued, TasksOf, FirstAfter, Work, GoodCache;
    var start := Desk(HandedWindows(d.windows, tip, c.lag, c.n), NotDue(d.retries, now), d.cache, d.backoff, 0);
    HandedAreNew(d.windows, HandedWindows(d.windows, tip, c.lag, c.n), handed, tip, c.lag, c.n);
    ReadyOk(key, d.windows[key], first, tip, c.lag, c.n, Queued(d.retries, key), totals);
    DueSplits(d.retries, now, key);
    DueMembers(d.retries, now);
    TasksAppend(handed, Due(d.retries, now), key);
    assert DeskOk(start);
    hide DeskOk;
    WorkLaws(start, handed + Due(d.retries, now), w, key, FirstAfter(d.windows[key], first, tip, c.n), c.n, totals);
  }

  /** At shutdown no task is left open: each is on record, and the window accounts for all its slots. */
  lemma ShutdownAccounts(windows: map<WindowKey, Window>, retries: seq<Retry>, n: nat, key: WindowKey, first: Option<nat>, totals: bool)
    requires n > 0 && key in windows && WindowOk(windows[key], first, n, Queued(retries, key), totals)
    ensures var settled := SettleAll(windows, TasksIn(retries), None);
      && key in settled && settled[key].inFlight == 0 && Finished(settled[key]) == settled[key]
      && settled[key].slotsUnchecked == windows[key].slotsUnchecked + Queued(retries, key)
      && CursorOk(settled[key], first, n) && (totals ==> TotalsOk(settled[key]))
  {
    hide CursorOk, TotalsOk, TasksOf, SettleAll;
    SettleAllOk(windows, TasksIn(retries), None, key, first, n, 0, totals);
    SettleAllCounts(windows, TasksIn(retries), None, key);
  }
}
