/** The checker thread: one tick takes what is ready, works through it slot by slot, and reports finished windows. */
module Checking {
  import opened Common
  import opened Options
  import opened AuditSpec
  import opened AuditLaws
  import opened Comparison
  import opened Auditing
  import opened CheckSpec
  import opened CheckLaws

  /** All windows after their ready slots were handed out. */
  ghost function HandedWindows(windows: map<WindowKey, Window>, tip: nat, lag: nat, n: nat): map<WindowKey, Window>
    requires n > 0
  {
    map key | key in windows :: Ready(key, windows[key], tip, lag, n).0
  }

  function Due(retries: seq<Retry>, now: nat): seq<SlotTask> {
    if retries == [] then [] else
    Due(retries[..|retries| - 1], now) + if retries[|retries| - 1].notBefore <= now then [retries[|retries| - 1].task] else []
  }

  function NotDue(retries: seq<Retry>, now: nat): seq<Retry> {
    if retries == [] then [] else
    NotDue(retries[..|retries| - 1], now) + if retries[|retries| - 1].notBefore <= now then [] else [retries[|retries| - 1]]
  }

  class Worker {
    const audit: FilterAudit
    const lag: nat
    var retries: seq<Retry>
    var cache: seq<CacheEntry>
    var backoff: Option<Backoff>
    var calls: nat

    ghost function View(): Desk
      reads this, audit
    {
      Desk(audit.windows, retries, cache, backoff, calls)
    }

    constructor (audit: FilterAudit, lag: nat)
      ensures this.audit == audit && this.lag == lag
      ensures View() == Desk(audit.windows, [], [], None, 0)
    {
      this.audit := audit;
      this.lag := lag;
      retries, cache, backoff, calls := [], [], None, 0;
    }

    /**
     One tick: with the tasks handed out now and the retries that are due, the checker does
     what `Work` says; then the windows that are over leave.
     */
    method Tick(tip: nat, now: nat, world: World, tipAfter: nat, floor: nat, end: nat)
      returns (handed: seq<SlotTask>, done: map<WindowKey, Window>)
      requires audit.n > 0
      modifies this, audit
      ensures Taken(old(audit.windows), HandedWindows(old(audit.windows), tip, lag, audit.n), handed, {}, tip, lag, audit.n)
      ensures var d := Desk(HandedWindows(old(audit.windows), tip, lag, audit.n), NotDue(old(retries), now),
                            old(cache), old(backoff), 0);
        var worked := Work(d, handed + Due(old(retries), now), world);
        && View() == worked.(windows := map key | key in worked.windows &&
                               !Releasable(worked.windows[key], tipAfter, floor, end, GIVE_UP_SECS) :: worked.windows[key])
        && done == map key | key in worked.windows &&
                     Releasable(worked.windows[key], tipAfter, floor, end, GIVE_UP_SECS) :: Finished(worked.windows[key])
    {
      hide Work, Releasable, Finished, Ready, TasksOf;
      handed := audit.TakeReady(tip, lag);
      assert audit.windows == HandedWindows(old(audit.windows), tip, lag, audit.n);
      var due := TakeDue(now);
      WorkThrough(handed + due, world);
      done := audit.TakeFinished(tipAfter, floor, end, GIVE_UP_SECS);
    }

    /** At the end what is still queued is given up, and every window is reported. */
    method Shutdown() returns (done: map<WindowKey, Window>)
      modifies this, audit
      ensures var settled := SettleAll(old(audit.windows), TasksIn(old(retries)), None);
        done == map key | key in settled :: Finished(settled[key])
      ensures retries == [] && audit.windows == map[]
    {
      hide SettleAll, Finished;
      var left := seq(|retries|, i requires 0 <= i < |retries| reads this => retries[i].task);
      assert left == TasksIn(retries);
      retries := [];
      SettleTasks(left, None);
      done := audit.TakeAll();
    }

    method TakeDue(now: nat) returns (due: seq<SlotTask>)
      modifies this`retries
      ensures due == Due(old(retries), now) && retries == NotDue(old(retries), now)
    {
      var all := retries;
      due, retries := [], [];
      for i := 0 to |all|
        invariant due == Due(all[..i], now) && retries == NotDue(all[..i], now)
      {
        assert all[..i + 1][..i] == all[..i];
        if all[i].notBefore <= now {
          due := due + [all[i].task];
        } else {
          retries := retries + [all[i]];
        }
      }
      assert all[..|all|] == all;
    }

    /** Group the tasks by slot and serve the slots in ascending order. */
    method WorkThrough(tasks: seq<SlotTask>, world: World)
      modifies this, audit
      ensures View() == Work(old(View()).(calls := 0), tasks, world)
    {
      hide GroupStep, AtSlot, NotAtSlot, LeastSlot, Grouped, Work;
      var bySlot := GroupBySlot(tasks);
      calls := 0;
      ghost var rest := tasks;
      while bySlot != map[]
        invariant Grouped(bySlot, rest)
        invariant Work(View(), rest, world) == Work(old(View()).(calls := 0), tasks, world)
        decreases |rest|
      {
        var slot, group := NextGroup(bySlot, rest);
        WorkStep(View(), rest, slot, world);
        ServeSlot(slot, group, world.reply(slot), world.at(slot));
        bySlot, rest := bySlot - {slot}, NotAtSlot(rest, slot);
      }
      if rest != [] {
        EveryTaskGrouped(bySlot, rest);
        assert false;
      }
      NoWork(View(), world);
    }

    method NextGroup(bySlot: map<nat, seq<SlotTask>>, ghost rest: seq<SlotTask>) returns (slot: nat, group: seq<SlotTask>)
      requires Grouped(bySlot, rest) && bySlot != map[]
      ensures rest != [] && slot == LeastSlot(rest) && group == AtSlot(rest, slot)
      ensures Grouped(bySlot - {slot}, NotAtSlot(rest, slot)) && |NotAtSlot(rest, slot)| < |rest|
    {
      hide AtSlot, NotAtSlot, LeastSlot, Grouped;
      slot, group := PickLeast(bySlot, rest);
      LeastIs(bySlot, rest, slot);
      GroupedLess(bySlot, rest, slot);
    }

    method PickLeast(bySlot: map<nat, seq<SlotTask>>, ghost rest: seq<SlotTask>) returns (slot: nat, group: seq<SlotTask>)
      requires Grouped(bySlot, rest) && bySlot != map[]
      ensures slot in bySlot && group == bySlot[slot] && forall s | s in bySlot :: slot <= s
    {
      hide AtSlot, Grouped;
      HasLeast(bySlot, rest);
      slot :| slot in bySlot && forall s | s in bySlot :: slot <= s;
      group := bySlot[slot];
    }

    method GroupBySlot(tasks: seq<SlotTask>) returns (bySlot: map<nat, seq<SlotTask>>)
      ensures Grouped(bySlot, tasks)
    {
      hide Grouped;
      bySlot := map[];
      NoTasksGrouped();
      for i := 0 to |tasks|
        invariant Grouped(bySlot, tasks[..i])
      {
        var t := tasks[i];
        GroupedMore(bySlot, tasks[..i], t);
        assert tasks[..i + 1] == tasks[..i] + [t];
        bySlot := bySlot[t.slot := (if t.slot in bySlot then bySlot[t.slot] else []) + [t]];
      }
      assert tasks[..|tasks|] == tasks;
    }

    /** One slot: from the cache, or by a request if one may be made now, or later. */
    method ServeSlot(slot: nat, tasks: seq<SlotTask>, reply: Reply, now: nat)
      modifies this, audit
      ensures View() == GroupStep(old(View()), slot, tasks, reply, now)
    {
      hide Lookup, MaxAttempts, SettleAll, Waiting, Attempted;
      if Lookup(cache, slot).None? {
        var paused := backoff.Some? && backoff.value.until > now;
        if paused || calls >= MAX_CALLS_PER_TICK {
          Requeue(tasks, if paused then backoff.value.until else now);
          return;
        }
        calls := calls + 1;
      }
      var attempt := MaxAttempts(tasks) + 1;
      var fetched := FetchSlot(slot, reply, now);
      if fetched.None? && attempt < MAX_ATTEMPTS {
        Requeue(Attempted(tasks, attempt), now + RETRY_AFTER);
      } else {
        SettleTasks(tasks, fetched);
      }
    }

    method Requeue(tasks: seq<SlotTask>, notBefore: nat)
      modifies this`retries
      ensures retries == old(retries) + Waiting(tasks, notBefore)
    {
      for i := 0 to |tasks|
        invariant retries == old(retries) + Waiting(tasks[..i], notBefore)
      {
        retries := retries + [Retry(tasks[i], notBefore)];
      }
      assert tasks[..|tasks|] == tasks;
    }

    method FetchSlot(slot: nat, reply: Reply, now: nat) returns (out: Option<Fetched>)
      modifies this`cache, this`backoff
      ensures (View(), out) == Fetch(old(View()), slot, reply, now)
    {
      var cached := Lookup(cache, slot);
      if cached.Some? {
        return Some(Found(cached.value));
      }
      match reply {
        case Answered(b) =>
          cache := cache + [CacheEntry(slot, b)];
          if |cache| > BLOCK_CACHE {
            cache := cache[1..];
          }
          backoff := None;
          out := Some(Found(b));
        case SlotSkipped =>
          backoff := None;
          out := Some(NoBlock);
        case NotAvailable =>
          out := None;
        case Failed =>
          var pause := if backoff.Some? then backoff.value.pause else BACKOFF_MIN;
          backoff := Some(Backoff(now + pause, Min(pause * 2, BACKOFF_MAX)));
          out := None;
      }
    }

    /** Compare the tasks with what was fetched, or give them up. */
    method SettleTasks(tasks: seq<SlotTask>, fetched: Option<Fetched>)
      modifies audit
      ensures audit.windows == SettleAll(old(audit.windows), tasks, fetched)
    {
      hide Settle, Results;
      for i := 0 to |tasks|
        invariant audit.windows == SettleAll(old(audit.windows), tasks[..i], fetched)
      {
        var t := tasks[i];
        assert tasks[..i + 1][..i] == tasks[..i];
        match fetched {
          case None =>
            audit.SettleTask(t.key, Unchecked);
          case Some(f) =>
            if t.key in audit.windows {
              var results := Compare(f, t.deliveries, audit.windows[t.key].filters);
              audit.SettleTask(t.key, if f.Found? then Checked(results) else Skipped(results));
            }
        }
      }
      assert tasks[..|tasks|] == tasks;
    }
  }

  /** The tasks of each slot, for the slots that have any. */
  ghost predicate Grouped(bySlot: map<nat, seq<SlotTask>>, tasks: seq<SlotTask>) {
    && (forall slot :: slot in bySlot <==> |AtSlot(tasks, slot)| > 0)
    && (forall slot | slot in bySlot :: bySlot[slot] == AtSlot(tasks, slot))
  }

  lemma NoTasksGrouped()
    ensures Grouped(map[], [])
  {}

  lemma GroupedMore(bySlot: map<nat, seq<SlotTask>>, tasks: seq<SlotTask>, t: SlotTask)
    requires Grouped(bySlot, tasks)
    ensures Grouped(bySlot[t.slot := (if t.slot in bySlot then bySlot[t.slot] else []) + [t]], tasks + [t])
  {
    forall slot ensures AtSlot(tasks + [t], slot) == AtSlot(tasks, slot) + if t.slot == slot then [t] else [] {
      assert (tasks + [t])[..|tasks|] == tasks;
    }
    hide AtSlot;
    assert t.slot !in bySlot ==> AtSlot(tasks, t.slot) == [];
  }

  /** The least key of the groups is the least slot of the tasks. */
  lemma LeastIs(bySlot: map<nat, seq<SlotTask>>, tasks: seq<SlotTask>, slot: nat)
    requires Grouped(bySlot, tasks) && slot in bySlot && forall s | s in bySlot :: slot <= s
    ensures tasks != [] && slot == LeastSlot(tasks) && |NotAtSlot(tasks, slot)| < |tasks|
    ensures bySlot[slot] == AtSlot(tasks, slot)
  {
    hide AtSlot, NotAtSlot, LeastSlot;
    SlotMembers(tasks, slot);
    assert AtSlot(tasks, slot)[0] in AtSlot(tasks, slot);
    LeastSlotLaws(tasks);
    var t :| t in tasks && t.slot == LeastSlot(tasks);
    SlotMembers(tasks, t.slot);
    assert t in AtSlot(tasks, t.slot);
    FewerLeft(tasks);
  }

  lemma HasLeast(bySlot: map<nat, seq<SlotTask>>, tasks: seq<SlotTask>)
    requires Grouped(bySlot, tasks) && bySlot != map[]
    ensures exists slot :: slot in bySlot && forall s | s in bySlot :: slot <= s
  {
    hide AtSlot, LeastSlot;
    var any :| any in bySlot;
    SlotMembers(tasks, any);
    assert AtSlot(tasks, any)[0] in AtSlot(tasks, any);
    LeastSlotLaws(tasks);
    var t :| t in tasks && t.slot == LeastSlot(tasks);
    SlotMembers(tasks, t.slot);
    assert t in AtSlot(tasks, t.slot);
    forall s | s in bySlot ensures t.slot <= s {
      SlotMembers(tasks, s);
      assert AtSlot(tasks, s)[0] in AtSlot(tasks, s);
    }
  }

  lemma GroupedLess(bySlot: map<nat, seq<SlotTask>>, tasks: seq<SlotTask>, slot: nat)
    requires Grouped(bySlot, tasks)
    ensures Grouped(bySlot - {slot}, NotAtSlot(tasks, slot))
  {
    hide AtSlot, NotAtSlot;
    forall s | s != slot ensures AtSlot(NotAtSlot(tasks, slot), s) == AtSlot(tasks, s) {
      OtherSlot(tasks, slot, s);
    }
    SlotMembers(tasks, slot);
    SlotMembers(NotAtSlot(tasks, slot), slot);
    var g := AtSlot(NotAtSlot(tasks, slot), slot);
    assert |g| > 0 ==> g[0] in g;
  }

  lemma EveryTaskGrouped(bySlot: map<nat, seq<SlotTask>>, tasks: seq<SlotTask>)
    requires Grouped(bySlot, tasks) && tasks != []
    ensures tasks[0].slot in bySlot
  {
    SlotMembers(tasks, tasks[0].slot);
    assert tasks[0] in AtSlot(tasks, tasks[0].slot);
  }

  lemma WorkStep(d: Desk, tasks: seq<SlotTask>, slot: nat, w: World)
    requires tasks != [] && slot == LeastSlot(tasks)
    ensures Work(d, tasks, w) == Work(GroupStep(d, slot, AtSlot(tasks, slot), w.reply(slot), w.at(slot)), NotAtSlot(tasks, slot), w)
  {
    hide GroupStep, AtSlot, NotAtSlot;
  }

  lemma NoWork(d: Desk, w: World)
    ensures Work(d, [], w) == d
  {}

  lemma {:induction false} OtherSlot(tasks: seq<SlotTask>, slot: nat, other: nat)
    requires slot != other
    ensures AtSlot(NotAtSlot(tasks, slot), other) == AtSlot(tasks, other)
  {
    if tasks != [] {
      var front, t := tasks[..|tasks| - 1], tasks[|tasks| - 1];
      OtherSlot(front, slot, other);
      if t.slot != slot {
        assert (NotAtSlot(front, slot) + [t])[..|NotAtSlot(front, slot)|] == NotAtSlot(front, slot);
      } else {
        assert NotAtSlot(tasks, slot) == NotAtSlot(front, slot);
      }
    }
  }
}
