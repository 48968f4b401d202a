/** The checker keeps the windows' books: every task handed out comes back exactly once or is still waiting. */
module CheckLaws {
  import opened Common
  import opened Options
  import opened AuditSpec
  import opened AuditLaws
  import opened Comparison
  import opened Auditing
  import opened CheckSpec

  function TasksIn(retries: seq<Retry>): seq<SlotTask> {
    seq(|retries|, i requires 0 <= i < |retries| => retries[i].task)
  }

  /** How many tasks of a window are waiting. */
  function Queued(retries: seq<Retry>, key: WindowKey): nat { |TasksOf(TasksIn(retries), key)| }

  /** A window in balance, with `out` tasks out; its totals too, if `totals` says so. */
  ghost predicate WindowOk(w: Window, first: Option<nat>, n: nat, out: nat, totals: bool)
    requires n > 0
  {
    CursorOk(w, first, n) && w.inFlight == out && (totals ==> TotalsOk(w))
  }

  /** A fetched block has distinct signatures; only the totals depend on that. */
  ghost predicate GoodBlock(fetched: Option<Fetched>) {
    fetched.Some? && fetched.value.Found? ==> DistinctSignatures(fetched.value.block)
  }

  ghost predicate GoodCache(cache: seq<CacheEntry>) {
    forall i | 0 <= i < |cache| :: DistinctSignatures(cache[i].block)
  }

  ghost predicate GoodReply(reply: Reply) {
    reply.Answered? ==> DistinctSignatures(reply.block)
  }

  ghost predicate GoodWorld(w: World) {
    forall slot :: GoodReply(w.reply(slot))
  }

  lemma SettleOk(w: Window, first: Option<nat>, n: nat, out: nat, t: SlotTask, fetched: Option<Fetched>, totals: bool)
    requires n > 0 && WindowOk(w, first, n, out, totals) && out > 0 && (totals ==> GoodBlock(fetched))
    ensures WindowOk(Settle(w, OutcomeOf(t, fetched, w.filters)), first, n, out - 1, totals)
  {
    hide CursorOk, TotalsOk, Results, DistinctSignatures;
    SettleLaws(w, first, n, OutcomeOf(t, fetched, w.filters));
    if totals {
      TotalsStayBalanced(w, if fetched.Some? then fetched.value else NoBlock, t.deliveries);
    }
  }

  lemma {:induction false} SettleAllOk(windows: map<WindowKey, Window>, tasks: seq<SlotTask>, fetched: Option<Fetched>,
                                       key: WindowKey, first: Option<nat>, n: nat, more: nat, totals: bool)
    requires n > 0 && (totals ==> GoodBlock(fetched))
    requires key in windows ==> WindowOk(windows[key], first, n, |TasksOf(tasks, key)| + more, totals)
    ensures SettleAll(windows, tasks, fetched).Keys == windows.Keys
    ensures key in windows ==> WindowOk(SettleAll(windows, tasks, fetched)[key], first, n, more, totals)
  {
    if tasks != [] {
      hide WindowOk, OutcomeOf, GoodBlock;
      var front, t := tasks[..|tasks| - 1], tasks[|tasks| - 1];
      var mine := if t.key == key then 1 else 0;
      SettleAllOk(windows, front, fetched, key, first, n, more + mine, totals);
      if key in windows && t.key == key {
        SettleOk(SettleAll(windows, front, fetched)[key], first, n, more + 1, t, fetched, totals);
      }
      hide TasksOf;
    }
  }

  lemma {:induction false} SameCount(tasks: seq<SlotTask>, others: seq<SlotTask>, key: WindowKey)
    requires |tasks| == |others| && forall i | 0 <= i < |tasks| :: tasks[i].key == others[i].key
    ensures |TasksOf(tasks, key)| == |TasksOf(others, key)|
  {
    if tasks != [] {
      SameCount(tasks[..|tasks| - 1], others[..|others| - 1], key);
    }
  }

  lemma QueuedMore(retries: seq<Retry>, tasks: seq<SlotTask>, notBefore: nat, key: WindowKey)
    ensures Queued(retries + Waiting(tasks, notBefore), key) == Queued(retries, key) + |TasksOf(tasks, key)|
  {
    hide TasksOf;
    TasksAppend(TasksIn(retries), tasks, key);
    assert TasksIn(retries + Waiting(tasks, notBefore)) == TasksIn(retries) + tasks;
  }

  /** The checker's own limits. */
  ghost predicate DeskOk(d: Desk) {
    && d.calls <= MAX_CALLS_PER_TICK
    && |d.cache| <= BLOCK_CACHE
    && (d.backoff.Some? ==> BACKOFF_MIN <= d.backoff.value.pause <= BACKOFF_MAX)
    && (forall i | 0 <= i < |d.retries| :: d.retries[i].task.attempts < MAX_ATTEMPTS)
  }

  lemma {:induction false} LookupGood(cache: seq<CacheEntry>, slot: nat)
    requires Lookup(cache, slot).Some?
    ensures GoodCache(cache) ==> DistinctSignatures(Lookup(cache, slot).value)
    ensures exists i :: 0 <= i < |cache| && cache[i] == CacheEntry(slot, Lookup(cache, slot).value)
  {
    if cache[0].slot == slot {
      assert cache[0] == CacheEntry(slot, Lookup(cache, slot).value);
    } else {
      LookupGood(cache[1..], slot);
      var i :| 0 <= i < |cache| - 1 && cache[1..][i] == CacheEntry(slot, Lookup(cache, slot).value);
      assert cache[i + 1] == CacheEntry(slot, Lookup(cache, slot).value);
    }
  }

  lemma FetchOk(d: Desk, slot: nat, reply: Reply, now: nat)
    requires DeskOk(d)
    ensures var (after, fetched) := Fetch(d, slot, reply, now);
      && DeskOk(after)
      && (GoodCache(d.cache) && GoodReply(reply) ==> GoodCache(after.cache) && GoodBlock(fetched))
      && after.windows == d.windows && after.retries == d.retries && after.calls == d.calls
  {
    hide DistinctSignatures;
    if Lookup(d.cache, slot).Some? {
      LookupGood(d.cache, slot);
    }
    hide Lookup;
  }

  lemma GroupLimits(d: Desk, slot: nat, tasks: seq<SlotTask>, reply: Reply, now: nat)
    requires DeskOk(d) && forall t | t in tasks :: t.attempts < MAX_ATTEMPTS
    ensures DeskOk(GroupStep(d, slot, tasks, reply, now))
    ensures GoodCache(d.cache) && GoodReply(reply) ==> GoodCache(GroupStep(d, slot, tasks, reply, now).cache)
  {
    hide GoodCache, GoodReply, GoodBlock, Lookup, SettleAll, Fetch, MaxAttempts;
    var called := if Lookup(d.cache, slot).Some? then d else d.(calls := d.calls + 1);
    if !Deferred(d, slot, now) {
      FetchOk(called, slot, reply, now);
    }
  }

  /** One group leaves every window in balance with the tasks that are still out. */
  lemma GroupBalance(d: Desk, slot: nat, tasks: seq<SlotTask>, reply: Reply, now: nat,
                     key: WindowKey, first: Option<nat>, n: nat, more: nat, totals: bool)
    requires n > 0 && DeskOk(d) && (totals ==> GoodCache(d.cache) && GoodReply(reply))
    requires key in d.windows ==> WindowOk(d.windows[key], first, n, Queued(d.retries, key) + |TasksOf(tasks, key)| + more, totals)
    ensures var after := GroupStep(d, slot, tasks, reply, now);
      && after.windows.Keys == d.windows.Keys
      && (key in d.windows ==> WindowOk(after.windows[key], first, n, Queued(after.retries, key) + more, totals))
  {
    hide WindowOk, Queued, TasksOf, Lookup, Fetch, SettleAll, MaxAttempts, GoodCache, GoodReply, GoodBlock, Waiting, Attempted;
    if Deferred(d, slot, now) {
      QueuedMore(d.retries, tasks, if Paused(d, now) then d.backoff.value.until else now, key);
    } else {
      var called := if Lookup(d.cache, slot).Some? then d else d.(calls := d.calls + 1);
      CalledOk(d, slot, now);
      FetchOk(called, slot, reply, now);
      var (after, fetched) := Fetch(called, slot, reply, now);
      var attempt := MaxAttempts(tasks) + 1;
      QueuedMore(after.retries, Attempted(tasks, attempt), now + RETRY_AFTER, key);
      AttemptedCount(tasks, attempt, key);
      SettleAllOk(after.windows, tasks, fetched, key, first, n, Queued(d.retries, key) + more, totals);
    }
  }

  lemma CalledOk(d: Desk, slot: nat, now: nat)
    requires DeskOk(d) && !Deferred(d, slot, now)
    ensures DeskOk(if Lookup(d.cache, slot).Some? then d else d.(calls := d.calls + 1))
  {
    hide Lookup;
  }

  lemma AttemptedCount(tasks: seq<SlotTask>, attempts: nat, key: WindowKey)
    ensures |TasksOf(Attempted(tasks, attempts), key)| == |TasksOf(tasks, key)|
  {
    SameCount(Attempted(tasks, attempts), tasks, key);
  }

  lemma {:induction false} SplitCount(tasks: seq<SlotTask>, slot: nat, key: WindowKey)
    ensures |TasksOf(AtSlot(tasks, slot), key)| + |TasksOf(NotAtSlot(tasks, slot), key)| == |TasksOf(tasks, key)|
  {
    if tasks != [] {
      var front, t := tasks[..|tasks| - 1], tasks[|tasks| - 1];
      SplitCount(front, slot, key);
      TasksAppend(AtSlot(front, slot), if t.slot == slot then [t] else [], key);
      TasksAppend(NotAtSlot(front, slot), if t.slot != slot then [t] else [], key);
      TasksOfOne([t], t.key, key);
      TasksOfOne([], t.key, key);
    }
  }

  /**
   A pass of the checker: at most 4 requests, no task tried more than 5 times, and in every
   window each task that was out is accounted for or waits in the queue; the totals balance as well
   if all blocks have distinct signatures.
   */
  lemma {:induction false} WorkLaws(d: Desk, tasks: seq<SlotTask>, w: World, key: WindowKey, first: Option<nat>, n: nat, totals: bool)
    requires n > 0 && DeskOk(d) && (totals ==> GoodCache(d.cache) && GoodWorld(w)) && forall t | t in tasks :: t.attempts < MAX_ATTEMPTS
    requires key in d.windows ==> WindowOk(d.windows[key], first, n, Queued(d.retries, key) + |TasksOf(tasks, key)|, totals)
    ensures var after := Work(d, tasks, w);
      && DeskOk(after) && after.windows.Keys == d.windows.Keys
      && (totals ==> GoodCache(after.cache))
      && (key in d.windows ==> WindowOk(after.windows[key], first, n, Queued(after.retries, key), totals))
    decreases |tasks|
  {
    hide DeskOk, WindowOk, Queued, GroupStep, GoodCache, GoodReply, AtSlot, NotAtSlot;
    if tasks == [] {
      assert TasksOf(tasks, key) == [];
    } else {
      hide TasksOf;
      var slot := LeastSlot(tasks);
      var group, rest := AtSlot(tasks, slot), NotAtSlot(tasks, slot);
      SlotMembers(tasks, slot);
      FewerLeft(tasks);
      SplitCount(tasks, slot, key);
      GroupLimits(d, slot, group, w.reply(slot), w.at(slot));
      GroupBalance(d, slot, group, w.reply(slot), w.at(slot), key, first, n, |TasksOf(rest, key)|, totals);
      WorkLaws(GroupStep(d, slot, group, w.reply(slot), w.at(slot)), rest, w, key, first, n, totals);
    }
  }

  // ----- what becomes of a group -----

  /** Comparing or giving up a list of tasks counts each of a window's tasks once, under its outcome. */
  lemma {:induction false} SettleAllCounts(windows: map<WindowKey, Window>, tasks: seq<SlotTask>, fetched: Option<Fetched>, key: WindowKey)
    requires key in windows
    ensures SettleAll(windows, tasks, fetched).Keys == windows.Keys
    ensures var w, after, n := windows[key], SettleAll(windows, tasks, fetched)[key], |TasksOf(tasks, key)|;
      && after.slotsChecked == w.slotsChecked + (if fetched.Some? && fetched.value.Found? then n else 0)
      && after.slotsSkipped == w.slotsSkipped + (if fetched == Some(NoBlock) then n else 0)
      && after.slotsUnchecked == w.slotsUnchecked + (if fetched == None then n else 0)
      && after.nextCheck == w.nextCheck && after.filters == w.filters
  {
    if tasks != [] {
      hide Results, AddAll;
      SettleAllCounts(windows, tasks[..|tasks| - 1], fetched, key);
    }
  }

  /**
   What a group comes to: put off without spending an attempt, when no request may be made;
   compared, when there is a block or certainly none; tried again later with one attempt more;
   or, at the fifth attempt, given up. The counters move only in the second and the last case.
   */
  lemma GroupOutcome(d: Desk, slot: nat, tasks: seq<SlotTask>, reply: Reply, now: nat, key: WindowKey)
    requires key in d.windows
    ensures var after := GroupStep(d, slot, tasks, reply, now);
      var w, n := d.windows[key], |TasksOf(tasks, key)|;
      var cached := Lookup(d.cache, slot).Some?;
      var found := cached || reply.Answered?;
      && key in after.windows
      && (Deferred(d, slot, now) ==>
            && after == d.(retries := after.retries)
            && (exists t: nat :: t >= now && after.retries == d.retries + Waiting(tasks, t)))
      && (!Deferred(d, slot, now) && found ==>
            after.retries == d.retries && after.windows[key].slotsChecked == w.slotsChecked + n)
      && (!Deferred(d, slot, now) && !found && reply.SlotSkipped? ==>
            after.retries == d.retries && after.windows[key].slotsSkipped == w.slotsSkipped + n)
      && (!Deferred(d, slot, now) && !found && !reply.SlotSkipped? ==>
            if MaxAttempts(tasks) + 1 < MAX_ATTEMPTS then
              && after.windows == d.windows
              && after.retries == d.retries + Waiting(Attempted(tasks, MaxAttempts(tasks) + 1), now + RETRY_AFTER)
            else
              after.retries == d.retries && after.windows[key].slotsUnchecked == w.slotsUnchecked + n)
  {
    hide Lookup, MaxAttempts, SettleAll, Waiting, Attempted, TasksOf, Remember, BackedOff;
    if Deferred(d, slot, now) {
      assert Paused(d, now) ==> d.backoff.value.until >= now;
    } else {
      var called := if Lookup(d.cache, slot).Some? then d else d.(calls := d.calls + 1);
      var (after, fetched) := Fetch(called, slot, reply, now);
      SettleAllCounts(after.windows, tasks, fetched, key);
    }
  }

  // ----- the pause after failures -----

  /** The pause to be taken after `k` failures in a row and no success. */
  function PauseAfter(k: nat): nat {
    if k == 0 then BACKOFF_MIN else Min(PauseAfter(k - 1) * 2, BACKOFF_MAX)
  }

  function Twofold(k: nat): nat {
    if k == 0 then 1 else 2 * Twofold(k - 1)
  }

  /** Failures double the pause from 5 seconds on, up to 2 minutes. */
  lemma {:induction false} PauseDoubles(k: nat)
    ensures PauseAfter(k) == Min(BACKOFF_MIN * Twofold(k), BACKOFF_MAX)
  {
    if k > 0 {
      PauseDoubles(k - 1);
    }
  }

  /** The desk after `k` failed requests in a row, at times `at`. */
  function Failures(b: Option<Backoff>, at: nat -> nat, k: nat): Option<Backoff> {
    if k == 0 then b else Some(BackedOff(Failures(b, at, k - 1), at(k - 1)))
  }

  /** From a fresh start the k-th failure in a row pauses for what `PauseAfter` says. */
  lemma {:induction false} FailuresPause(at: nat -> nat, k: nat)
    ensures Failures(None, at, k).Some? <==> k > 0
    ensures k > 0 ==>
      && Failures(None, at, k).value.pause == PauseAfter(k)
      && Failures(None, at, k).value.until == at(k - 1) + PauseAfter(k - 1)
  {
    if k > 0 {
      FailuresPause(at, k - 1);
    }
  }
}
