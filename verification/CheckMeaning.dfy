/** What the checker keeps of a task while it waits, of a block in its cache, and of the queue. */
module CheckMeaning {
  import opened Common
  import opened Options
  import opened AuditSpec
  import opened Comparison
  import opened CheckSpec
  import opened CheckLaws
  import opened Checking

  // ----- tasks in the queue -----

  /** `b` is `a` after some attempts. */
  predicate SameTask(a: SlotTask, b: SlotTask) { a.key == b.key && a.slot == b.slot && a.deliveries == b.deliveries }

  /** Every waiting task is one of those that were waiting or in hand. */
  ghost predicate ComesFrom(after: seq<Retry>, retries: seq<Retry>, tasks: seq<SlotTask>) {
    forall r | r in after :: r in retries || exists t :: t in tasks && SameTask(r.task, t)
  }

  lemma WaitingMeans(tasks: seq<SlotTask>, attempts: nat, notBefore: nat)
    ensures forall r | r in Waiting(tasks, notBefore) :: r.task in tasks && r.notBefore == notBefore
    ensures forall r | r in Waiting(Attempted(tasks, attempts), notBefore) ::
      r.notBefore == notBefore && r.task.attempts == attempts && exists t :: t in tasks && SameTask(r.task, t)
  {
    forall r | r in Waiting(Attempted(tasks, attempts), notBefore)
      ensures r.notBefore == notBefore && r.task.attempts == attempts && exists t :: t in tasks && SameTask(r.task, t)
    {
      var i :| 0 <= i < |tasks| && Waiting(Attempted(tasks, attempts), notBefore)[i] == r;
      assert tasks[i] in tasks && SameTask(r.task, tasks[i]);
    }
  }

  lemma GroupKeepsTasks(d: Desk, slot: nat, tasks: seq<SlotTask>, reply: Reply, now: nat)
    ensures ComesFrom(GroupStep(d, slot, tasks, reply, now).retries, d.retries, tasks)
  {
    hide Lookup, MaxAttempts, SettleAll, Fetch;
    var called := if Lookup(d.cache, slot).Some? then d else d.(calls := d.calls + 1);
    FetchKeepsQueue(called, slot, reply, now);
    var attempt := MaxAttempts(tasks) + 1;
    WaitingMeans(tasks, attempt, if Paused(d, now) then d.backoff.value.until else now);
    WaitingMeans(tasks, attempt, now + RETRY_AFTER);
    hide Waiting, Attempted;
  }

  lemma FetchKeepsQueue(d: Desk, slot: nat, reply: Reply, now: nat)
    ensures Fetch(d, slot, reply, now).0.retries == d.retries
  {
    hide Lookup, Remember, BackedOff;
  }

  lemma ComesFromTrans(a: seq<Retry>, b: seq<Retry>, c: seq<Retry>, group: seq<SlotTask>, rest: seq<SlotTask>, tasks: seq<SlotTask>)
    requires ComesFrom(b, c, group) && ComesFrom(a, b, rest)
    requires (forall t | t in group :: t in tasks) && forall t | t in rest :: t in tasks
    ensures ComesFrom(a, c, tasks)
  {}

  /** Through a whole pass no waiting task changes its window, its slot or its deliveries, and none is made up. */
  lemma {:induction false} WorkKeepsTasks(d: Desk, tasks: seq<SlotTask>, w: World)
    ensures ComesFrom(Work(d, tasks, w).retries, d.retries, tasks)
    decreases |tasks|
  {
    if tasks != [] {
      hide GroupStep, AtSlot, NotAtSlot, ComesFrom, LeastSlot;
      var slot := LeastSlot(tasks);
      var group, rest := AtSlot(tasks, slot), NotAtSlot(tasks, slot);
      SlotMembers(tasks, slot);
      FewerLeft(tasks);
      var next := GroupStep(d, slot, group, w.reply(slot), w.at(slot));
      GroupKeepsTasks(d, slot, group, w.reply(slot), w.at(slot));
      WorkKeepsTasks(next, rest, w);
      ComesFromTrans(Work(next, rest, w).retries, next.retries, d.retries, group, rest, tasks);
    }
  }

  /** The attempts of a group are those of its most attempted task. */
  lemma {:induction false} MostAttempts(tasks: seq<SlotTask>)
    ensures forall t | t in tasks :: t.attempts <= MaxAttempts(tasks)
    ensures tasks != [] ==> exists t :: t in tasks && t.attempts == MaxAttempts(tasks)
  {
    if tasks != [] {
      var front, last := tasks[..|tasks| - 1], tasks[|tasks| - 1];
      MostAttempts(front);
      assert tasks == front + [last];
      assert last in tasks;
    }
  }

  /** What is due is what was to wait no longer than until now; everything else keeps waiting as it was. */
  lemma {:induction false} DueMeans(retries: seq<Retry>, now: nat)
    ensures forall t :: t in Due(retries, now) <==> exists r :: r in retries && r.notBefore <= now && r.task == t
    ensures forall r :: r in NotDue(retries, now) <==> r in retries && r.notBefore > now
    ensures |Due(retries, now)| + |NotDue(retries, now)| == |retries|
  {
    if retries != [] {
      var front, last := retries[..|retries| - 1], retries[|retries| - 1];
      DueMeans(front, now);
      assert retries == front + [last];
    }
  }

  // ----- the cache -----

  /** The newest block is remembered, and all others but, when the cache was full, the oldest. */
  lemma RememberMeans(cache: seq<CacheEntry>, e: CacheEntry)
    requires |cache| <= BLOCK_CACHE && forall i | 0 <= i < |cache| :: cache[i].slot != e.slot
    ensures Lookup(Remember(cache, e), e.slot) == Some(e.block)
    ensures forall slot | slot != e.slot && !(|cache| == 12 && cache[0].slot == slot) ::
      Lookup(Remember(cache, e), slot) == Lookup(cache, slot)
  {
    forall slot ensures Lookup(cache + [e], slot) ==
      if Lookup(cache, slot).Some? then Lookup(cache, slot) else if e.slot == slot then Some(e.block) else None
    {
      LookupAppend(cache, e, slot);
    }
    NotCached(cache, e.slot);
    if |cache| == BLOCK_CACHE {
      assert (cache + [e])[1..] == cache[1..] + [e];
      forall slot ensures Lookup(cache[1..] + [e], slot) ==
        if Lookup(cache[1..], slot).Some? then Lookup(cache[1..], slot) else if e.slot == slot then Some(e.block) else None
      {
        LookupAppend(cache[1..], e, slot);
      }
      NotCached(cache[1..], e.slot);
    }
  }

  lemma {:induction false} LookupAppend(cache: seq<CacheEntry>, e: CacheEntry, slot: nat)
    ensures Lookup(cache + [e], slot) ==
      if Lookup(cache, slot).Some? then Lookup(cache, slot) else if e.slot == slot then Some(e.block) else None
  {
    if cache == [] {
      assert cache + [e] == [e] && [e][1..] == [];
    } else {
      assert (cache + [e])[1..] == cache[1..] + [e];
      LookupAppend(cache[1..], e, slot);
    }
  }

  lemma {:induction false} NotCached(cache: seq<CacheEntry>, slot: nat)
    requires forall i | 0 <= i < |cache| :: cache[i].slot != slot
    ensures Lookup(cache, slot) == None
  {
    if cache != [] {
      NotCached(cache[1..], slot);
    }
  }

  // ----- pauses -----

  /**
   A cached slot asks nothing. Otherwise an answer, also that there is no block, ends the pause; a
   block that is not there yet leaves it; and a failure starts one of the length that is due, 5
   seconds at first, and doubles the next up to 120.
   */
  lemma FetchMeans(d: Desk, slot: nat, reply: Reply, now: nat)
    ensures var (after, fetched) := Fetch(d, slot, reply, now);
      if Lookup(d.cache, slot).Some? then after == d && fetched == Some(Found(Lookup(d.cache, slot).value)) else
      match reply
      case Answered(b) => after.backoff == None && fetched == Some(Found(b))
      case SlotSkipped => after.backoff == None && after.cache == d.cache && fetched == Some(NoBlock)
      case NotAvailable => after == d && fetched == None
      case Failed =>
        var pause := if d.backoff.Some? then d.backoff.value.pause else 5_000;
        && fetched == None && after == d.(backoff := after.backoff) && after.backoff.Some?
        && after.backoff.value.until == now + pause
        && after.backoff.value.pause == if pause * 2 > 120_000 then 120_000 else pause * 2
  {
    hide Lookup, Remember;
  }

  /** A group that is put off waits for the end of the pause, or, when only the calls ran out, for the next pass. */
  lemma PutOffMeans(d: Desk, slot: nat, tasks: seq<SlotTask>, reply: Reply, now: nat)
    requires Lookup(d.cache, slot) == None
    requires d.calls >= 4 || (d.backoff.Some? && d.backoff.value.until > now)
    ensures var after := GroupStep(d, slot, tasks, reply, now);
      && after == d.(retries := after.retries) && |after.retries| == |d.retries| + |tasks|
      && after.retries[..|d.retries|] == d.retries
      && forall i | 0 <= i < |tasks| ::
           after.retries[|d.retries| + i] ==
             Retry(tasks[i], if d.backoff.Some? && d.backoff.value.until > now then d.backoff.value.until else now)
  {
    hide Lookup, Fetch, SettleAll;
  }

  /** A group that got no answer waits 4 seconds, with one attempt more than its most attempted task had, unless that is the fifth. */
  lemma TriedAgainMeans(d: Desk, slot: nat, tasks: seq<SlotTask>, reply: Reply, now: nat)
    requires Lookup(d.cache, slot) == None && d.calls < 4 && !(d.backoff.Some? && d.backoff.value.until > now)
    requires (reply.NotAvailable? || reply.Failed?) && MaxAttempts(tasks) + 1 < 5
    ensures var after := GroupStep(d, slot, tasks, reply, now);
      && after.windows == d.windows && after.calls == d.calls + 1
      && |after.retries| == |d.retries| + |tasks| && after.retries[..|d.retries|] == d.retries
      && forall i | 0 <= i < |tasks| ::
           after.retries[|d.retries| + i] == Retry(tasks[i].(attempts := MaxAttempts(tasks) + 1), now + 4_000)
  {
    hide Lookup, SettleAll, MaxAttempts, BackedOff;
  }
}
