/** One pass of the checker over its tasks, as values: group by slot, fetch, then compare, retry or give up. */
module CheckSpec {
  import opened Common
  import opened Options
  import opened AuditSpec
  import opened Comparison
  import opened Auditing

  const MAX_ATTEMPTS: nat := 5
  const BLOCK_CACHE: nat := 12
  const MAX_CALLS_PER_TICK: nat := 4
  /** Durations in milliseconds. */
  const RETRY_AFTER: nat := 4_000
  const BACKOFF_MIN: nat := 5_000
  const BACKOFF_MAX: nat := 120_000
  /** In seconds. */
  const GIVE_UP_SECS: nat := 600

  datatype Retry = Retry(task: SlotTask, notBefore: nat)

  datatype Backoff = Backoff(until: nat, pause: nat)

  datatype CacheEntry = CacheEntry(slot: nat, block: Block)

  /** What `getBlock` answers. */
  datatype Reply = Answered(block: Block) | SlotSkipped | NotAvailable | Failed

  /** The outside world during a pass: the answer for each slot, and the time at which its turn comes. */
  datatype World = World(reply: nat -> Reply, at: nat -> nat)

  /** The windows and the checker's own state; `calls` counts the requests of this pass. */
  datatype Desk = Desk(
    windows: map<WindowKey, Window>,
    retries: seq<Retry>,
    cache: seq<CacheEntry>,
    backoff: Option<Backoff>,
    calls: nat)

  function Lookup(cache: seq<CacheEntry>, slot: nat): Option<Block> {
    if cache == [] then None
    else if cache[0].slot == slot then Some(cache[0].block)
    else Lookup(cache[1..], slot)
  }

  function Remember(cache: seq<CacheEntry>, e: CacheEntry): seq<CacheEntry> {
    var grown := cache + [e];
    if |grown| > BLOCK_CACHE then grown[1..] else grown
  }

  /** Every failure doubles the next pause up to the longest; any success clears it. */
  function BackedOff(b: Option<Backoff>, now: nat): Backoff {
    var pause := if b.Some? then b.value.pause else BACKOFF_MIN;
    Backoff(now + pause, Min(pause * 2, BACKOFF_MAX))
  }

  function Fetch(d: Desk, slot: nat, reply: Reply, now: nat): (Desk, Option<Fetched>) {
    var cached := Lookup(d.cache, slot);
    if cached.Some? then (d, Some(Found(cached.value))) else
    match reply
    case Answered(b) => (d.(cache := Remember(d.cache, CacheEntry(slot, b)), backoff := None), Some(Found(b)))
    case SlotSkipped => (d.(backoff := None), Some(NoBlock))
    case NotAvailable => (d, None)
    case Failed => (d.(backoff := Some(BackedOff(d.backoff, now))), None)
  }

  function Waiting(tasks: seq<SlotTask>, notBefore: nat): seq<Retry> {
    seq(|tasks|, i requires 0 <= i < |tasks| => Retry(tasks[i], notBefore))
  }

  function Attempted(tasks: seq<SlotTask>, attempts: nat): seq<SlotTask> {
    seq(|tasks|, i requires 0 <= i < |tasks| => tasks[i].(attempts := attempts))
  }

  function MaxAttempts(tasks: seq<SlotTask>): nat {
    if tasks == [] then 0 else Max(MaxAttempts(tasks[..|tasks| - 1]), tasks[|tasks| - 1].attempts)
  }

  /** What comparing a task with what was fetched does to its window. */
  ghost function OutcomeOf(t: SlotTask, fetched: Option<Fetched>, filters: nat): Outcome {
    match fetched
    case None => Unchecked
    case Some(Found(b)) => Checked(Results(Found(b), t.deliveries, filters))
    case Some(NoBlock) => Skipped(Results(NoBlock, t.deliveries, filters))
  }

  ghost function SettleOne(windows: map<WindowKey, Window>, t: SlotTask, fetched: Option<Fetched>): map<WindowKey, Window> {
    if t.key in windows then windows[t.key := Settle(windows[t.key], OutcomeOf(t, fetched, windows[t.key].filters))]
    else windows
  }

  ghost function SettleAll(windows: map<WindowKey, Window>, tasks: seq<SlotTask>, fetched: Option<Fetched>): map<WindowKey, Window> {
    if tasks == [] then windows
    else SettleOne(SettleAll(windows, tasks[..|tasks| - 1], fetched), tasks[|tasks| - 1], fetched)
  }

  predicate Paused(d: Desk, now: nat) { d.backoff.Some? && d.backoff.value.until > now }

  /** No request may be made for this slot now. */
  predicate Deferred(d: Desk, slot: nat, now: nat) {
    Lookup(d.cache, slot).None? && (Paused(d, now) || d.calls >= MAX_CALLS_PER_TICK)
  }

  /** All tasks of one slot: one fetch serves them all. */
  ghost function GroupStep(d: Desk, slot: nat, tasks: seq<SlotTask>, reply: Reply, now: nat): Desk {
    if Deferred(d, slot, now) then
      d.(retries := d.retries + Waiting(tasks, if Paused(d, now) then d.backoff.value.until else now))
    else
      var called := if Lookup(d.cache, slot).Some? then d else d.(calls := d.calls + 1);
      var attempt := MaxAttempts(tasks) + 1;
      var (after, fetched) := Fetch(called, slot, reply, now);
      if fetched.None? && attempt < MAX_ATTEMPTS then
        after.(retries := after.retries + Waiting(Attempted(tasks, attempt), now + RETRY_AFTER))
      else
        after.(windows := SettleAll(after.windows, tasks, fetched))
  }

  function AtSlot(tasks: seq<SlotTask>, slot: nat): seq<SlotTask> {
    if tasks == [] then [] else
    AtSlot(tasks[..|tasks| - 1], slot) + if tasks[|tasks| - 1].slot == slot then [tasks[|tasks| - 1]] else []
  }

  function NotAtSlot(tasks: seq<SlotTask>, slot: nat): (r: seq<SlotTask>)
    ensures |r| <= |tasks|
  {
    if tasks == [] then [] else
    NotAtSlot(tasks[..|tasks| - 1], slot) + if tasks[|tasks| - 1].slot != slot then [tasks[|tasks| - 1]] else []
  }

  function LeastSlot(tasks: seq<SlotTask>): nat
    requires tasks != []
  {
    if |tasks| == 1 then tasks[0].slot
    else Min(LeastSlot(tasks[..|tasks| - 1]), tasks[|tasks| - 1].slot)
  }

  lemma {:induction false} LeastSlotLaws(tasks: seq<SlotTask>)
    requires tasks != []
    ensures forall t | t in tasks :: LeastSlot(tasks) <= t.slot
    ensures exists t :: t in tasks && t.slot == LeastSlot(tasks)
  {
    var last := tasks[|tasks| - 1];
    assert last in tasks;
    if |tasks| > 1 {
      LeastSlotLaws(tasks[..|tasks| - 1]);
      var t :| t in tasks[..|tasks| - 1] && t.slot == LeastSlot(tasks[..|tasks| - 1]);
      assert t in tasks;
      assert tasks == tasks[..|tasks| - 1] + [last];
    }
  }

  lemma {:induction false} SlotMembers(tasks: seq<SlotTask>, slot: nat)
    ensures forall t :: t in AtSlot(tasks, slot) <==> t in tasks && t.slot == slot
    ensures forall t :: t in NotAtSlot(tasks, slot) <==> t in tasks && t.slot != slot
    ensures |AtSlot(tasks, slot)| + |NotAtSlot(tasks, slot)| == |tasks|
  {
    if tasks != [] {
      SlotMembers(tasks[..|tasks| - 1], slot);
      assert tasks == tasks[..|tasks| - 1] + [tasks[|tasks| - 1]];
    }
  }

  lemma FewerLeft(tasks: seq<SlotTask>)
    requires tasks != []
    ensures |NotAtSlot(tasks, LeastSlot(tasks))| < |tasks|
  {
    LeastSlotLaws(tasks);
    SlotMembers(tasks, LeastSlot(tasks));
    var t :| t in tasks && t.slot == LeastSlot(tasks);
    assert t in AtSlot(tasks, LeastSlot(tasks));
  }

  /** The slots in ascending order. */
  ghost function Work(d: Desk, tasks: seq<SlotTask>, w: World): Desk
    decreases |tasks|
  {
    if tasks == [] then d else
    var slot := LeastSlot(tasks);
    FewerLeft(tasks);
    Work(GroupStep(d, slot, AtSlot(tasks, slot), w.reply(slot), w.at(slot)), NotAtSlot(tasks, slot), w)
  }
}
