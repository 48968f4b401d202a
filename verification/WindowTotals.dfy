/**
 What the totals of a window are: over all its tasks that came back with a block, or with the
 answer that there is none, the sizes of the sets that the comparison tells apart.
 */
module WindowTotals {
  import opened Options
  import opened AuditSpec
  import opened AuditLaws
  import opened Comparison
  import opened Auditing
  import opened CheckSpec
  import opened CheckLaws
  import opened AuditSystem

  datatype Count = ExpectedOnes | DeliveredOnes | MatchedOnes | MissedOnes | RejectedOnes | UnknownOnes

  function Get(t: CheckTotals, c: Count): nat {
    match c
    case ExpectedOnes => t.expected
    case DeliveredOnes => t.delivered
    case MatchedOnes => t.matched
    case MissedOnes => t.missed
    case RejectedOnes => t.extraInBlock
    case UnknownOnes => t.extraNotInBlock
  }

  /** Filter `i` on one slot: what a block has, and what of that, or beside that, was delivered; without a block nothing is expected. */
  ghost function SizeOf(fetched: Fetched, ds: Deliveries, i: nat, c: Count): nat {
    var b := if fetched.Found? then fetched.block else [];
    match c
    case ExpectedOnes => |set k | 0 <= k < |b| && i in b[k].matching|
    case DeliveredOnes => |set s | s in ds && i in ds[s]|
    case MatchedOnes => |set k | 0 <= k < |b| && i in b[k].matching && b[k].signature in ds && i in ds[b[k].signature]|
    case MissedOnes => |set k | 0 <= k < |b| && i in b[k].matching && !(b[k].signature in ds && i in ds[b[k].signature])|
    case RejectedOnes => |set s | s in ds && i in ds[s] && InBlock(b, s) && i !in b[LastAt(b, s)].matching|
    case UnknownOnes => |set s | s in ds && i in ds[s] && !InBlock(b, s)|
  }

  predicate InBlock(b: Block, s: Signature) { exists k :: 0 <= k < |b| && b[k].signature == s }

  /** The last transaction of the block with this signature. */
  function LastAt(b: Block, s: Signature): (k: nat)
    requires InBlock(b, s)
    ensures k < |b| && b[k].signature == s && forall j | k < j < |b| :: b[j].signature != s
  {
    if b[|b| - 1].signature == s then |b| - 1 else
    assert InBlock(b[..|b| - 1], s) by {
      var k :| 0 <= k < |b| && b[k].signature == s;
      assert b[..|b| - 1][k] == b[k];
    }
    LastAt(b[..|b| - 1], s)
  }

  /** Over the first `k` events, the tasks of `key` that came back with an answer. */
  ghost function SumOf(trace: seq<System>, es: seq<Event>, k: nat, key: WindowKey, i: nat, c: Count): nat
    requires k <= |es| < |trace|
  {
    if k == 0 then 0 else SumOf(trace, es, k - 1, key, i, c) + Adds(trace[k - 1], es[k - 1], key, i, c)
  }

  ghost function Adds(s: System, e: Event, key: WindowKey, i: nat, c: Count): nat {
    if e.CameBack? && e.i < |s.tasks| && s.tasks[e.i].key == key && e.fetched.Some?
    then SizeOf(e.fetched.value, s.tasks[e.i].deliveries, i, c) else 0
  }

  // ----- one comparison -----

  lemma IndexMeans(b: Block, s: Signature)
    ensures s in IndexOf(b) <==> InBlock(b, s)
    ensures InBlock(b, s) ==> IndexOf(b)[s] == LastAt(b, s)
  {
    IndexLaws(b);
    if InBlock(b, s) {
      IndexIsLast(b, LastAt(b, s));
    }
    hide IndexOf;
  }

  /** The totals of a comparison are those sizes. */
  lemma TotalsMean(fetched: Fetched, ds: Deliveries, i: nat, c: Count)
    ensures Get(TotalsOf(fetched, ds, i), c) == SizeOf(fetched, ds, i, c)
  {
    var b := if fetched.Found? then fetched.block else [];
    match c
    case ExpectedOnes =>
      assert fetched.Found? ==> Expected(b, i) == set k | 0 <= k < |b| && i in b[k].matching;
      assert fetched.NoBlock? ==> (set k | 0 <= k < |b| && i in b[k].matching) == {};
    case DeliveredOnes =>
      assert Tagged(ds, i) == set s | s in ds && i in ds[s];
    case MatchedOnes =>
      assert Matched(b, ds, i) == set k | 0 <= k < |b| && i in b[k].matching && b[k].signature in ds && i in ds[b[k].signature];
      assert fetched.NoBlock? ==> Matched(b, ds, i) == {};
    case MissedOnes =>
      MissedMeans(b, ds, i);
      assert fetched.NoBlock? ==> Expected(b, i) == {};
    case RejectedOnes =>
      forall s | InBlock(b, s) ensures s in IndexOf(b) && IndexOf(b)[s] == LastAt(b, s) { IndexMeans(b, s); }
      forall s | s in IndexOf(b) ensures InBlock(b, s) { IndexMeans(b, s); }
      hide IndexOf, LastAt;
      assert ExtraInBlock(b, ds, i) == set s | s in ds && i in ds[s] && InBlock(b, s) && i !in b[LastAt(b, s)].matching;
      assert fetched.NoBlock? ==> ExtraInBlock(b, ds, i) == {};
    case UnknownOnes =>
      forall s ensures s in IndexOf(b) <==> InBlock(b, s) { IndexMeans(b, s); }
      hide IndexOf, LastAt;
      assert ExtraNotInBlock(b, ds, i) == set s | s in ds && i in ds[s] && !InBlock(b, s);
      assert fetched.NoBlock? ==> Tagged(ds, i) == ExtraNotInBlock(b, ds, i);
  }

  lemma MissedMeans(b: Block, ds: Deliveries, i: nat)
    ensures |Expected(b, i)| - |Matched(b, ds, i)| ==
            |set k | 0 <= k < |b| && i in b[k].matching && !(b[k].signature in ds && i in ds[b[k].signature])|
  {
    var rest := set k | 0 <= k < |b| && i in b[k].matching && !(b[k].signature in ds && i in ds[b[k].signature]);
    assert Expected(b, i) == Matched(b, ds, i) + rest && Matched(b, ds, i) !! rest;
  }

  // ----- one step -----

  lemma SettleSums(w: Window, t: SlotTask, fetched: Option<Fetched>, i: nat, c: Count)
    requires |w.totals| == w.filters && i < w.filters
    ensures var after := Settle(w, OutcomeOf(t, fetched, w.filters));
      && |after.totals| == after.filters == w.filters
      && Get(after.totals[i], c) == Get(w.totals[i], c) + if fetched.Some? then SizeOf(fetched.value, t.deliveries, i, c) else 0
  {
    hide TotalsOf, SizeOf;
    if fetched.Some? {
      TotalsMean(fetched.value, t.deliveries, i, c);
    }
  }

  /** Every open window sums up what its tasks came back with; of a window not yet opened none did. */
  ghost predicate TotalsAreSums(s: System, trace: seq<System>, es: seq<Event>, k: nat, key: WindowKey)
    requires k <= |es| < |trace|
  {
    && (key in s.windows ==>
          && |s.windows[key].totals| == s.windows[key].filters
          && forall i: nat, c | i < s.windows[key].filters :: Get(s.windows[key].totals[i], c) == SumOf(trace, es, k, key, i, c))
    && (key !in s.known ==> key !in s.windows && forall i, c :: SumOf(trace, es, k, key, i, c) == 0)
  }

  lemma OpenedSums(commitmentLag: nat, filters: nat, i: nat, c: Count)
    requires i < filters
    ensures var w := NewWindow(commitmentLag, filters); |w.totals| == filters == w.filters && Get(w.totals[i], c) == 0
  {}

  /** Only tasks that come back move the totals. */
  lemma OthersKeepTotals(c: Config, s: System, e: Event, key: WindowKey)
    requires c.n > 0 && Enabled(s, e) && !e.CameBack? && key in Step(c, s, e).windows
    requires !(e.Opened? && e.key == key)
    ensures key in s.windows
    ensures Step(c, s, e).windows[key].totals == s.windows[key].totals && Step(c, s, e).windows[key].filters == s.windows[key].filters
  {
    hide Ready, FirstAfter;
    if e.Took? && e.key in s.windows {
      ReadyTotals(e.key, s.windows[e.key], e.tip, c.lag, c.n);
    }
  }

  lemma CameBackSums(c: Config, s: System, e: Event, key: WindowKey, i: nat, count: Count)
    requires c.n > 0 && Enabled(s, e) && e.CameBack? && key in s.windows
    requires |s.windows[key].totals| == s.windows[key].filters && i < s.windows[key].filters
    ensures var after := Step(c, s, e);
      && key in after.windows
      && |after.windows[key].totals| == after.windows[key].filters == s.windows[key].filters
      && Get(after.windows[key].totals[i], count) == Get(s.windows[key].totals[i], count) + Adds(s, e, key, i, count)
  {
    hide Settle, OutcomeOf, SizeOf;
    SettleSums(s.windows[key], s.tasks[e.i], e.fetched, i, count);
  }

  lemma CameBackFilters(c: Config, s: System, e: Event, key: WindowKey)
    requires c.n > 0 && Enabled(s, e) && e.CameBack?
    ensures Step(c, s, e).windows.Keys == s.windows.Keys && Step(c, s, e).known == s.known
    ensures key in s.windows ==>
      && Step(c, s, e).windows[key].filters == s.windows[key].filters
      && |Step(c, s, e).windows[key].totals| == |s.windows[key].totals|
  {
    hide OutcomeOf;
  }

  lemma StepSums(c: Config, trace: seq<System>, es: seq<Event>, k: nat, key: WindowKey)
    requires c.n > 0 && IsRun(c, trace, es) && k < |es| && SystemOk(trace[k], c.n, false)
    requires TotalsAreSums(trace[k], trace, es, k, key)
    ensures TotalsAreSums(trace[k + 1], trace, es, k + 1, key)
  {
    hide Get, WindowOk, SizeOf, Step, NewWindow;
    var s, e, after := trace[k], es[k], trace[k + 1];
    assert Enabled(s, e) && after == Step(c, s, e);
    SumMore(trace, es, k, key);
    hide SumOf, IsRun;
    KnownStep(c, s, e, key);
    if key in after.windows {
      if e.CameBack? {
        CameBackFilters(c, s, e, key);
        forall i: nat, count | i < after.windows[key].filters
          ensures Get(after.windows[key].totals[i], count) == SumOf(trace, es, k + 1, key, i, count)
        {
          CameBackSums(c, s, e, key, i, count);
        }
      } else if e.Opened? && e.key == key {
        OpenedStep(c, s, e, key);
        forall i: nat, count | i < after.windows[key].filters
          ensures Get(after.windows[key].totals[i], count) == SumOf(trace, es, k + 1, key, i, count)
        {
          OpenedSums(e.commitmentLag, e.filters, i, count);
        }
      } else {
        OthersKeepTotals(c, s, e, key);
      }
    }
  }

  lemma OpenedStep(c: Config, s: System, e: Event, key: WindowKey)
    requires c.n > 0 && Enabled(s, e) && e.Opened? && e.key == key
    ensures key in Step(c, s, e).windows && Step(c, s, e).windows[key] == NewWindow(e.commitmentLag, e.filters) && key !in s.known
    ensures |NewWindow(e.commitmentLag, e.filters).totals| == e.filters == NewWindow(e.commitmentLag, e.filters).filters
  {}

  lemma KnownStep(c: Config, s: System, e: Event, key: WindowKey)
    requires c.n > 0 && Enabled(s, e)
    ensures key !in Step(c, s, e).known ==> key !in s.known
    ensures key !in s.known && key !in s.windows && key !in Step(c, s, e).known ==> key !in Step(c, s, e).windows
  {
    hide Ready, Deliver, Subscribe, NewWindow, OutcomeOf, FirstAfter;
  }

  lemma SumMore(trace: seq<System>, es: seq<Event>, k: nat, key: WindowKey)
    requires k < |es| < |trace|
    ensures forall i, c :: SumOf(trace, es, k + 1, key, i, c) == SumOf(trace, es, k, key, i, c) + Adds(trace[k], es[k], key, i, c)
    ensures key !in trace[k].known && (forall t | t in trace[k].tasks :: t.key in trace[k].known) ==>
      forall i, c :: Adds(trace[k], es[k], key, i, c) == 0
    ensures !es[k].CameBack? ==> forall i, c :: Adds(trace[k], es[k], key, i, c) == 0
  {
    hide SizeOf;
  }

  /**
   In every state of every run, each total of each filter of an open window is the sum of that
   size over the tasks of the window that came back with a block or with the answer that there is
   none; what the window reports when it is released is that sum.
   */
  lemma {:induction false} TotalsAreTheComparisons(c: Config, trace: seq<System>, es: seq<Event>, k: nat, key: WindowKey)
    requires c.n > 0 && IsRun(c, trace, es) && k < |trace|
    ensures TotalsAreSums(trace[k], trace, es, k, key)
    ensures key in trace[k].windows ==>
      var w := Finished(trace[k].windows[key]);
      |w.totals| == w.filters
      && forall i: nat, count | i < w.filters :: Get(w.totals[i], count) == SumOf(trace, es, k, key, i, count)
  {
    hide Step, Enabled, Get, SystemOk;
    if k > 0 {
      TotalsAreTheComparisons(c, trace, es, k - 1, key);
      AlwaysBalanced(c, trace, es, k - 1, false);
      StepSums(c, trace, es, k - 1, key);
      hide TotalsAreSums;
    }
  }

  // ----- one pass of the checker -----

  /** The tasks of `key` in a list, compared with one answer. */
  ghost function SumTasks(tasks: seq<SlotTask>, fetched: Option<Fetched>, key: WindowKey, i: nat, c: Count): nat {
    if tasks == [] || fetched.None? then 0 else
    SumTasks(tasks[..|tasks| - 1], fetched, key, i, c) +
    if tasks[|tasks| - 1].key == key then SizeOf(fetched.value, tasks[|tasks| - 1].deliveries, i, c) else 0
  }

  lemma {:induction false} SettleAllSums(windows: map<WindowKey, Window>, tasks: seq<SlotTask>, fetched: Option<Fetched>,
                                         key: WindowKey, i: nat, c: Count)
    requires key in windows && |windows[key].totals| == windows[key].filters && i < windows[key].filters
    ensures var after := SettleAll(windows, tasks, fetched);
      && key in after && |after[key].totals| == after[key].filters == windows[key].filters
      && Get(after[key].totals[i], c) == Get(windows[key].totals[i], c) + SumTasks(tasks, fetched, key, i, c)
  {
    if tasks != [] {
      hide Settle, OutcomeOf, SizeOf;
      var front, t := tasks[..|tasks| - 1], tasks[|tasks| - 1];
      SettleAllSums(windows, front, fetched, key, i, c);
      SettleSums(SettleAll(windows, front, fetched)[key], t, fetched, i, c);
    }
  }

  /** Every cached block is the block of its slot. */
  ghost predicate CacheTrue(cache: seq<CacheEntry>, blocks: nat -> Block) {
    forall e | e in cache :: e.block == blocks(e.slot)
  }

  lemma FetchTrue(d: Desk, slot: nat, reply: Reply, now: nat, blocks: nat -> Block)
    requires CacheTrue(d.cache, blocks) && (reply.Answered? ==> reply.block == blocks(slot))
    ensures var (after, fetched) := Fetch(d, slot, reply, now);
      && CacheTrue(after.cache, blocks) && after.windows == d.windows
      && (fetched.Some? && fetched.value.Found? <==> Lookup(d.cache, slot).Some? || reply.Answered?)
      && (fetched == Some(NoBlock) <==> Lookup(d.cache, slot).None? && reply.SlotSkipped?)
      && (fetched.Some? && fetched.value.Found? ==> fetched.value.block == blocks(slot))
  {
    if Lookup(d.cache, slot).Some? {
      LookupGood(d.cache, slot);
      hide Lookup;
      var j :| 0 <= j < |d.cache| && d.cache[j] == CacheEntry(slot, Lookup(d.cache, slot).value);
      assert d.cache[j] in d.cache;
    }
    hide Lookup;
  }

  /**
   A group of tasks of one slot: if there is a block, in the cache or as the answer, each of them
   is compared with the block of that slot; if the answer is that there is none, with nothing;
   otherwise no total moves.
   */
  lemma GroupSums(d: Desk, slot: nat, tasks: seq<SlotTask>, reply: Reply, now: nat, blocks: nat -> Block, key: WindowKey, i: nat, c: Count)
    requires key in d.windows && |d.windows[key].totals| == d.windows[key].filters && i < d.windows[key].filters
    requires CacheTrue(d.cache, blocks) && (reply.Answered? ==> reply.block == blocks(slot))
    ensures var after := GroupStep(d, slot, tasks, reply, now);
      var found := Lookup(d.cache, slot).Some? || reply.Answered?;
      && CacheTrue(after.cache, blocks)
      && key in after.windows && |after.windows[key].totals| == after.windows[key].filters == d.windows[key].filters
      && Get(after.windows[key].totals[i], c) == Get(d.windows[key].totals[i], c) +
           if Deferred(d, slot, now) then 0
           else if found then SumTasks(tasks, Some(Found(blocks(slot))), key, i, c)
           else if reply.SlotSkipped? then SumTasks(tasks, Some(NoBlock), key, i, c)
           else 0
  {
    hide Lookup, Fetch, SettleAll, MaxAttempts, Waiting, Attempted, SizeOf, Get, CacheTrue;
    if !Deferred(d, slot, now) {
      var called := if Lookup(d.cache, slot).Some? then d else d.(calls := d.calls + 1);
      FetchTrue(called, slot, reply, now, blocks);
      var (after, fetched) := Fetch(called, slot, reply, now);
      SettleAllSums(after.windows, tasks, fetched, key, i, c);
    }
  }
}
