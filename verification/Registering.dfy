/** The signature registry, updated in place under its lock. */
module Registering {
  import opened Common
  import opened Options
  import opened AuditSpec
  import opened RegistrySpec

  class SigRegistry {
    const shred: seq<bool>
    var rotating: seq<bool>
    var events: map<Signature, SigRow>
    var highSlot: nat
    var distinctTotal: nat
    var versions: VersionCounts
    var contestedTotal: nat
    var sources: seq<Tally>
    var latency: map<WindowKey, WindowLatency>
    var finalizedFloor: nat

    ghost function View(): Registry
      reads this
    {
      Registry(shred, rotating, events, highSlot, distinctTotal, versions, contestedTotal, sources, latency, finalizedFloor)
    }

    constructor (shred: seq<bool>, rotating: seq<bool>)
      requires |shred| == |rotating|
      ensures View() == NewRegistry(shred, rotating) && Shaped(View())
    {
      this.shred, this.rotating, events, highSlot, distinctTotal := shred, rotating, map[], 0, 0;
      versions, contestedTotal, latency, finalizedFloor := VersionCounts(0, 0, 0, 0), 0, map[], 0;
      sources := seq(|shred|, _ => Tally(0, 0, 0, 0, 0, 0));
    }

    method RecordFirst(sid: nat, sig: Signature, ns: int, slot: nat, meta: Meta)
      requires Shaped(View()) && sid < |shred|
      modifies this
      ensures View() == RegistrySpec.RecordFirst(old(View()), sid, sig, ns, slot, meta)
    {
      hide Sighted, AddVersion;
      highSlot := Max(highSlot, slot);
      var row := if sig in events then events[sig] else NewRow(slot, |shred|);
      if sig !in events {
        distinctTotal := distinctTotal + 1;
      }
      if !row.versionCounted && meta.version.Some? {
        versions := AddVersion(versions, meta.version.value);
      }
      var t := sources[sid];
      sources := sources[sid := t.(latestSlot := Max(t.latestSlot, slot), seen := if row.ts[sid].None? then t.seen + 1 else t.seen)];
      row := Sight(row, sid, ns, slot, meta);
      events := events[sig := row];
    }

    /** What a report changes in its row. */
    static method Sight(before: SigRow, sid: nat, ns: int, slot: nat, meta: Meta) returns (row: SigRow)
      requires sid < |before.ts|
      ensures row == Sighted(before, sid, ns, slot, meta)
    {
      row := before;
      if meta.version.Some? {
        row := row.(versionCounted := true);
      }
      if row.slot == 0 {
        row := row.(slot := slot);
      }
      match row.ts[sid] {
        case Some(s) => row := row.(ts := row.ts[sid := Some(s.(dups := s.dups + 1))]);
        case None => row := row.(ts := row.ts[sid := Some(Seen(ns, 0, meta))]);
      }
    }

    /** Retire the rows that fell behind, or all with `force`; `sigs` lists them in the order they went. */
    method Finalize(force: bool) returns (sigs: seq<Signature>)
      requires Shaped(View())
      modifies this
      ensures ListsRetired(old(View()), force, sigs) && View() == RegistrySpec.Finalize(old(View()), force, sigs)
    {
      hide Shaped, RegistrySpec.Fold, RetireAll, Retiring, ListsRetired;
      var floor := Monus(highSlot, EVICT_MARGIN_SLOTS);
      ghost var before := View();
      var retire := set s | s in events && (force || (events[s].slot != 0 && events[s].slot < floor));
      finalizedFloor := if force then EVERYTHING else floor;
      sigs := [];
      ghost var start := View();
      StartRetiring(before, force, start, retire);
      while retire != {}
        invariant Retiring(before, force, start, View(), sigs, retire)
        decreases retire
      {
        var s :| s in retire;
        RetireMore(before, force, start, View(), sigs, retire, s);
        var row := events[s];
        events := events - {s};
        Fold(row);
        retire, sigs := retire - {s}, sigs + [s];
      }
      Retired(before, force, start, View(), sigs);
    }

    /** Score one row. */
    method Fold(row: SigRow)
      requires Shaped(View()) && |row.ts| == |shred|
      modifies this
      ensures View() == RegistrySpec.Fold(old(View()), row)
    {
      if !Contends(row) {
        return;
      }
      contestedTotal := contestedTotal + 1;
      var first, firstShred := First(row), Earliest(row, |row.ts|, shred);
      hide Contends, First, Earliest, FoldSource, Shaped;
      ghost var start := View();
      CountedShaped(old(View()));
      for i := 0 to |row.ts|
        invariant Shaped(View()) && View() == FoldUpTo(start, row, i)
      {
        ScoreSource(row, i, first, firstShred);
      }
    }

    method ScoreSource(row: SigRow, i: nat, first: Option<int>, firstShred: Option<int>)
      requires Shaped(View()) && |row.ts| == |shred| && i < |row.ts|
      requires first == First(row) && firstShred == Earliest(row, |row.ts|, shred)
      modifies this
      ensures View() == FoldSource(old(View()), row, i)
    {
      hide First, Earliest, ConnectionOf, AddLatency;
      if row.ts[i].Some? {
        var s, t := row.ts[i].value, sources[i];
        var behind := s.ns - first.GetOr(s.ns);
        var isWin := first == Some(s.ns);
        sources := sources[i := t.(contested := t.contested + 1, behindSum := t.behindSum + behind, behindN := t.behindN + 1,
                                   wins := if isWin then t.wins + 1 else t.wins)];
        if rotating[i] {
          latency := AddLatency(latency, ConnectionOf(row, i), isWin, firstShred.Some?);
        }
      }
    }

    method TakeWindowLatency(key: WindowKey) returns (taken: Option<WindowLatency>)
      modifies this
      ensures taken == if key in old(latency) then Some(old(latency)[key]) else None
      ensures View() == old(View()).(latency := old(latency) - {key})
    {
      taken := if key in latency then Some(latency[key]) else None;
      latency := latency - {key};
    }
  }

  lemma CountedShaped(r: Registry)
    requires Shaped(r)
    ensures Shaped(r.(contestedTotal := r.contestedTotal + 1))
  {}

  /** Part of the way through a finalize: `sigs` are gone, `retire` still to go. */
  ghost predicate Retiring(before: Registry, force: bool, start: Registry, now: Registry, sigs: seq<Signature>, retire: set<Signature>) {
    && Shaped(before) && start == before.(finalizedFloor := if force then EVERYTHING else Floor(before))
    && (forall s :: s in sigs || s in retire <==> Retires(before, force, s))
    && (forall s | s in sigs :: s !in retire)
    && (forall i, j | 0 <= i < j < |sigs| :: sigs[i] != sigs[j])
    && now == RetireAll(start, sigs)
  }

  lemma StartRetiring(before: Registry, force: bool, start: Registry, retire: set<Signature>)
    requires Shaped(before) && start == before.(finalizedFloor := if force then EVERYTHING else Floor(before))
    requires forall s :: s in retire <==> Retires(before, force, s)
    ensures Retiring(before, force, start, start, [], retire)
  {}

  lemma RetireMore(before: Registry, force: bool, start: Registry, now: Registry, sigs: seq<Signature>, retire: set<Signature>, s: Signature)
    requires Retiring(before, force, start, now, sigs, retire) && s in retire
    ensures s in now.events && |now.events[s].ts| == |now.shred|
    ensures Shaped(now.(events := now.events - {s}))
    ensures Retiring(before, force, start, RegistrySpec.Fold(now.(events := now.events - {s}), now.events[s]), sigs + [s], retire - {s})
  {
    hide RegistrySpec.Fold, Retires;
    RetiresHeld(before, force);
    RetireLast(start, sigs, s);
  }

  lemma RetiresHeld(r: Registry, force: bool)
    ensures forall s | Retires(r, force, s) :: s in r.events
  {}

  lemma RetireLast(r: Registry, sigs: seq<Signature>, s: Signature)
    requires Shaped(r) && (forall x | x in sigs :: x in r.events) && s in r.events && s !in sigs
    requires forall i, j | 0 <= i < j < |sigs| :: sigs[i] != sigs[j]
    ensures forall i, j | 0 <= i < j < |sigs + [s]| :: (sigs + [s])[i] != (sigs + [s])[j]
    ensures RetireAll(r, sigs + [s]) == Retire(RetireAll(r, sigs), s)
  {
    assert (sigs + [s])[..|sigs|] == sigs;
  }

  lemma Retired(before: Registry, force: bool, start: Registry, now: Registry, sigs: seq<Signature>)
    requires Retiring(before, force, start, now, sigs, {})
    ensures Shaped(before) && ListsRetired(before, force, sigs) && now == RegistrySpec.Finalize(before, force, sigs)
  {
    hide RetireAll, Retires;
  }
}
