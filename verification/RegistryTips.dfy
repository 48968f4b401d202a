/** The registry's tips and global counts by the reports that came, and which rows a finalize retires. */
module RegistryTips {
  import opened Common
  import opened Options
  import opened AuditSpec
  import opened RegistrySpec
  import opened RegistryRuns
  import opened FirstReports

  /** Some report, of any source or of source `i`, among the first `k` events told slot `slot` or a later one. */
  ghost predicate Reached(es: seq<Event>, k: nat, i: Option<nat>, slot: nat)
    requires k <= |es|
  {
    exists j :: 0 <= j < k && es[j].Recorded? && (i == None || i == Some(es[j].sid)) && es[j].slot >= slot
  }

  /** `tip` is the latest slot told, 0 if none was. */
  ghost predicate IsTip(es: seq<Event>, k: nat, i: Option<nat>, tip: nat)
    requires k <= |es|
  {
    forall slot: nat | slot > 0 :: Reached(es, k, i, slot) <==> slot <= tip
  }

  ghost predicate TipsOk(b: Book, es: seq<Event>, k: nat)
    requires k <= |es|
  {
    && Shaped(b.r)
    && IsTip(es, k, None, b.r.highSlot)
    && forall i: nat | i < |b.r.sources| :: IsTip(es, k, Some(i), b.r.sources[i].latestSlot)
  }

  lemma TipMore(es: seq<Event>, k: nat, next: nat, i: Option<nat>, tip: nat)
    requires k < |es| && next == k + 1 && IsTip(es, k, i, tip)
    ensures IsTip(es, next, i, if es[k].Recorded? && (i == None || i == Some(es[k].sid)) then Max(tip, es[k].slot) else tip)
  {
    forall slot: nat ensures Reached(es, next, i, slot) <==>
      Reached(es, k, i, slot) || (es[k].Recorded? && (i == None || i == Some(es[k].sid)) && es[k].slot >= slot)
    {
    }
    hide Reached;
  }

  lemma {:induction false} FoldKeepsTips(r: Registry, row: SigRow, k: nat)
    requires Shaped(r) && |row.ts| == |r.shred| && k <= |row.ts|
    ensures forall i | 0 <= i < |r.sources| ::
      FoldUpTo(r, row, k).sources[i].latestSlot == r.sources[i].latestSlot && FoldUpTo(r, row, k).sources[i].seen == r.sources[i].seen
  {
    hide Behind, Wins, AddLatency, Earliest;
    if k > 0 {
      FoldKeepsTips(r, row, k - 1);
    }
  }

  lemma {:induction false} RetireKeepsTips(r: Registry, sigs: seq<Signature>)
    requires Shaped(r) && (forall s | s in sigs :: s in r.events) && (forall i, j | 0 <= i < j < |sigs| :: sigs[i] != sigs[j])
    ensures var after := RetireAll(r, sigs);
      && after.distinctTotal == r.distinctTotal && after.versions == r.versions && |after.sources| == |r.sources|
      && forall i | 0 <= i < |r.sources| :: after.sources[i].latestSlot == r.sources[i].latestSlot && after.sources[i].seen == r.sources[i].seen
  {
    if sigs != [] {
      hide FoldUpTo, Contends;
      var front, last := sigs[..|sigs| - 1], sigs[|sigs| - 1];
      assert sigs == front + [last];
      RetireKeepsTips(r, front);
      var mid := RetireAll(r, front);
      var row := mid.events[last];
      FoldKeepsTips(mid.(events := mid.events - {last}, contestedTotal := mid.contestedTotal + 1), row, |row.ts|);
    }
  }

  /** What one event does to the tips and counts. */
  lemma StepTips(b: Book, e: Event)
    requires Enabled(b, e)
    ensures var r, after := b.r, Step(b, e).r;
      && Shaped(after) && |after.sources| == |r.sources|
      && after.highSlot == (if e.Recorded? then Max(r.highSlot, e.slot) else r.highSlot)
      && forall i | 0 <= i < |r.sources| ::
           after.sources[i].latestSlot == if e.Recorded? && e.sid == i then Max(r.sources[i].latestSlot, e.slot) else r.sources[i].latestSlot
  {
    if e.Finalized? {
      var floor := if e.force then EVERYTHING else Floor(b.r);
      RetireKeepsTips(b.r.(finalizedFloor := floor), e.sigs);
    }
    hide Fold, RetireAll, Sighted;
  }

  lemma {:induction false} TipsMean(trace: seq<Book>, es: seq<Event>, k: nat)
    requires IsRun(trace, es) && k < |trace|
    ensures TipsOk(trace[k], es, k)
  {
    hide Step, Enabled, IsTip;
    if k == 0 {
      NoTips(trace[0], es);
    } else {
      TipsMean(trace, es, k - 1);
      var b, e := trace[k - 1], es[k - 1];
      assert Enabled(b, e) && trace[k] == Step(b, e);
      StepTips(b, e);
      TipMore(es, k - 1, k, None, b.r.highSlot);
      forall i: nat | i < |b.r.sources| ensures IsTip(es, k, Some(i), trace[k].r.sources[i].latestSlot) {
        TipMore(es, k - 1, k, Some(i), b.r.sources[i].latestSlot);
      }
    }
  }

  lemma NoTips(b: Book, es: seq<Event>)
    requires exists shred: seq<bool>, rotating: seq<bool> :: |shred| == |rotating| && b == Book(NewRegistry(shred, rotating), [], map[])
    ensures TipsOk(b, es, 0)
  {}

  // ----- what a finalize retires -----

  /** Some report told a slot more than 64 after this one. */
  ghost predicate Passed(es: seq<Event>, k: nat, slot: nat)
    requires k <= |es|
  {
    Reached(es, k, None, slot + 65)
  }

  /** The slot of the row is known, and a report told one more than 64 slots after it. */
  ghost predicate FellBehind(es: seq<Event>, k: nat, h: seq<Report>)
    requires k <= |es|
  {
    exists j :: 0 <= j < |h| && h[j].slot != 0 && (forall m | 0 <= m < j :: h[m].slot == 0) && Passed(es, k, h[j].slot)
  }

  /**
   A finalize retires exactly the signatures in flight whose first told slot fell more than 64
   slots behind the tip, or all of them when forced; it leaves a floor that is 64 slots behind.
   */
  lemma RetiredIff(trace: seq<Book>, es: seq<Event>, k: nat, sig: Signature)
    requires IsRun(trace, es) && k < |es| && es[k].Finalized?
    ensures sig in es[k].sigs <==> History(es, k, sig) != [] && (es[k].force || FellBehind(es, k, History(es, k, sig)))
    ensures !es[k].force ==> forall slot: nat :: Passed(es, k, slot) <==> slot < trace[k + 1].r.finalizedFloor
  {
    TipsMean(trace, es, k);
    RowsKeepFirstReports(trace, es, k);
    assert Enabled(trace[k], es[k]) && trace[k + 1] == Step(trace[k], es[k]);
    hide IsRun, History, Histories, RetireAll, Shaped, Fold;
    var r, h := trace[k].r, History(es, k, sig);
    assert sig in es[k].sigs <==> Retires(r, es[k].force, sig);
    assert forall slot: nat :: Passed(es, k, slot) <==> slot + 65 <= r.highSlot;
    hide Passed;
    if sig in r.events {
      SlotIsFirstTold(r.events[sig], h, |r.shred|);
    }
  }

  lemma SlotIsFirstTold(row: SigRow, h: seq<Report>, n: nat)
    requires RowMeans(row, h, n)
    ensures row.slot != 0 <==> exists j :: 0 <= j < |h| && h[j].slot != 0
    ensures forall j | 0 <= j < |h| && h[j].slot != 0 && (forall m | 0 <= m < j :: h[m].slot == 0) :: row.slot == h[j].slot
    ensures row.slot != 0 ==> exists j :: 0 <= j < |h| && h[j].slot != 0 && (forall m | 0 <= m < j :: h[m].slot == 0)
  {
    hide EntryMeans;
  }

  // ----- counts -----

  /** Report `j` was the first of its signature since that was last retired. */
  ghost predicate NewSignature(es: seq<Event>, j: nat) {
    j < |es| && es[j].Recorded? && History(es, j, es[j].sig) == []
  }

  /** It was the first of source `i`. */
  ghost predicate NewSighting(es: seq<Event>, j: nat, i: nat) {
    j < |es| && es[j].Recorded? && es[j].sid == i && FirstReport(History(es, j, es[j].sig), i).None?
  }

  /** It was the first to tell the version, and that is `v`. */
  ghost predicate NewVersion(es: seq<Event>, j: nat, v: Version) {
    && j < |es| && es[j].Recorded? && es[j].meta.version == Some(v)
    && forall m | 0 <= m < |History(es, j, es[j].sig)| :: History(es, j, es[j].sig)[m].meta.version == None
  }

  ghost function Times(k: nat, f: nat -> bool): nat { if k == 0 then 0 else Times(k - 1, f) + One(f(k - 1)) }

  function VersionCount(c: VersionCounts, v: Version): nat {
    match v
    case Vote => c.vote
    case Legacy => c.legacy
    case V0 => c.v0
    case V1 => c.v1
  }

  ghost predicate CountsOk(b: Book, es: seq<Event>, k: nat) {
    && b.r.distinctTotal == Times(k, (j: nat) => NewSignature(es, j))
    && (forall i: nat | i < |b.r.sources| :: b.r.sources[i].seen == Times(k, (j: nat) => NewSighting(es, j, i)))
    && (forall v :: VersionCount(b.r.versions, v) == Times(k, (j: nat) => NewVersion(es, j, v)))
  }

  lemma RecordedCounts(b: Book, es: seq<Event>, k: nat)
    requires k < |es| && es[k].Recorded? && Enabled(b, es[k]) && BookMeans(b, es, k)
    ensures var r, after := b.r, Step(b, es[k]).r;
      && after.distinctTotal == r.distinctTotal + One(NewSignature(es, k))
      && |after.sources| == |r.sources|
      && (forall i: nat | i < |r.sources| :: after.sources[i].seen == r.sources[i].seen + One(NewSighting(es, k, i)))
      && (forall v :: VersionCount(after.versions, v) == VersionCount(r.versions, v) + One(NewVersion(es, k, v)))
  {
    hide Sighted, FirstReport, History, Histories;
    var e, row := es[k], RowFor(b.r, es[k].sig, es[k].slot);
    var h := History(es, k, e.sig);
    if e.sig in b.r.events {
      PresentMeans(row, h, |b.r.shred|, e.sid);
      hide RowMeans;
      VersionMeans(row, h, |b.r.shred|);
    } else {
      EmptyHistory(e.sid);
    }
  }

  lemma EmptyHistory(i: nat)
    ensures FirstReport([], i) == None
  {}

  lemma VersionMeans(row: SigRow, h: seq<Report>, n: nat)
    requires RowMeans(row, h, n)
    ensures row.versionCounted <==> exists j :: 0 <= j < |h| && h[j].meta.version.Some?
  {
    hide EntryMeans, SlotMeans;
  }

  lemma OtherCounts(b: Book, e: Event)
    requires Enabled(b, e) && !e.Recorded?
    ensures var r, after := b.r, Step(b, e).r;
      && after.distinctTotal == r.distinctTotal && after.versions == r.versions && |after.sources| == |r.sources|
      && forall i | 0 <= i < |r.sources| :: after.sources[i].seen == r.sources[i].seen
  {
    if e.Finalized? {
      var floor := if e.force then EVERYTHING else Floor(b.r);
      RetireKeepsTips(b.r.(finalizedFloor := floor), e.sigs);
    }
    hide Fold, RetireAll;
  }

  /** Over any run each count is the number of reports that were the first of their kind. */
  lemma {:induction false} CountedOnce(trace: seq<Book>, es: seq<Event>, k: nat)
    requires IsRun(trace, es) && k < |trace|
    ensures CountsOk(trace[k], es, k)
  {
    hide Step, Enabled, NewSignature, NewSighting, NewVersion, BookMeans;
    if k > 0 {
      CountedOnce(trace, es, k - 1);
      RowsKeepFirstReports(trace, es, k - 1);
      var b, e := trace[k - 1], es[k - 1];
      assert Enabled(b, e) && trace[k] == Step(b, e);
      if e.Recorded? {
        RecordedCounts(b, es, k - 1);
      } else {
        OtherCounts(b, e);
        NoneNew(es, k - 1);
      }
      hide IsRun, VersionCount;
    }
  }

  lemma NoneNew(es: seq<Event>, k: nat)
    requires k < |es| && !es[k].Recorded?
    ensures !NewSignature(es, k) && (forall i :: !NewSighting(es, k, i)) && forall v :: !NewVersion(es, k, v)
  {}
}
