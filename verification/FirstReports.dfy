/**
 The registry's rows, retired or in flight, and its scores, by the reports that came: a row keeps
 each source's first report, and the race is decided by those.
 */
module FirstReports {
  import opened Options
  import opened AuditSpec
  import opened RegistrySpec
  import opened RegistryRuns

  datatype Report = Report(sid: nat, ns: int, slot: nat, meta: Meta)

  // ----- what was reported of a signature -----

  /** The reports of a signature since it was last retired, over the first `k` events. */
  function History(es: seq<Event>, k: nat, sig: Signature): seq<Report>
    requires k <= |es|
  {
    if k == 0 then [] else HistoryStep(History(es, k - 1, sig), es[k - 1], sig)
  }

  function HistoryStep(h: seq<Report>, e: Event, sig: Signature): seq<Report> {
    match e
    case Recorded(sid, s, ns, slot, meta) => if s == sig then h + [Report(sid, ns, slot, meta)] else h
    case Finalized(_, sigs) => if sig in sigs then [] else h
    case Took(_) => h
  }

  /** The histories of the rows retired by the first `k` events, in the order they went. */
  function Histories(es: seq<Event>, k: nat): seq<seq<Report>>
    requires k <= |es|
  {
    if k == 0 then [] else
    Histories(es, k - 1) +
    if es[k - 1].Finalized? then
      seq(|es[k - 1].sigs|, j requires 0 <= j < |es[k - 1].sigs| => History(es, k - 1, es[k - 1].sigs[j]))
    else []
  }

  /** The first report of source `i`. */
  ghost predicate FirstBy(h: seq<Report>, i: nat, j: nat) {
    j < |h| && h[j].sid == i && forall m | 0 <= m < j :: h[m].sid != i
  }

  function FirstReport(h: seq<Report>, i: nat): (r: Option<Report>)
    ensures r.None? <==> forall j | 0 <= j < |h| :: h[j].sid != i
    ensures forall j: nat | FirstBy(h, i, j) :: r == Some(h[j])
  {
    if h == [] then None else
    var before := FirstReport(h[..|h| - 1], i);
    assert forall j: nat | FirstBy(h, i, j) && j < |h| - 1 :: FirstBy(h[..|h| - 1], i, j);
    assert forall j | 0 <= j < |h| - 1 :: h[..|h| - 1][j] == h[j];
    if before.Some? then before else if h[|h| - 1].sid == i then Some(h[|h| - 1]) else None
  }

  ghost function ReportsBy(h: seq<Report>, i: nat): set<nat> { set j: nat | j < |h| && h[j].sid == i }

  // ----- a row and its history -----

  /** A source is in the row since its first report, with the time and data of that; the others are counted. */
  ghost predicate EntryMeans(row: SigRow, h: seq<Report>, i: nat)
    requires i < |row.ts|
  {
    var first := FirstReport(h, i);
    if first.None? then row.ts[i] == None else
    && row.ts[i].Some?
    && row.ts[i].value.ns == first.value.ns
    && row.ts[i].value.meta == first.value.meta
    && row.ts[i].value.dups + 1 == |ReportsBy(h, i)|
  }

  /** The slot is the first one told. */
  ghost predicate SlotMeans(row: SigRow, h: seq<Report>) {
    if forall j | 0 <= j < |h| :: h[j].slot == 0 then row.slot == 0 else
    exists j :: 0 <= j < |h| && h[j].slot != 0 && row.slot == h[j].slot && forall m | 0 <= m < j :: h[m].slot == 0
  }

  ghost predicate RowMeans(row: SigRow, h: seq<Report>, n: nat) {
    && |row.ts| == n
    && (forall i: nat | i < n :: EntryMeans(row, h, i))
    && SlotMeans(row, h)
    && (row.versionCounted <==> exists j :: 0 <= j < |h| && h[j].meta.version.Some?)
  }

  lemma FirstMore(h: seq<Report>, x: Report, i: nat)
    ensures FirstReport(h + [x], i) == if FirstReport(h, i).Some? then FirstReport(h, i) else if x.sid == i then Some(x) else None
    ensures |ReportsBy(h + [x], i)| == |ReportsBy(h, i)| + One(x.sid == i)
    ensures FirstReport(h, i).None? ==> ReportsBy(h, i) == {}
  {
    assert (h + [x])[..|h|] == h;
    assert ReportsBy(h + [x], i) == ReportsBy(h, i) + if x.sid == i then {|h|} else {};
  }

  lemma EntryMore(row: SigRow, h: seq<Report>, x: Report, i: nat)
    requires x.sid < |row.ts| && i < |row.ts| && EntryMeans(row, h, i)
    ensures EntryMeans(Sighted(row, x.sid, x.ns, x.slot, x.meta), h + [x], i)
  {
    FirstMore(h, x, i);
    hide FirstReport, ReportsBy;
  }

  lemma SlotMore(row: SigRow, h: seq<Report>, x: Report)
    requires x.sid < |row.ts| && SlotMeans(row, h)
    ensures SlotMeans(Sighted(row, x.sid, x.ns, x.slot, x.meta), h + [x])
  {
    var all := h + [x];
    var after := Sighted(row, x.sid, x.ns, x.slot, x.meta);
    assert forall j | 0 <= j < |h| :: all[j] == h[j];
    assert all[|h|] == x;
    if j :| 0 <= j < |h| && h[j].slot != 0 && row.slot == h[j].slot && forall m | 0 <= m < j :: h[m].slot == 0 {
      assert all[j].slot != 0 && after.slot == all[j].slot;
    }
  }

  lemma RowMore(row: SigRow, h: seq<Report>, x: Report, n: nat)
    requires x.sid < n && RowMeans(row, h, n)
    ensures RowMeans(Sighted(row, x.sid, x.ns, x.slot, x.meta), h + [x], n)
  {
    var after, all := Sighted(row, x.sid, x.ns, x.slot, x.meta), h + [x];
    forall i: nat | i < n ensures EntryMeans(after, all, i) {
      EntryMore(row, h, x, i);
    }
    SlotMore(row, h, x);
    assert forall j | 0 <= j < |h| :: all[j] == h[j];
    assert all[|h|] == x;
    hide EntryMeans, SlotMeans;
  }

  /** The first report of a signature. */
  lemma RowNew(x: Report, n: nat)
    requires x.sid < n
    ensures RowMeans(Sighted(NewRow(x.slot, n), x.sid, x.ns, x.slot, x.meta), [x], n)
  {
    assert Sighted(NewRow(x.slot, n), x.sid, x.ns, x.slot, x.meta) == Sighted(NewRow(0, n), x.sid, x.ns, x.slot, x.meta);
    assert RowMeans(NewRow(0, n), [], n);
    RowMore(NewRow(0, n), [], x, n);
    assert [] + [x] == [x];
  }

  // ----- over a run -----

  /** The rows in flight are the signatures with a history, and each row, also a retired one, is what its history says. */
  ghost predicate BookMeans(b: Book, es: seq<Event>, k: nat)
    requires k <= |es|
  {
    && (forall sig :: sig in b.r.events <==> History(es, k, sig) != [])
    && (forall sig | sig in b.r.events :: RowMeans(b.r.events[sig], History(es, k, sig), |b.r.shred|))
    && |b.retired| == |Histories(es, k)|
    && (forall j: nat | j < |b.retired| :: RowMeans(b.retired[j], Histories(es, k)[j], |b.r.shred|))
  }

  lemma HistoryMore(es: seq<Event>, k: nat, sig: Signature)
    requires k < |es|
    ensures History(es, k + 1, sig) == HistoryStep(History(es, k, sig), es[k], sig)
  {}

  lemma HistoriesMore(es: seq<Event>, k: nat)
    requires k < |es|
    ensures !es[k].Finalized? ==> Histories(es, k + 1) == Histories(es, k)
    ensures es[k].Finalized? ==>
      Histories(es, k + 1) == Histories(es, k) + seq(|es[k].sigs|, j requires 0 <= j < |es[k].sigs| => History(es, k, es[k].sigs[j]))
  {}

  lemma RecordedMeans(b: Book, es: seq<Event>, k: nat)
    requires k < |es| && es[k].Recorded? && Enabled(b, es[k]) && BookMeans(b, es, k)
    ensures BookMeans(Step(b, es[k]), es, k + 1)
  {
    hide RowMeans, Sighted;
    var e := es[k];
    var x, h := Report(e.sid, e.ns, e.slot, e.meta), History(es, k, e.sig);
    HistoriesMore(es, k);
    forall sig ensures History(es, k + 1, sig) == if sig == e.sig then h + [x] else History(es, k, sig) {
      HistoryMore(es, k, sig);
    }
    hide History, Histories;
    if e.sig in b.r.events {
      RowMore(b.r.events[e.sig], h, x, |b.r.shred|);
    } else {
      RowNew(x, |b.r.shred|);
      assert h + [x] == [x];
    }
  }

  lemma RetiredMeans(b: Book, es: seq<Event>, k: nat)
    requires k < |es| && es[k].Finalized? && Enabled(b, es[k]) && BookMeans(b, es, k)
    ensures var retired := b.retired + RowsOf(b.r.events, es[k].sigs);
      && |retired| == |Histories(es, k + 1)|
      && forall j: nat | j < |retired| :: RowMeans(retired[j], Histories(es, k + 1)[j], |b.r.shred|)
  {
    hide RowMeans, Finalize, Fold;
    var e := es[k];
    HistoriesMore(es, k);
    hide History, Histories;
    assert forall j | 0 <= j < |e.sigs| :: e.sigs[j] in e.sigs && Retires(b.r, e.force, e.sigs[j]);
  }

  lemma FinalizedStep(b: Book, e: Event)
    requires e.Finalized? && Enabled(b, e)
    ensures var after := Step(b, e);
      && after.r.events == b.r.events - (set s | s in e.sigs)
      && after.r.shred == b.r.shred
      && after.retired == b.retired + RowsOf(b.r.events, e.sigs)
  {
    hide Fold;
  }

  lemma FinalizedMeans(b: Book, es: seq<Event>, k: nat)
    requires k < |es| && es[k].Finalized? && Enabled(b, es[k]) && BookMeans(b, es, k)
    ensures BookMeans(Step(b, es[k]), es, k + 1)
  {
    hide RowMeans, Step, RowsOf, Finalize;
    var e := es[k];
    RetiredMeans(b, es, k);
    FinalizedStep(b, e);
    forall sig ensures History(es, k + 1, sig) == if sig in e.sigs then [] else History(es, k, sig) {
      HistoryMore(es, k, sig);
    }
    hide History, Histories, ListsRetired;
  }

  lemma TookMeans(b: Book, es: seq<Event>, k: nat)
    requires k < |es| && es[k].Took? && Enabled(b, es[k]) && BookMeans(b, es, k)
    ensures BookMeans(Step(b, es[k]), es, k + 1)
  {
    hide RowMeans;
    HistoriesMore(es, k);
    forall sig ensures History(es, k + 1, sig) == History(es, k, sig) {
      HistoryMore(es, k, sig);
    }
    hide History, Histories;
  }

  /**
   In every state of a run the rows in flight are the signatures reported since they were last
   retired, and every row, in flight or retired, has for each source the time and data of its first
   report, the number of the later ones, and the first slot that was told.
   */
  lemma {:induction false} RowsKeepFirstReports(trace: seq<Book>, es: seq<Event>, k: nat)
    requires IsRun(trace, es) && k < |trace|
    ensures BookMeans(trace[k], es, k)
  {
    hide BookMeans, Step, Enabled;
    if k == 0 {
      StartMeans(trace[0], es);
    } else {
      RowsKeepFirstReports(trace, es, k - 1);
      var b, e := trace[k - 1], es[k - 1];
      assert Enabled(b, e) && trace[k] == Step(b, e);
      match e
      case Recorded(_, _, _, _, _) => RecordedMeans(b, es, k - 1);
      case Finalized(_, _) => FinalizedMeans(b, es, k - 1);
      case Took(_) => TookMeans(b, es, k - 1);
    }
  }

  lemma StartMeans(b: Book, es: seq<Event>)
    requires b.r.events == map[] && b.retired == []
    ensures BookMeans(b, es, 0)
  {}

  // ----- scores -----

  ghost predicate SawIt(h: seq<Report>, i: nat) { FirstReport(h, i).Some? }

  /** At least two sources reported it. */
  ghost predicate IsContested(h: seq<Report>, n: nat) {
    exists i: nat, j: nat :: i < j < n && SawIt(h, i) && SawIt(h, j)
  }

  /** No source's first report is earlier. */
  ghost predicate IsFirstOfAll(h: seq<Report>, n: nat, i: nat) {
    SawIt(h, i) && forall j: nat | j < n && SawIt(h, j) :: FirstReport(h, i).value.ns <= FirstReport(h, j).value.ns
  }

  /** `d` is how far source `i` was behind the earliest. */
  ghost predicate IsBehind(h: seq<Report>, n: nat, i: nat, d: int) {
    && SawIt(h, i)
    && (forall j: nat | j < n && SawIt(h, j) :: FirstReport(h, i).value.ns - d <= FirstReport(h, j).value.ns)
    && exists j: nat :: j < n && SawIt(h, j) && FirstReport(h, i).value.ns - d == FirstReport(h, j).value.ns
  }

  lemma PresentMeans(row: SigRow, h: seq<Report>, n: nat, i: nat)
    requires RowMeans(row, h, n)
    ensures Present(row, i) <==> i < n && SawIt(h, i)
    ensures i < n && SawIt(h, i) ==> row.ts[i].Some? && row.ts[i].value.ns == FirstReport(h, i).value.ns && row.ts[i].value.meta == FirstReport(h, i).value.meta
  {
    assert i < n ==> EntryMeans(row, h, i);
    hide FirstReport;
  }

  lemma {:induction false} CountMeans(row: SigRow, k: nat)
    ensures (CountPresent(row, k) >= 1 <==> exists i: nat :: i < k && Present(row, i))
    ensures (CountPresent(row, k) >= 2 <==> exists i: nat, j: nat :: i < j < k && Present(row, i) && Present(row, j))
  {
    if k > 0 {
      hide Present;
      CountMeans(row, k - 1);
    }
  }

  lemma ContendsMeans(row: SigRow, h: seq<Report>, n: nat)
    requires RowMeans(row, h, n)
    ensures Contends(row) <==> IsContested(h, n)
  {
    CountMeans(row, n);
    forall i: nat ensures Present(row, i) <==> i < n && SawIt(h, i) {
      PresentMeans(row, h, n, i);
    }
    assert |row.ts| == n;
    hide Present, SawIt, CountPresent, RowMeans;
  }

  /** The earliest sighting is that of a source in the row, and no source's is earlier. */
  lemma EarliestOfRow(row: SigRow, i: nat)
    requires Present(row, i)
    ensures First(row).Some?
    ensures forall j: nat | Present(row, j) :: First(row).value <= row.ts[j].value.ns
    ensures exists j: nat :: Present(row, j) && First(row).value == row.ts[j].value.ns
  {
    var only := seq(|row.ts|, _ => true);
    EarliestIsLeast(row, |row.ts|, only);
    EarliestIsSomeones(row, |row.ts|, only);
    assert only[i];
    hide Earliest;
  }

  lemma BehindMeans(row: SigRow, h: seq<Report>, n: nat, i: nat)
    requires RowMeans(row, h, n) && Present(row, i)
    ensures IsBehind(h, n, i, Behind(row, i))
    ensures Wins(row, i) <==> IsFirstOfAll(h, n, i)
  {
    EarliestOfRow(row, i);
    forall j: nat
      ensures Present(row, j) <==> j < n && SawIt(h, j)
      ensures Present(row, j) ==> row.ts[j].value.ns == FirstReport(h, j).value.ns
    {
      PresentMeans(row, h, n, j);
    }
    hide First, RowMeans, SawIt, FirstReport, Present;
    var m: nat :| Present(row, m) && First(row).value == row.ts[m].value.ns;
    assert SawIt(h, m) && SawIt(h, i);
  }

  /** How many of the histories pass the test. */
  ghost function CountOf(hs: seq<seq<Report>>, f: seq<Report> -> bool): nat {
    if hs == [] then 0 else CountOf(hs[..|hs| - 1], f) + One(f(hs[|hs| - 1]))
  }

  lemma {:induction false} SameCount(rows: seq<SigRow>, hs: seq<seq<Report>>, f: SigRow -> bool, g: seq<Report> -> bool)
    requires |rows| == |hs| && forall j | 0 <= j < |rows| :: f(rows[j]) == g(hs[j])
    ensures Tallied(rows, f) == CountOf(hs, g)
  {
    if rows != [] {
      SameCount(rows[..|rows| - 1], hs[..|hs| - 1], f, g);
    }
  }

  ghost function ContestedWith(n: nat, i: nat): seq<Report> -> bool {
    (h: seq<Report>) => IsContested(h, n) && SawIt(h, i)
  }

  ghost function WonWith(n: nat, i: nat): seq<Report> -> bool {
    (h: seq<Report>) => IsContested(h, n) && IsFirstOfAll(h, n, i)
  }

  /** The source's first report came through that connection. */
  ghost predicate CameThrough(h: seq<Report>, key: WindowKey) {
    SawIt(h, key.source) && FirstReport(h, key.source).value.meta.connection.GetOr(0) == key.connection
  }

  ghost predicate ShredReported(h: seq<Report>, shred: seq<bool>) {
    exists j: nat :: j < |shred| && shred[j] && SawIt(h, j)
  }

  ghost function ThroughWith(n: nat, key: WindowKey): seq<Report> -> bool {
    (h: seq<Report>) => IsContested(h, n) && CameThrough(h, key)
  }

  ghost function WonThroughWith(n: nat, key: WindowKey): seq<Report> -> bool {
    (h: seq<Report>) => IsContested(h, n) && CameThrough(h, key) && IsFirstOfAll(h, n, key.source)
  }

  ghost function ComparedWith(key: WindowKey, shred: seq<bool>): seq<Report> -> bool {
    (h: seq<Report>) => IsContested(h, |shred|) && CameThrough(h, key) && ShredReported(h, shred)
  }

  /** `sum` is how far source `i` was behind, summed over the contested histories that it is in. */
  ghost predicate SumsBehind(hs: seq<seq<Report>>, n: nat, i: nat, sum: int)
    decreases |hs|
  {
    if hs == [] then sum == 0 else
    var front, h := hs[..|hs| - 1], hs[|hs| - 1];
    if IsContested(h, n) && SawIt(h, i) then exists d :: IsBehind(h, n, i, d) && SumsBehind(front, n, i, sum - d)
    else SumsBehind(front, n, i, sum)
  }

  lemma BehindOne(row: SigRow, h: seq<Report>, n: nat, i: nat)
    requires RowMeans(row, h, n) && i < n
    ensures Contends(row) <==> IsContested(h, n)
    ensures if SawIt(h, i) then IsBehind(h, n, i, Behind(row, i)) else Behind(row, i) == 0
  {
    ContendsMeans(row, h, n);
    PresentMeans(row, h, n, i);
    hide RowMeans, Contends, IsContested, IsBehind, Behind, SawIt;
    if Present(row, i) {
      BehindMeans(row, h, n, i);
    } else {
      AbsentNotBehind(row, i);
    }
  }

  lemma {:induction false} BehindSum(rows: seq<SigRow>, hs: seq<seq<Report>>, n: nat, i: nat)
    requires |rows| == |hs| && i < n && forall j | 0 <= j < |rows| :: RowMeans(rows[j], hs[j], n)
    ensures SumsBehind(hs, n, i, BehindTotal(rows, i))
  {
    hide RowMeans, Contends, IsContested, SawIt, IsBehind, Behind;
    if rows != [] {
      BehindSum(rows[..|rows| - 1], hs[..|hs| - 1], n, i);
      BehindOne(rows[|rows| - 1], hs[|hs| - 1], n, i);
    }
  }

  lemma ThroughMeans(row: SigRow, h: seq<Report>, n: nat, key: WindowKey)
    requires RowMeans(row, h, n) && key.source < n
    ensures Through(row, key) <==> CameThrough(h, key)
  {
    PresentMeans(row, h, n, key.source);
    hide RowMeans, FirstReport;
  }

  lemma ShredMeans(row: SigRow, h: seq<Report>, shred: seq<bool>)
    requires RowMeans(row, h, |shred|)
    ensures ShredSaw(row, shred) <==> ShredReported(h, shred)
  {
    forall j: nat ensures Present(row, j) <==> j < |shred| && SawIt(h, j) {
      PresentMeans(row, h, |shred|, j);
    }
    assert |row.ts| == |shred|;
    hide RowMeans, SawIt;
    if i :| 0 <= i < |row.ts| && i < |shred| && shred[i] && row.ts[i].Some? {
      assert Present(row, i);
    }
    if j: nat :| j < |shred| && shred[j] && SawIt(h, j) {
      assert Present(row, j);
    }
  }

  /** The race decided by first reports, for source `i`. */
  ghost predicate SourceScore(t: Tally, hs: seq<seq<Report>>, n: nat, i: nat) {
    && t.contested == t.behindN == CountOf(hs, ContestedWith(n, i))
    && t.wins == CountOf(hs, WonWith(n, i))
    && SumsBehind(hs, n, i, t.behindSum)
  }

  /** The same for a window, its share held and taken. */
  ghost predicate WindowScore(held: WindowLatency, had: WindowLatency, hs: seq<seq<Report>>, key: WindowKey, shred: seq<bool>) {
    && held.contested + had.contested == CountOf(hs, ThroughWith(|shred|, key))
    && held.wins + had.wins == CountOf(hs, WonThroughWith(|shred|, key))
    && held.vsShred + had.vsShred == CountOf(hs, ComparedWith(key, shred))
  }

  lemma SourceScored(b: Book, es: seq<Event>, k: nat, i: nat)
    requires k <= |es| && BookOk(b) && BookMeans(b, es, k) && i < |b.r.shred|
    ensures SourceScore(b.r.sources[i], Histories(es, k), |b.r.shred|, i)
    ensures b.r.contestedTotal == CountOf(Histories(es, k), (h: seq<Report>) => IsContested(h, |b.r.shred|))
  {
    hide Tallied, CountOf, RowMeans, Contends, Wins, Present, IsContested, SawIt, IsFirstOfAll, SumsBehind, InFlight, BehindTotal, History, Histories;
    var n, hs := |b.r.shred|, Histories(es, k);
    assert SourceOk(b, i) && GlobalOk(b);
    forall j: nat | j < |hs|
      ensures Contends(b.retired[j]) <==> IsContested(hs[j], n)
      ensures Present(b.retired[j], i) <==> SawIt(hs[j], i)
      ensures Wins(b.retired[j], i) <==> IsFirstOfAll(hs[j], n, i)
    {
      ContendsMeans(b.retired[j], hs[j], n);
      PresentMeans(b.retired[j], hs[j], n, i);
      WinsMeans(b.retired[j], hs[j], n, i);
    }
    SameCount(b.retired, hs, ContendedBy(i), ContestedWith(n, i));
    SameCount(b.retired, hs, WonBy(i), WonWith(n, i));
    SameCount(b.retired, hs, Contends, (h: seq<Report>) => IsContested(h, n));
    BehindSum(b.retired, hs, n, i);
  }

  lemma WinsMeans(row: SigRow, h: seq<Report>, n: nat, i: nat)
    requires RowMeans(row, h, n) && i < n
    ensures Wins(row, i) <==> IsFirstOfAll(h, n, i)
  {
    PresentMeans(row, h, n, i);
    if Present(row, i) {
      BehindMeans(row, h, n, i);
    } else {
      WinsPresent(row, i);
    }
    hide RowMeans, First;
  }

  lemma WindowScored(b: Book, es: seq<Event>, k: nat, key: WindowKey)
    requires k <= |es| && BookOk(b) && BookMeans(b, es, k)
    requires key.source < |b.r.rotating| && b.r.rotating[key.source]
    ensures WindowScore(ShareOf(b.r.latency, key), ShareOf(b.taken, key), Histories(es, k), key, b.r.shred)
  {
    hide Tallied, CountOf, RowMeans, Contends, Wins, Through, ShredSaw, IsContested, CameThrough, IsFirstOfAll, ShredReported, SourceOk, GlobalOk, History, Histories, ShareOf;
    var shred, hs := b.r.shred, Histories(es, k);
    var n := |shred|;
    assert WindowShareOk(b, key);
    forall j: nat | j < |hs|
      ensures Contends(b.retired[j]) <==> IsContested(hs[j], n)
      ensures Through(b.retired[j], key) <==> CameThrough(hs[j], key)
      ensures Wins(b.retired[j], key.source) <==> IsFirstOfAll(hs[j], n, key.source)
      ensures ShredSaw(b.retired[j], shred) <==> ShredReported(hs[j], shred)
    {
      ContendsMeans(b.retired[j], hs[j], n);
      ThroughMeans(b.retired[j], hs[j], n, key);
      WinsMeans(b.retired[j], hs[j], n, key.source);
      ShredMeans(b.retired[j], hs[j], shred);
    }
    SameCount(b.retired, hs, ContendedThrough(key), ThroughWith(n, key));
    SameCount(b.retired, hs, WonThrough(key), WonThroughWith(n, key));
    SameCount(b.retired, hs, ComparedThrough(key, shred), ComparedWith(key, shred));
  }

  /**
   Over any run every score is decided by first reports alone: a retired signature is contested if
   two sources reported it, a source wins it if none first reported it earlier, and is behind by
   what its first report came after the earliest; a window gets those that came through it.
   */
  lemma ScoredByFirstReports(trace: seq<Book>, es: seq<Event>, k: nat)
    requires IsRun(trace, es) && k < |trace|
    ensures var r, hs := trace[k].r, Histories(es, k);
      && |r.sources| == |r.shred| == |r.rotating|
      && (forall i: nat | i < |r.shred| :: SourceScore(r.sources[i], hs, |r.shred|, i))
      && (forall key: WindowKey | key.source < |r.rotating| && r.rotating[key.source] ::
            WindowScore(ShareOf(r.latency, key), ShareOf(trace[k].taken, key), hs, key, r.shred))
  {
    BooksBalance(trace, es, k);
    RowsKeepFirstReports(trace, es, k);
    hide IsRun, SourceScore, WindowScore, BookMeans, SourceOk, WindowShareOk, GlobalOk;
    var b := trace[k];
    forall i: nat | i < |b.r.shred| ensures SourceScore(b.r.sources[i], Histories(es, k), |b.r.shred|, i) {
      SourceScored(b, es, k, i);
    }
    forall key: WindowKey | key.source < |b.r.rotating| && b.r.rotating[key.source]
      ensures WindowScore(ShareOf(b.r.latency, key), ShareOf(b.taken, key), Histories(es, k), key, b.r.shred)
    {
      WindowScored(b, es, k, key);
    }
  }
}
