/** The registry's books over any run: every first sighting is in flight or scored, each row once. */
module RegistryRuns {
  import opened Options
  import opened AuditSpec
  import opened RegistrySpec

  function Tallied(rows: seq<SigRow>, f: SigRow -> bool): nat {
    if rows == [] then 0 else Tallied(rows[..|rows| - 1], f) + One(f(rows[|rows| - 1]))
  }

  /** How far a source was behind, summed over the contested rows. */
  function BehindTotal(rows: seq<SigRow>, i: nat): int {
    if rows == [] then 0 else
    BehindTotal(rows[..|rows| - 1], i) + if Contends(rows[|rows| - 1]) then Behind(rows[|rows| - 1], i) else 0
  }

  function HeldBy(i: nat): SigRow -> bool { (row: SigRow) => Present(row, i) }

  function ContendedBy(i: nat): SigRow -> bool { (row: SigRow) => Contends(row) && Present(row, i) }

  function WonBy(i: nat): SigRow -> bool { (row: SigRow) => Contends(row) && Wins(row, i) }

  function Versioned(row: SigRow): bool { row.versionCounted }

  predicate Through(row: SigRow, key: WindowKey) {
    Present(row, key.source) && ConnectionOf(row, key.source) == key
  }

  /** Contested rows the source of `key` saw first through that connection. */
  function ContendedThrough(key: WindowKey): SigRow -> bool { (row: SigRow) => Contends(row) && Through(row, key) }

  function WonThrough(key: WindowKey): SigRow -> bool {
    (row: SigRow) => Contends(row) && Through(row, key) && Wins(row, key.source)
  }

  /** A shred source was among those that saw the row. */
  predicate ShredSaw(row: SigRow, shred: seq<bool>) {
    exists i :: 0 <= i < |row.ts| && i < |shred| && shred[i] && row.ts[i].Some?
  }

  /** Contested rows through that connection that can be compared with a shred source. */
  function ComparedThrough(key: WindowKey, shred: seq<bool>): SigRow -> bool {
    (row: SigRow) => Contends(row) && Through(row, key) && ShredSaw(row, shred)
  }

  /** The rows in flight that satisfy `f`. */
  ghost function InFlight(events: map<Signature, SigRow>, f: SigRow -> bool): set<Signature> {
    set sig | sig in events && f(events[sig])
  }

  /** What a window's share is, held or taken. */
  function ShareOf(latency: map<WindowKey, WindowLatency>, key: WindowKey): WindowLatency {
    if key in latency then latency[key] else NO_LATENCY
  }

  /** The registry with what left it: rows retired, and window shares taken. */
  datatype Book = Book(r: Registry, retired: seq<SigRow>, taken: map<WindowKey, WindowLatency>)

  ghost predicate SourceOk(b: Book, i: nat)
    requires Shaped(b.r) && i < |b.r.sources|
  {
    var t := b.r.sources[i];
    && t.seen == Tallied(b.retired, HeldBy(i)) + |InFlight(b.r.events, HeldBy(i))|
    && t.contested == t.behindN == Tallied(b.retired, ContendedBy(i))
    && t.wins == Tallied(b.retired, WonBy(i))
    && t.behindSum == BehindTotal(b.retired, i)
  }

  ghost predicate WindowShareOk(b: Book, key: WindowKey)
    requires Shaped(b.r)
  {
    key.source < |b.r.rotating| && b.r.rotating[key.source] ==>
      && ShareOf(b.r.latency, key).contested + ShareOf(b.taken, key).contested == Tallied(b.retired, ContendedThrough(key))
      && ShareOf(b.r.latency, key).wins + ShareOf(b.taken, key).wins == Tallied(b.retired, WonThrough(key))
      && ShareOf(b.r.latency, key).vsShred + ShareOf(b.taken, key).vsShred == Tallied(b.retired, ComparedThrough(key, b.r.shred))
  }

  function VersionTotal(c: VersionCounts): nat { c.vote + c.legacy + c.v0 + c.v1 }

  ghost predicate GlobalOk(b: Book) {
    && b.r.distinctTotal == |b.retired| + |b.r.events|
    && b.r.contestedTotal == Tallied(b.retired, Contends)
    && VersionTotal(b.r.versions) == Tallied(b.retired, Versioned) + |InFlight(b.r.events, Versioned)|
  }

  ghost predicate BookOk(b: Book) {
    && Shaped(b.r)
    && (forall row | row in b.retired :: |row.ts| == |b.r.shred|)
    && GlobalOk(b)
    && (forall i: nat | i < |b.r.sources| :: SourceOk(b, i))
    && (forall key :: WindowShareOk(b, key))
  }

  lemma TalliedMore(rows: seq<SigRow>, row: SigRow, f: SigRow -> bool)
    ensures Tallied(rows + [row], f) == Tallied(rows, f) + One(f(row))
    ensures forall i :: BehindTotal(rows + [row], i) == BehindTotal(rows, i) + if Contends(row) then Behind(row, i) else 0
  {
    assert (rows + [row])[..|rows|] == rows;
  }

  // ----- recording -----

  lemma InFlightSet(events: map<Signature, SigRow>, sig: Signature, row: SigRow, f: SigRow -> bool)
    ensures |InFlight(events[sig := row], f)| ==
            |InFlight(events, f)| + One(f(row)) - One(sig in events && f(events[sig]))
    ensures sig in events ==> |InFlight(events - {sig}, f)| == |InFlight(events, f)| - One(f(events[sig]))
  {
    var before := InFlight(events, f);
    var rest := before - {sig};
    InFlightParts(events, sig, row, f);
    hide InFlight;
    Split(before, rest, sig, sig in events && f(events[sig]));
    Split(InFlight(events[sig := row], f), rest, sig, f(row));
  }

  lemma Split<T>(all: set<T>, rest: set<T>, x: T, has: bool)
    requires x !in rest && all == rest + if has then {x} else {}
    ensures |all| == |rest| + One(has)
  {}

  lemma InFlightParts(events: map<Signature, SigRow>, sig: Signature, row: SigRow, f: SigRow -> bool)
    ensures var before := InFlight(events, f);
      var rest := before - {sig};
      && InFlight(events[sig := row], f) == rest + (if f(row) then {sig} else {})
      && before == rest + (if sig in events && f(events[sig]) then {sig} else {})
      && InFlight(events - {sig}, f) == rest
  {}

  lemma EventsSize(events: map<Signature, SigRow>, sig: Signature, row: SigRow)
    ensures |events[sig := row]| == |events| + One(sig !in events)
    ensures sig in events ==> |events - {sig}| == |events| - 1
  {
    assert events[sig := row].Keys == events.Keys + {sig};
    if sig in events {
      assert (events - {sig}).Keys == events.Keys - {sig};
    }
  }

  lemma SightedPresent(row: SigRow, sid: nat, ns: int, slot: nat, meta: Meta, i: nat)
    requires sid < |row.ts|
    ensures Present(Sighted(row, sid, ns, slot, meta), i) <==> Present(row, i) || i == sid
    ensures Versioned(Sighted(row, sid, ns, slot, meta)) <==> Versioned(row) || meta.version.Some?
  {}

  lemma RecordSource(b: Book, sid: nat, sig: Signature, ns: int, slot: nat, meta: Meta, i: nat)
    requires Shaped(b.r) && sid < |b.r.shred| && i < |b.r.sources| && SourceOk(b, i)
    ensures SourceOk(b.(r := RecordFirst(b.r, sid, sig, ns, slot, meta)), i)
  {
    hide Tallied, InFlight, Sighted, BehindTotal;
    var row := RowFor(b.r, sig, slot);
    SightedPresent(row, sid, ns, slot, meta, i);
    InFlightSet(b.r.events, sig, Sighted(row, sid, ns, slot, meta), HeldBy(i));
  }

  lemma RecordGlobal(b: Book, sid: nat, sig: Signature, ns: int, slot: nat, meta: Meta)
    requires Shaped(b.r) && sid < |b.r.shred| && GlobalOk(b)
    ensures GlobalOk(b.(r := RecordFirst(b.r, sid, sig, ns, slot, meta)))
  {
    hide Tallied, InFlight, Sighted, Contends;
    var row := RowFor(b.r, sig, slot);
    SightedPresent(row, sid, ns, slot, meta, 0);
    InFlightSet(b.r.events, sig, Sighted(row, sid, ns, slot, meta), Versioned);
    EventsSize(b.r.events, sig, Sighted(row, sid, ns, slot, meta));
  }

  lemma RecordOk(b: Book, sid: nat, sig: Signature, ns: int, slot: nat, meta: Meta)
    requires BookOk(b) && sid < |b.r.shred|
    ensures BookOk(b.(r := RecordFirst(b.r, sid, sig, ns, slot, meta)))
  {
    var after := b.(r := RecordFirst(b.r, sid, sig, ns, slot, meta));
    RecordGlobal(b, sid, sig, ns, slot, meta);
    forall i: nat | i < |b.r.sources| ensures SourceOk(after, i) {
      RecordSource(b, sid, sig, ns, slot, meta, i);
    }
    forall key ensures WindowShareOk(after, key) {
      assert WindowShareOk(b, key);
    }
    hide Shaped, SourceOk, WindowShareOk, GlobalOk;
  }

  // ----- retiring a row -----

  /** Scoring a row touches each source that saw it once. */
  lemma {:induction false} FoldedSource(r: Registry, row: SigRow, k: nat, i: nat)
    requires Shaped(r) && |row.ts| == |r.shred| && k <= |row.ts| && i < |r.sources|
    ensures FoldUpTo(r, row, k).sources[i] ==
            if i < k && Present(row, i) then Scored(r.sources[i], Behind(row, i), Wins(row, i)) else r.sources[i]
  {
    hide Scored, Behind, Wins, AddLatency, Earliest;
    if k > 0 {
      FoldedSource(r, row, k - 1, i);
    }
  }

  lemma AddedLatency(latency: map<WindowKey, WindowLatency>, key: WindowKey, win: bool, vs: bool, other: WindowKey)
    ensures var a, b := ShareOf(latency, other), ShareOf(AddLatency(latency, key, win, vs), other);
      && b.contested == a.contested + One(other == key)
      && b.wins == a.wins + One(other == key && win)
      && b.vsShred == a.vsShred + One(other == key && vs)
  {}

  lemma {:induction false} EarliestSome(row: SigRow, k: nat, only: seq<bool>)
    requires k <= |row.ts| && k <= |only|
    ensures Earliest(row, k, only).Some? <==> exists i :: 0 <= i < k && only[i] && row.ts[i].Some?
  {
    if k > 0 {
      EarliestSome(row, k - 1, only);
    }
  }

  lemma ShredSawSome(row: SigRow, shred: seq<bool>)
    requires |row.ts| <= |shred|
    ensures ShredSaw(row, shred) <==> Earliest(row, |row.ts|, shred).Some?
  {
    EarliestSome(row, |row.ts|, shred);
  }

  /** A rotating source that saw the row has it counted in the window it came through. */
  lemma {:induction false} FoldedShare(r: Registry, row: SigRow, k: nat, key: WindowKey)
    requires Shaped(r) && |row.ts| == |r.shred| && k <= |row.ts|
    ensures var before, after := ShareOf(r.latency, key), ShareOf(FoldUpTo(r, row, k).latency, key);
      var mine := key.source < k && r.rotating[key.source] && Through(row, key);
      && after.contested == before.contested + One(mine)
      && after.wins == before.wins + One(mine && Wins(row, key.source))
      && after.vsShred == before.vsShred + One(mine && ShredSaw(row, r.shred))
  {
    hide ShareOf, Scored, Behind, Wins, AddLatency, Earliest, ShredSaw;
    if k > 0 {
      FoldedShare(r, row, k - 1, key);
      ShredSawSome(row, r.shred);
      if Present(row, k - 1) && r.rotating[k - 1] {
        AddedLatency(FoldUpTo(r, row, k - 1).latency, ConnectionOf(row, k - 1), Wins(row, k - 1),
                     Earliest(row, |row.ts|, r.shred).Some?, key);
      }
    }
  }

  lemma RetireSource(b: Book, sig: Signature, i: nat)
    requires Shaped(b.r) && sig in b.r.events && i < |b.r.sources| && SourceOk(b, i)
    ensures SourceOk(Book(Retire(b.r, sig), b.retired + [b.r.events[sig]], b.taken), i)
  {
    hide Tallied, InFlight, Contends, Wins, Behind, FoldUpTo, BehindTotal;
    var row := b.r.events[sig];
    var less := b.r.(events := b.r.events - {sig});
    TalliedMore(b.retired, row, HeldBy(i));
    TalliedMore(b.retired, row, ContendedBy(i));
    TalliedMore(b.retired, row, WonBy(i));
    InFlightSet(b.r.events, sig, row, HeldBy(i));
    WinsPresent(row, i);
    AbsentNotBehind(row, i);
    FoldedSource(less.(contestedTotal := less.contestedTotal + 1), row, |row.ts|, i);
  }

  lemma AbsentNotBehind(row: SigRow, i: nat)
    ensures !Present(row, i) ==> Behind(row, i) == 0
  {}

  lemma WinsPresent(row: SigRow, i: nat)
    ensures Wins(row, i) ==> Present(row, i)
  {}

  lemma RetireShare(b: Book, sig: Signature, key: WindowKey)
    requires Shaped(b.r) && sig in b.r.events && WindowShareOk(b, key)
    ensures WindowShareOk(Book(Retire(b.r, sig), b.retired + [b.r.events[sig]], b.taken), key)
  {
    hide Tallied, Contends, Wins, FoldUpTo, ShareOf;
    var row := b.r.events[sig];
    var less := b.r.(events := b.r.events - {sig});
    TalliedMore(b.retired, row, ContendedThrough(key));
    TalliedMore(b.retired, row, WonThrough(key));
    TalliedMore(b.retired, row, ComparedThrough(key, b.r.shred));
    hide ShredSaw;
    FoldedShare(less.(contestedTotal := less.contestedTotal + 1), row, |row.ts|, key);
  }

  lemma RetireGlobal(b: Book, sig: Signature)
    requires Shaped(b.r) && sig in b.r.events && GlobalOk(b)
    ensures GlobalOk(Book(Retire(b.r, sig), b.retired + [b.r.events[sig]], b.taken))
  {
    hide Tallied, InFlight, Contends, FoldUpTo;
    var row := b.r.events[sig];
    TalliedMore(b.retired, row, Contends);
    TalliedMore(b.retired, row, Versioned);
    InFlightSet(b.r.events, sig, row, Versioned);
    EventsSize(b.r.events, sig, row);
  }

  lemma RetireOk(b: Book, sig: Signature)
    requires BookOk(b) && sig in b.r.events
    ensures BookOk(Book(Retire(b.r, sig), b.retired + [b.r.events[sig]], b.taken))
  {
    hide SourceOk, WindowShareOk, GlobalOk, Fold;
    var after := Book(Retire(b.r, sig), b.retired + [b.r.events[sig]], b.taken);
    RetireGlobal(b, sig);
    forall i: nat | i < |b.r.sources| ensures SourceOk(after, i) {
      RetireSource(b, sig, i);
    }
    forall key ensures WindowShareOk(after, key) {
      RetireShare(b, sig, key);
    }
  }

  /** The rows of `sigs`, in that order. */
  function RowsOf(events: map<Signature, SigRow>, sigs: seq<Signature>): seq<SigRow>
    requires forall s | s in sigs :: s in events
  {
    seq(|sigs|, i requires 0 <= i < |sigs| => events[sigs[i]])
  }

  lemma {:induction false} RetireAllOk(b: Book, sigs: seq<Signature>)
    requires BookOk(b) && (forall s | s in sigs :: s in b.r.events) && (forall i, j | 0 <= i < j < |sigs| :: sigs[i] != sigs[j])
    ensures BookOk(Book(RetireAll(b.r, sigs), b.retired + RowsOf(b.r.events, sigs), b.taken))
  {
    hide SourceOk, WindowShareOk, GlobalOk, Shaped, Retire;
    if sigs == [] {
      assert b.retired + RowsOf(b.r.events, sigs) == b.retired;
    } else {
      var front, last := sigs[..|sigs| - 1], sigs[|sigs| - 1];
      assert sigs == front + [last];
      RetireAllOk(b, front);
      var mid := Book(RetireAll(b.r, front), b.retired + RowsOf(b.r.events, front), b.taken);
      RetireOk(mid, last);
      assert b.retired + RowsOf(b.r.events, sigs) == mid.retired + [b.r.events[last]];
      hide BookOk;
    }
  }

  // ----- runs -----

  datatype Event =
    | Recorded(sid: nat, sig: Signature, ns: int, slot: nat, meta: Meta)
    | Finalized(force: bool, sigs: seq<Signature>)
    | Took(key: WindowKey)

  ghost predicate Enabled(b: Book, e: Event) {
    Shaped(b.r) &&
    match e
    case Recorded(sid, _, _, _, _) => sid < |b.r.shred|
    case Finalized(force, sigs) => ListsRetired(b.r, force, sigs)
    case Took(_) => true
  }

  ghost function Step(b: Book, e: Event): Book
    requires Enabled(b, e)
  {
    match e
    case Recorded(sid, sig, ns, slot, meta) => b.(r := RecordFirst(b.r, sid, sig, ns, slot, meta))
    case Finalized(force, sigs) => Book(Finalize(b.r, force, sigs), b.retired + RowsOf(b.r.events, sigs), b.taken)
    case Took(key) =>
      var held, had := ShareOf(b.r.latency, key), ShareOf(b.taken, key);
      b.(r := b.r.(latency := b.r.latency - {key}),
         taken := b.taken[key := WindowLatency(had.contested + held.contested, had.wins + held.wins, had.vsShred + held.vsShred)])
  }

  lemma FloorOk(b: Book, floor: nat)
    requires BookOk(b)
    ensures BookOk(b.(r := b.r.(finalizedFloor := floor)))
  {
    var after := b.(r := b.r.(finalizedFloor := floor));
    forall i: nat | i < |b.r.sources| ensures SourceOk(after, i) {
      assert SourceOk(b, i);
    }
    forall key ensures WindowShareOk(after, key) {
      assert WindowShareOk(b, key);
    }
  }

  lemma TookShare(b: Book, key: WindowKey, other: WindowKey)
    requires Shaped(b.r) && WindowShareOk(b, other)
    ensures WindowShareOk(Step(b, Took(key)), other)
  {
    hide Tallied;
  }

  lemma TookKeeps(b: Book, key: WindowKey)
    requires Shaped(b.r)
    ensures Shaped(Step(b, Took(key)).r)
    ensures GlobalOk(b) ==> GlobalOk(Step(b, Took(key)))
    ensures forall i: nat | i < |b.r.sources| && SourceOk(b, i) :: SourceOk(Step(b, Took(key)), i)
  {
    hide Tallied, InFlight, ShareOf;
  }

  lemma TookOk(b: Book, key: WindowKey)
    requires BookOk(b)
    ensures BookOk(Step(b, Took(key)))
  {
    hide WindowShareOk, SourceOk, GlobalOk, ShareOf, Shaped;
    TookKeeps(b, key);
    forall other ensures WindowShareOk(Step(b, Took(key)), other) {
      TookShare(b, key, other);
    }
  }

  lemma StepOk(b: Book, e: Event)
    requires BookOk(b) && Enabled(b, e)
    ensures BookOk(Step(b, e))
  {
    match e
    case Recorded(sid, sig, ns, slot, meta) => RecordOk(b, sid, sig, ns, slot, meta);
    case Finalized(force, sigs) =>
      var floor := if force then EVERYTHING else Floor(b.r);
      FloorOk(b, floor);
      RetireAllOk(b.(r := b.r.(finalizedFloor := floor)), sigs);
      hide BookOk;
    case Took(key) => TookOk(b, key);
  }

  ghost predicate IsRun(trace: seq<Book>, es: seq<Event>) {
    && |trace| == |es| + 1
    && (exists shred: seq<bool>, rotating: seq<bool> ::
          |shred| == |rotating| && trace[0] == Book(NewRegistry(shred, rotating), [], map[]))
    && forall k | 0 <= k < |es| :: Enabled(trace[k], es[k]) && trace[k + 1] == Step(trace[k], es[k])
  }

  /**
   In every reachable state, per source: first sightings are those retired plus those in flight,
   contested is the number of retired rows it contended for, wins those it was first to see; per
   window of a rotating source, held and taken shares sum up to the rows it contended for
   through that connection; and globally each signature is in flight or retired, once.
   */
  lemma {:induction false} BooksBalance(trace: seq<Book>, es: seq<Event>, k: nat)
    requires IsRun(trace, es) && k < |trace|
    ensures BookOk(trace[k])
  {
    hide BookOk, Step, Enabled;
    if k == 0 {
      var shred: seq<bool>, rotating: seq<bool> :| |shred| == |rotating| && trace[0] == Book(NewRegistry(shred, rotating), [], map[]);
      NewBookOk(shred, rotating);
    } else {
      BooksBalance(trace, es, k - 1);
      StepOk(trace[k - 1], es[k - 1]);
    }
  }

  lemma NewBookOk(shred: seq<bool>, rotating: seq<bool>)
    requires |shred| == |rotating|
    ensures BookOk(Book(NewRegistry(shred, rotating), [], map[]))
  {
    var b := Book(NewRegistry(shred, rotating), [], map[]);
    forall i: nat | i < |b.r.sources| ensures SourceOk(b, i) {
      assert InFlight(b.r.events, HeldBy(i)) == {};
    }
    assert InFlight(b.r.events, Versioned) == {};
  }

  // ----- sums over the sources -----

  function SumContested(sources: seq<Tally>): nat {
    if sources == [] then 0 else SumContested(sources[..|sources| - 1]) + sources[|sources| - 1].contested
  }

  function SumWins(sources: seq<Tally>): nat {
    if sources == [] then 0 else SumWins(sources[..|sources| - 1]) + sources[|sources| - 1].wins
  }

  /** Over the first `k` sources: sightings of contested rows, and wins. */
  function Sightings(rows: seq<SigRow>, k: nat): nat {
    if k == 0 then 0 else Sightings(rows, k - 1) + Tallied(rows, ContendedBy(k - 1))
  }

  function Victories(rows: seq<SigRow>, k: nat): nat {
    if k == 0 then 0 else Victories(rows, k - 1) + Tallied(rows, WonBy(k - 1))
  }

  lemma {:induction false} SumsAreTallies(b: Book, k: nat)
    requires BookOk(b) && k <= |b.r.sources|
    ensures SumContested(b.r.sources[..k]) == Sightings(b.retired, k)
    ensures SumWins(b.r.sources[..k]) == Victories(b.retired, k)
  {
    if k > 0 {
      SumsAreTallies(b, k - 1);
      assert b.r.sources[..k][..k - 1] == b.r.sources[..k - 1];
      assert SourceOk(b, k - 1);
      hide Tallied, ContendedBy, WonBy;
    }
  }

  function WinnersUpTo(row: SigRow, k: nat): nat {
    if k == 0 then 0 else WinnersUpTo(row, k - 1) + One(Wins(row, k - 1))
  }

  lemma {:induction false} OneMoreRow(rows: seq<SigRow>, row: SigRow, k: nat)
    ensures Sightings(rows + [row], k) == Sightings(rows, k) + if Contends(row) then CountPresent(row, k) else 0
    ensures Victories(rows + [row], k) == Victories(rows, k) + if Contends(row) then WinnersUpTo(row, k) else 0
  {
    hide Tallied, Wins;
    if k > 0 {
      OneMoreRow(rows, row, k - 1);
      TalliedMore(rows, row, ContendedBy(k - 1));
      TalliedMore(rows, row, WonBy(k - 1));
    }
  }

  /** The earliest sighting is some source's, and a source that saw the row means there is one. */
  lemma {:induction false} EarliestIsSomeones(row: SigRow, k: nat, only: seq<bool>)
    requires k <= |row.ts| && k <= |only| && forall i | 0 <= i < |only| :: only[i]
    ensures CountPresent(row, k) > 0 ==> Earliest(row, k, only).Some?
    ensures Earliest(row, k, only).Some? ==> exists i: nat :: i < k && Present(row, i) && Some(row.ts[i].value.ns) == Earliest(row, k, only)
  {
    if k > 0 {
      EarliestIsSomeones(row, k - 1, only);
      if Present(row, k - 1) {
        assert only[k - 1];
      }
    }
  }

  lemma {:induction false} EarliestIsLeast(row: SigRow, k: nat, only: seq<bool>)
    requires k <= |row.ts| && k <= |only|
    ensures forall i: nat | i < k && Present(row, i) && only[i] ::
      Earliest(row, k, only).Some? && Earliest(row, k, only).value <= row.ts[i].value.ns
  {
    if k > 0 {
      EarliestIsLeast(row, k - 1, only);
    }
  }

  /** No source is ahead of the first, and those level with it are the winners. */
  lemma WinnersAreNotBehind(row: SigRow, i: nat)
    requires Present(row, i)
    ensures Behind(row, i) >= 0 && (Behind(row, i) == 0 <==> Wins(row, i))
  {
    EarliestIsLeast(row, |row.ts|, seq(|row.ts|, _ => true));
    hide Earliest;
  }

  lemma {:induction false} SomeWinner(row: SigRow, i: nat, k: nat)
    requires i < k && Wins(row, i)
    ensures WinnersUpTo(row, k) >= 1
  {
    if i < k - 1 {
      SomeWinner(row, i, k - 1);
    }
  }

  lemma ContendedHasWinner(row: SigRow)
    requires Contends(row)
    ensures WinnersUpTo(row, |row.ts|) >= 1
  {
    EarliestIsSomeones(row, |row.ts|, seq(|row.ts|, _ => true));
    var i: nat :| i < |row.ts| && Present(row, i) && Some(row.ts[i].value.ns) == First(row);
    SomeWinner(row, i, |row.ts|);
  }

  lemma {:induction false} EveryContestCounts(rows: seq<SigRow>, n: nat)
    requires forall row | row in rows :: |row.ts| == n
    ensures Sightings(rows, n) >= 2 * Tallied(rows, Contends)
    ensures Victories(rows, n) >= Tallied(rows, Contends)
  {
    if rows == [] {
    } else {
      var front, row := rows[..|rows| - 1], rows[|rows| - 1];
      assert rows == front + [row];
      EveryContestCounts(front, n);
      OneMoreRow(front, row, n);
      assert row in rows;
      if Contends(row) {
        ContendedHasWinner(row);
      }
      hide Sightings, Victories, WinnersUpTo;
    }
  }

  /** Every contested signature was contested by at least two sources and won by at least one. */
  lemma ContestsAreShared(trace: seq<Book>, es: seq<Event>, k: nat)
    requires IsRun(trace, es) && k < |trace|
    ensures SumContested(trace[k].r.sources) >= 2 * trace[k].r.contestedTotal
    ensures SumWins(trace[k].r.sources) >= trace[k].r.contestedTotal
  {
    BooksBalance(trace, es, k);
    var b := trace[k];
    hide IsRun;
    SumsAreTallies(b, |b.r.sources|);
    assert b.r.sources[..|b.r.sources|] == b.r.sources;
    EveryContestCounts(b.retired, |b.r.sources|);
    hide Tallied, Sightings, Victories, SumContested, SumWins, SourceOk, WindowShareOk;
  }

  // ----- a rotating source's windows -----

  /** The rows contended for through any of the connections. */
  function SumThrough(rows: seq<SigRow>, keys: seq<WindowKey>): nat {
    if keys == [] then 0
    else SumThrough(rows, keys[..|keys| - 1]) + Tallied(rows, ContendedThrough(keys[|keys| - 1]))
  }

  ghost predicate Distinct(keys: seq<WindowKey>) {
    forall i, j | 0 <= i < j < |keys| :: keys[i] != keys[j]
  }

  lemma {:induction false} SumThroughMore(rows: seq<SigRow>, row: SigRow, keys: seq<WindowKey>, i: nat)
    requires Distinct(keys) && forall key | key in keys :: key.source == i
    ensures SumThrough(rows + [row], keys) ==
            SumThrough(rows, keys) + One(Contends(row) && Present(row, i) && ConnectionOf(row, i) in keys)
    ensures SumThrough([], keys) == 0
  {
    hide Tallied, Contends;
    if keys != [] {
      var front, last := keys[..|keys| - 1], keys[|keys| - 1];
      assert keys == front + [last];
      SumThroughMore(rows, row, front, i);
      TalliedMore(rows, row, ContendedThrough(last));
      TalliedNone(ContendedThrough(last));
      assert last !in front;
      assert last in keys;
    }
  }

  lemma TalliedNone(f: SigRow -> bool)
    ensures Tallied([], f) == 0
  {}

  lemma {:induction false} ConnectionsCover(rows: seq<SigRow>, keys: seq<WindowKey>, i: nat)
    requires Distinct(keys) && forall key | key in keys :: key.source == i
    requires forall row | row in rows && Contends(row) && Present(row, i) :: ConnectionOf(row, i) in keys
    ensures SumThrough(rows, keys) == Tallied(rows, ContendedBy(i))
  {
    hide Contends, SumThrough;
    if rows == [] {
      SumThroughMore([], SigRow(0, false, []), keys, i);
    } else {
      var front, last := rows[..|rows| - 1], rows[|rows| - 1];
      assert rows == front + [last];
      ConnectionsCover(front, keys, i);
      SumThroughMore(front, last, keys, i);
      TalliedMore(front, last, ContendedBy(i));
      assert last in rows;
    }
  }

  /** What the windows of these connections hold or gave away. */
  function SumShares(b: Book, keys: seq<WindowKey>): nat {
    if keys == [] then 0 else
    var key := keys[|keys| - 1];
    SumShares(b, keys[..|keys| - 1]) + ShareOf(b.r.latency, key).contested + ShareOf(b.taken, key).contested
  }

  lemma {:induction false} SharesAreThrough(b: Book, keys: seq<WindowKey>, i: nat)
    requires BookOk(b) && i < |b.r.sources| && b.r.rotating[i] && forall key | key in keys :: key.source == i
    ensures SumShares(b, keys) == SumThrough(b.retired, keys)
  {
    hide Tallied, SourceOk, GlobalOk, ShareOf, ContendedThrough;
    if keys != [] {
      var front, last := keys[..|keys| - 1], keys[|keys| - 1];
      assert keys == front + [last];
      SharesAreThrough(b, front, i);
      assert last in keys && WindowShareOk(b, last);
    }
  }

  /** The windows of all connections of a rotating source, held and taken, sum up to what it contended for. */
  lemma WindowsSumToContested(trace: seq<Book>, es: seq<Event>, k: nat, i: nat, keys: seq<WindowKey>)
    requires IsRun(trace, es) && k < |trace| && i < |trace[k].r.sources| && i < |trace[k].r.rotating| && trace[k].r.rotating[i]
    requires Distinct(keys) && forall key | key in keys :: key.source == i
    requires forall row | row in trace[k].retired && Contends(row) && Present(row, i) :: ConnectionOf(row, i) in keys
    ensures SumShares(trace[k], keys) == trace[k].r.sources[i].contested
  {
    BooksBalance(trace, es, k);
    var b := trace[k];
    hide IsRun, SumShares, SumThrough, Contends, Tallied, ConnectionOf;
    assert SourceOk(b, i);
    SharesAreThrough(b, keys, i);
    ConnectionsCover(b.retired, keys, i);
  }
}
