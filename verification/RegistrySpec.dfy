/** The signature registry as a value: who saw each transaction when, until the row is retired and scored. */
module RegistrySpec {
  import opened Common
  import opened Options
  import opened AuditSpec

  /** Rows are retired this many slots behind the tip. */
  const EVICT_MARGIN_SLOTS: nat := 64

  datatype Version = Vote | Legacy | V0 | V1

  datatype VersionCounts = VersionCounts(vote: nat, legacy: nat, v0: nat, v1: nat)

  function AddVersion(c: VersionCounts, v: Version): VersionCounts {
    match v
    case Vote => c.(vote := c.vote + 1)
    case Legacy => c.(legacy := c.legacy + 1)
    case V0 => c.(v0 := c.v0 + 1)
    case V1 => c.(v1 := c.v1 + 1)
  }

  datatype Meta = Meta(version: Option<Version>, isVote: Option<bool>, connection: Option<nat>)

  datatype Seen = Seen(ns: int, dups: nat, meta: Meta)

  datatype SigRow = SigRow(slot: nat, versionCounted: bool, ts: seq<Option<Seen>>)

  datatype WindowLatency = WindowLatency(contested: nat, wins: nat, vsShred: nat)

  const NO_LATENCY := WindowLatency(0, 0, 0)

  /** What is counted for one source. */
  datatype Tally = Tally(seen: nat, latestSlot: nat, contested: nat, wins: nat, behindSum: int, behindN: nat)

  /** `shred[i]` tells whether source i is a shred source. */
  datatype Registry = Registry(
    shred: seq<bool>,
    rotating: seq<bool>,
    events: map<Signature, SigRow>,
    highSlot: nat,
    distinctTotal: nat,
    versions: VersionCounts,
    contestedTotal: nat,
    sources: seq<Tally>,
    latency: map<WindowKey, WindowLatency>,
    finalizedFloor: nat)

  function NewRegistry(shred: seq<bool>, rotating: seq<bool>): Registry {
    Registry(shred, rotating, map[], 0, 0, VersionCounts(0, 0, 0, 0), 0, seq(|shred|, _ => Tally(0, 0, 0, 0, 0, 0)), map[], 0)
  }

  /** Everything has one entry per source. */
  ghost predicate Shaped(r: Registry) {
    && |r.rotating| == |r.shred| == |r.sources|
    && forall sig | sig in r.events :: |r.events[sig].ts| == |r.shred|
  }

  function NewRow(slot: nat, n: nat): SigRow { SigRow(slot, false, seq(n, _ => None)) }

  function RowFor(r: Registry, sig: Signature, slot: nat): SigRow {
    if sig in r.events then r.events[sig] else NewRow(slot, |r.shred|)
  }

  /** The row after a source reported the signature: slot 0 gives way, and only the first sighting of a source counts. */
  function Sighted(row: SigRow, sid: nat, ns: int, slot: nat, meta: Meta): SigRow
    requires sid < |row.ts|
  {
    SigRow(
      if row.slot == 0 then slot else row.slot,
      row.versionCounted || meta.version.Some?,
      row.ts[sid := Some(match row.ts[sid]
                         case Some(seen) => seen.(dups := seen.dups + 1)
                         case None => Seen(ns, 0, meta))])
  }

  function RecordFirst(r: Registry, sid: nat, sig: Signature, ns: int, slot: nat, meta: Meta): (after: Registry)
    requires Shaped(r) && sid < |r.shred|
    ensures Shaped(after)
  {
    var row := RowFor(r, sig, slot);
    r.(events := r.events[sig := Sighted(row, sid, ns, slot, meta)],
       highSlot := Max(r.highSlot, slot),
       distinctTotal := r.distinctTotal + (if sig in r.events then 0 else 1),
       versions := if !row.versionCounted && meta.version.Some? then AddVersion(r.versions, meta.version.value) else r.versions,
       sources := r.sources[sid := Reported(r.sources[sid], slot, row.ts[sid].None?)])
  }

  function Reported(t: Tally, slot: nat, isNew: bool): Tally {
    t.(latestSlot := Max(t.latestSlot, slot), seen := t.seen + One(isNew))
  }

  // ----- scoring a retired row -----

  predicate Present(row: SigRow, i: nat) { i < |row.ts| && row.ts[i].Some? }

  /** How many of the first `k` sources saw the row. */
  function CountPresent(row: SigRow, k: nat): nat {
    if k == 0 then 0 else CountPresent(row, k - 1) + if Present(row, k - 1) then 1 else 0
  }

  predicate Contends(row: SigRow) { CountPresent(row, |row.ts|) >= 2 }

  /** The earliest sighting among the first `k` sources, of shred sources only if `shred` says so. */
  function Earliest(row: SigRow, k: nat, only: seq<bool>): Option<int>
    requires k <= |row.ts| && k <= |only|
  {
    if k == 0 then None else
    var rest := Earliest(row, k - 1, only);
    if !Present(row, k - 1) || !only[k - 1] then rest
    else if rest.Some? && rest.value <= row.ts[k - 1].value.ns then rest
    else Some(row.ts[k - 1].value.ns)
  }

  function First(row: SigRow): Option<int> { Earliest(row, |row.ts|, seq(|row.ts|, _ => true)) }

  /** How far source i was behind the first. */
  function Behind(row: SigRow, i: nat): int {
    if Present(row, i) then row.ts[i].value.ns - First(row).GetOr(row.ts[i].value.ns) else 0
  }

  predicate Wins(row: SigRow, i: nat) { Present(row, i) && First(row) == Some(row.ts[i].value.ns) }

  function One(b: bool): nat { if b then 1 else 0 }

  function ConnectionOf(row: SigRow, i: nat): WindowKey
    requires Present(row, i)
  {
    WindowKey(i, row.ts[i].value.meta.connection.GetOr(0))
  }

  function AddLatency(latency: map<WindowKey, WindowLatency>, key: WindowKey, win: bool, vsShred: bool): map<WindowKey, WindowLatency> {
    var w := if key in latency then latency[key] else NO_LATENCY;
    latency[key := WindowLatency(w.contested + 1, w.wins + One(win), w.vsShred + One(vsShred))]
  }

  /** What source i gains from a contested row. */
  function FoldSource(r: Registry, row: SigRow, i: nat): (after: Registry)
    requires Shaped(r) && |row.ts| == |r.shred| && i < |row.ts|
    ensures Shaped(after)
  {
    if !Present(row, i) then r else
    r.(sources := r.sources[i := Scored(r.sources[i], Behind(row, i), Wins(row, i))],
       latency := if r.rotating[i] then
                    AddLatency(r.latency, ConnectionOf(row, i), Wins(row, i), Earliest(row, |row.ts|, r.shred).Some?)
                  else r.latency)
  }

  function Scored(t: Tally, behind: int, win: bool): Tally {
    t.(contested := t.contested + 1, behindSum := t.behindSum + behind, behindN := t.behindN + 1, wins := t.wins + One(win))
  }

  function FoldUpTo(r: Registry, row: SigRow, k: nat): (after: Registry)
    requires Shaped(r) && |row.ts| == |r.shred| && k <= |row.ts|
    ensures Shaped(after) && after == r.(sources := after.sources, latency := after.latency)
  {
    if k == 0 then r else FoldSource(FoldUpTo(r, row, k - 1), row, k - 1)
  }

  /** A row that fewer than two sources saw is not scored. */
  function Fold(r: Registry, row: SigRow): (after: Registry)
    requires Shaped(r) && |row.ts| == |r.shred|
    ensures Shaped(after)
    ensures after == r.(contestedTotal := after.contestedTotal, sources := after.sources, latency := after.latency)
  {
    if !Contends(row) then r else FoldUpTo(r.(contestedTotal := r.contestedTotal + 1), row, |row.ts|)
  }

  function Floor(r: Registry): nat { Monus(r.highSlot, EVICT_MARGIN_SLOTS) }

  /** Which rows a finalize retires. */
  predicate Retires(r: Registry, force: bool, sig: Signature) {
    sig in r.events && (force || (r.events[sig].slot != 0 && r.events[sig].slot < Floor(r)))
  }

  function Retire(r: Registry, sig: Signature): Registry
    requires Shaped(r) && sig in r.events
  {
    Fold(r.(events := r.events - {sig}), r.events[sig])
  }

  /** Retires `sigs`, in this order. */
  ghost function RetireAll(r: Registry, sigs: seq<Signature>): (after: Registry)
    requires Shaped(r) && (forall s | s in sigs :: s in r.events) && (forall i, j | 0 <= i < j < |sigs| :: sigs[i] != sigs[j])
    ensures Shaped(after) && after.shred == r.shred && after.rotating == r.rotating
    ensures after.highSlot == r.highSlot && after.finalizedFloor == r.finalizedFloor
    ensures after.events == r.events - (set s | s in sigs)
  {
    if sigs == [] then r else
    var front, last := sigs[..|sigs| - 1], sigs[|sigs| - 1];
    assert sigs == front + [last];
    var before := RetireAll(r, front);
    Retire(before, last)
  }

  /** `u64::MAX` stands for "everything is final". */
  const EVERYTHING: nat := 0xFFFF_FFFF_FFFF_FFFF

  /** `sigs` lists exactly the rows to retire. */
  ghost predicate ListsRetired(r: Registry, force: bool, sigs: seq<Signature>) {
    && (forall s :: s in sigs <==> Retires(r, force, s))
    && (forall i, j | 0 <= i < j < |sigs| :: sigs[i] != sigs[j])
  }

  ghost function Finalize(r: Registry, force: bool, sigs: seq<Signature>): Registry
    requires Shaped(r) && ListsRetired(r, force, sigs)
  {
    RetireAll(r.(finalizedFloor := if force then EVERYTHING else Floor(r)), sigs)
  }
}
