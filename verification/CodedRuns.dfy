/**
 Runs of one honest block, coding shreds included, with a decoder that any `k` shreds of a FEC
 set suffice for: which data shreds get in, by themselves or recovered, as a function of the
 stream alone; and that the order of the stream matters.
 */
module CodedRuns {
  import opened Common
  import opened Options
  import opened Bitset
  import opened Shreds
  import opened SlotSpec
  import opened SlotLaws
  import opened SlotRun
  import opened ExactlyOnce
  import opened Completeness
  import opened RecoveryBounds
  import opened AgreeingRuns
  import opened HonestBlock
  import opened HonestRuns

  // ----- from the stream alone -----

  /** A coding shred of the set `fec` that says how many data shreds the set has. */
  predicate IsCodeOf(x: Shred, fec: nat) {
    !x.isData && x.fecSetIndex == fec && NumDataShreds(x.payload).Some?
  }

  /** The distinct coding shreds of the set `fec` among the first `n` shreds. */
  ghost function Codes(shreds: seq<Shred>, n: nat, fec: nat): set<nat>
    requires n <= |shreds|
  {
    if n == 0 then {} else
    Codes(shreds, n - 1, fec) + if IsCodeOf(shreds[n - 1], fec) then {shreds[n - 1].index} else {}
  }

  /** The data shreds of `lo..hi` among `now` that were not handed out with what was in `before`. */
  ghost function Waiting(b: seq<Shred>, before: set<nat>, now: set<nat>, lo: nat, hi: nat): (r: set<nat>)
    requires IsBlock(b)
    ensures forall i: nat :: i in r <==> lo <= i < hi && i in now && !(i < |b| && Ready(b, before, i))
  {
    set i: nat | lo <= i < hi && i in now && !(i < |b| && Ready(b, before, i))
  }

  /**
   The guard of a recovery: a data shred of the set is missing, and those waiting to be handed
   out make up its size together with `codes` coding shreds.  A data shred already handed out
   does not count.
   */
  ghost predicate Decodes(b: seq<Shred>, before: set<nat>, now: set<nat>, codes: nat, lo: nat, hi: nat)
    requires IsBlock(b)
  {
    && (exists i: nat :: lo <= i < hi && i < |b| && i !in now)
    && |Waiting(b, before, now, lo, hi)| + codes >= hi - lo
  }

  ghost function With(before: set<nat>, x: Shred): set<nat> {
    if x.isData then before + {x.index} else before
  }

  /** Shred `n` makes the slot try, and so complete, the FEC set it names. */
  ghost predicate DecodesAt(b: seq<Shred>, g: Geometry, shreds: seq<Shred>, n: nat, before: set<nat>)
    requires IsBlock(b) && n < |shreds| && shreds[n].fecSetIndex in g
  {
    var lo := shreds[n].fecSetIndex;
    Decodes(b, before, With(before, shreds[n]), |Codes(shreds, n + 1, lo)|, lo, lo + g[lo])
  }

  /** The data shreds in the slot after `n` shreds: each one received, and each set that was recovered. */
  ghost function Gets(b: seq<Shred>, g: Geometry, shreds: seq<Shred>, n: nat): set<nat>
    requires IsBlock(b) && n <= |shreds| && forall i | 0 <= i < |shreds| :: Agrees(g, shreds[i])
  {
    if n == 0 then {} else
    var before, x := Gets(b, g, shreds, n - 1), shreds[n - 1];
    With(before, x) +
    if DecodesAt(b, g, shreds, n - 1, before) then Range(x.fecSetIndex, x.fecSetIndex + g[x.fecSetIndex]) else {}
  }

  /** One block's shreds with one geometry, and a decoder that is truthful and needs any `k`. */
  ghost predicate Coded(shreds: seq<Shred>, recover: seq<Shred> -> Rebuilt, b: seq<Shred>, parity: set<Shred>, g: Geometry) {
    && IsBlock(b) && (forall i | 0 <= i < |shreds| :: Genuine(b, parity, shreds[i]) && Agrees(g, shreds[i]))
    && (forall x | x in parity :: !x.isData) && Tiled(g)
    && Truthful(recover, b, parity) && KeepsToSet(recover) && AnyKSuffice(recover)
  }

  // ----- the shred takes its place -----

  function Placed(s: Slot, x: Shred): Slot {
    if x.isData then InsertData(s, x) else InsertCoding(s, x)
  }

  function IndexSet(xs: seq<Shred>): set<nat> { set x | x in xs :: x.index }

  /** Of a set that misses a data shred, the slot keeps all the coding shreds that came. */
  ghost predicate CodesMatch(s: Slot, g: Geometry, shreds: seq<Shred>, n: nat)
    requires n <= |shreds|
  {
    forall f | f in g :: CodesMatchAt(s, f, g[f], shreds, n)
  }

  ghost predicate CodesMatchAt(s: Slot, f: nat, k: Pos, shreds: seq<Shred>, n: nat)
    requires n <= |shreds|
  {
    !NoneMissing(s.cells, f, f + k) ==> CodesOf(s, f) == Codes(shreds, n, f)
  }

  ghost function CodesOf(s: Slot, f: nat): set<nat> {
    if SetOf(s.coding, f).Some? then IndexSet(SetOf(s.coding, f).value.codingShreds) else {}
  }

  lemma PlacedGot(s: Slot, x: Shred)
    ensures GotSet(Placed(s, x)) == With(GotSet(s), x)
    ensures forall i: nat :: EmittedAt(Placed(s, x).cells, i) <==> EmittedAt(s.cells, i)
    ensures Placed(s, x).finished == s.finished && NoNewMissing(s, Placed(s, x))
  {}

  lemma IndexSetMore(xs: seq<Shred>, x: Shred)
    ensures IndexSet(xs + [x]) == IndexSet(xs) + {x.index}
    ensures HasIndex(xs, x.index) ==> x.index in IndexSet(xs)
  {
    assert x in xs + [x];
    assert forall y | y in xs :: y in xs + [x];
    if i :| 0 <= i < |xs| && xs[i].index == x.index {
      assert xs[i] in xs;
    }
  }

  lemma WithCodingIndices(c: CodingSet, x: Shred)
    ensures IndexSet(WithCoding(c, x).codingShreds) == IndexSet(c.codingShreds) + {x.index}
  {
    IndexSetMore(c.codingShreds, x);
  }

  lemma PlacedCodes(s: Slot, g: Geometry, shreds: seq<Shred>, n: nat)
    requires n < |shreds| && CodesMatch(s, g, shreds, n) && CodingSound(s.coding) && Agrees(g, shreds[n])
    ensures CodesMatch(Placed(s, shreds[n]), g, shreds, n + 1)
  {
    hide CodesMatchAt, Placed, CodingSound;
    forall f | f in g ensures CodesMatchAt(Placed(s, shreds[n]), f, g[f], shreds, n + 1) {
      PlacedCodesAt(s, shreds, n, f, g[f]);
    }
  }

  lemma PlacedCodesAt(s: Slot, shreds: seq<Shred>, n: nat, f: nat, k: Pos)
    requires n < |shreds| && CodesMatchAt(s, f, k, shreds, n) && CodingSound(s.coding)
    requires IsCodeOf(shreds[n], f) ==> NumDataShreds(shreds[n].payload) == Some(k)
    ensures CodesMatchAt(Placed(s, shreds[n]), f, k, shreds, n + 1)
  {
    hide Placed, CodingSound, NoneMissing, NoNewMissing, CodesOf;
    var x := shreds[n];
    var t := Placed(s, x);
    PlacedGot(s, x);
    if !NoneMissing(t.cells, f, f + k) {
      MissedBefore(s, t, f, f + k);
      if x.isData {
        PlacedData(s, x, f);
      } else {
        PlacedCode(s, x, f, k);
      }
    }
  }

  lemma MissedBefore(s: Slot, t: Slot, lo: nat, hi: nat)
    requires NoNewMissing(s, t) && !NoneMissing(t.cells, lo, hi)
    ensures !NoneMissing(s.cells, lo, hi)
  {}

  lemma PlacedData(s: Slot, x: Shred, f: nat)
    requires x.isData
    ensures CodesOf(Placed(s, x), f) == CodesOf(s, f)
  {}

  lemma PlacedCode(s: Slot, x: Shred, f: nat, k: nat)
    requires !x.isData && CodingSound(s.coding) && !NoneMissing(s.cells, f, f + k)
    requires IsCodeOf(x, f) ==> NumDataShreds(x.payload) == Some(k)
    ensures CodesOf(Placed(s, x), f) == CodesOf(s, f) + if IsCodeOf(x, f) then {x.index} else {}
  {
    hide WithCoding, CodingSound, IndexSet, SetOf, InsertCoding, NoneMissing;
    InsertCodingSetOf(s, x, f);
    if IsCodeOf(x, f) {
      match SetOf(s.coding, f)
      case Some(c) => WithCodingIndices(c, x);
      case None =>
        WithCodingIndices(CodingSet(f, k, [], 0), x);
        NoIndices();
    }
  }

  lemma NoIndices()
    ensures IndexSet([]) == {}
  {}

  // ----- the guard -----

  lemma EmittedIffReady(s: Slot, b: seq<Shred>, parity: set<Shred>, i: nat)
    requires IsBlock(b) && Sound(s) && Faithful(s, b, parity) && !s.finished && Complete(s)
    ensures EmittedAt(s.cells, i) <==> i < |b| && Ready(b, GotSet(s), i)
  {
    if i < |b| && EmittedAt(s.cells, i) {
      EmittedIsReady(s, b, parity, i);
    }
    if i < |b| && Ready(b, GotSet(s), i) {
      ReadyIsEmitted(s, b, parity, i);
    }
  }

  lemma {:induction false} HeldCounted(cells: seq<DataShred>, lo: nat, hi: nat, held: set<nat>)
    requires forall i: nat :: i in held <==> lo <= i < hi && HeldAt(cells, i)
    ensures CountHeld(cells, lo, hi) == |held|
    decreases hi
  {
    if lo < hi {
      HeldCounted(cells, lo, hi - 1, held - {hi - 1});
      assert hi - 1 in held ==> held == (held - {hi - 1}) + {hi - 1};
      assert hi - 1 !in held ==> held == held - {hi - 1};
    } else {
      assert held == {};
    }
  }

  /** What recovery counts as held is what waits to be handed out. */
  lemma WaitingCounted(s: Slot, x: Shred, b: seq<Shred>, parity: set<Shred>, lo: nat, hi: nat)
    requires IsBlock(b) && Sound(s) && Faithful(s, b, parity) && !s.finished && Complete(s)
    ensures CountHeld(Placed(s, x).cells, lo, hi) == |Waiting(b, GotSet(s), With(GotSet(s), x), lo, hi)|
  {
    PlacedGot(s, x);
    hide Placed, Sound, Faithful, Complete, Ready, CountHeld;
    var t := Placed(s, x);
    var held := Waiting(b, GotSet(s), With(GotSet(s), x), lo, hi);
    forall i: nat ensures i in held <==> lo <= i < hi && HeldAt(t.cells, i) {
      EmittedIffReady(s, b, parity, i);
      assert i in GotSet(t) <==> !MissingAt(t.cells, i);
    }
    HeldCounted(t.cells, lo, hi, held);
  }

  lemma {:induction false} DistinctCounted(xs: seq<Shred>)
    requires DistinctIndices(xs)
    ensures |IndexSet(xs)| == |xs|
  {
    if xs != [] {
      var front, x := xs[..|xs| - 1], xs[|xs| - 1];
      assert xs == front + [x];
      DistinctCounted(front);
      IndexSetMore(front, x);
    }
  }

  /** The data shreds of `lo..hi` that are in the slot and not handed out. */
  ghost function HeldIndices(s: Slot, lo: nat, hi: nat): (r: set<nat>)
    ensures forall i: nat :: i in r <==> lo <= i < hi && HeldAt(s.cells, i)
  {
    set i: nat | lo <= i < hi && HeldAt(s.cells, i)
  }

  /**
   The guard of a recovery, for any decoder and any shreds: the set is kept, was tried fewer than
   three times, misses a data shred, and its distinct coding shreds with the data shreds held and
   not handed out make up its size.
   */
  lemma TriedIff(s: Slot, x: Shred, recover: seq<Shred> -> Rebuilt)
    requires Sound(s) && !s.finished
    ensures var t := Placed(s, x);
      Insert(s, x, recover).recovery.Some? <==>
        && SetOf(t.coding, x.fecSetIndex).Some?
        && var c := SetOf(t.coding, x.fecSetIndex).value;
           && c.recoveryAttempts < MAX_RECOVERY_ATTEMPTS
           && (exists i: nat :: c.Covers(i) && MissingAt(t.cells, i))
           && |HeldIndices(t, c.fecSetIndex, c.End())| + |IndexSet(c.codingShreds)| >= c.numDataShreds
  {
    var t, fec := Placed(s, x), x.fecSetIndex;
    PlacedSound(s, x);
    SoundCells(t);
    TakesPlaced(s, x, recover);
    RecoverTries(t, fec, recover);
    hide Sound, CellsSound, Placed, TakeIn, TakeCompleted, Recover, CountHeld, IndexSet, MissingAt;
    if SetOf(t.coding, fec).Some? {
      var c := SetOf(t.coding, fec).value;
      SetOfIndex(t.coding, fec);
      DistinctCounted(c.codingShreds);
      HeldCounted(t.cells, fec, c.End(), HeldIndices(t, fec, c.End()));
      MissesOne(t, c);
    }
  }

  lemma MissesOne(t: Slot, c: CodingSet)
    ensures !NoneMissing(t.cells, c.fecSetIndex, c.End()) <==> exists i: nat :: c.Covers(i) && MissingAt(t.cells, i)
  {
    if !NoneMissing(t.cells, c.fecSetIndex, c.End()) {
      var i: nat :| c.fecSetIndex <= i < c.End() && MissingAt(t.cells, i);
      assert c.Covers(i);
    }
  }

  lemma PlacedSound(s: Slot, x: Shred)
    requires Sound(s) && !s.finished
    ensures Sound(Placed(s, x)) && !Placed(s, x).finished
  {
    hide Sound, InsertData, InsertCoding;
    if x.isData {
      InsertDataSound(s, x);
    } else {
      InsertCodingSound(s, x);
    }
  }

  lemma TooFew(held: set<nat>, lo: nat, hi: nat, i: nat)
    requires lo <= i < hi && i !in held && forall j | j in held :: lo <= j < hi
    ensures |held| < hi - lo
  {
    SubsetSize(held, Range(lo, hi) - {i});
  }

  /** What an intake of the block's shreds starts from. */
  ghost predicate Poised(s: Slot, recover: seq<Shred> -> Rebuilt, b: seq<Shred>, parity: set<Shred>, g: Geometry) {
    && IsBlock(b) && !s.finished
    && Honest(s, b, parity) && Settled(s, g, recover)
    && (forall x | x in parity :: !x.isData) && Tiled(g)
    && Truthful(recover, b, parity) && KeepsToSet(recover) && AnyKSuffice(recover)
  }

  lemma PlacedOk(s: Slot, x: Shred, recover: seq<Shred> -> Rebuilt, b: seq<Shred>, parity: set<Shred>, g: Geometry)
    requires Poised(s, recover, b, parity, g) && Genuine(b, parity, x) && Agrees(g, x)
    ensures Sound(Placed(s, x)) && !Placed(s, x).finished && Faithful(Placed(s, x), b, parity) && CodingAgrees(Placed(s, x), g)
    ensures SetOf(Placed(s, x).coding, x.fecSetIndex).Some? ==> SetOf(Placed(s, x).coding, x.fecSetIndex).value.recoveryAttempts == 0
  {
    PlacedGot(s, x);
    SoundCells(s);
    var fec := x.fecSetIndex;
    if SetOf(s.coding, fec).Some? {
      SetOfMember(s.coding, SetOf(s.coding, fec).value);
    }
    hide Sound, Faithful, CodingAgrees, InsertData, InsertCoding, SetOf, Agrees, Tiled, Truthful, KeepsToSet, AnyKSuffice, CountHeld;
    if x.isData {
      InsertDataSound(s, x);
      InsertDataFaithful(s, x, b, parity);
      InsertDataFills(s, x);
      CodingAgreesDepends(s, InsertData(s, x), g);
    } else {
      InsertCodingSound(s, x);
      InsertCodingFaithful(s, x, b, parity);
      InsertCodingAgrees(s, x, g);
      InsertCodingSetOf(s, x, fec);
    }
  }

  /** A set that can be recovered lies within the block. */
  lemma RecoverableInBlock(t: Slot, fec: nat, recover: seq<Shred> -> Rebuilt, b: seq<Shred>, parity: set<Shred>, g: Geometry)
    requires IsBlock(b) && Sound(t) && !t.finished && Faithful(t, b, parity) && CodingAgrees(t, g)
    requires (forall x | x in parity :: !x.isData) && Truthful(recover, b, parity) && KeepsToSet(recover) && AnyKSuffice(recover)
    requires Recoverable(t, fec)
    ensures fec in g && fec + g[fec] <= |b|
    ensures NoneMissing(Recover(t, fec, recover).0.cells, fec, fec + g[fec])
  {
    RecoverLocal(t, fec, recover, g);
    RecoverFaithful(t, fec, recover, b, parity);
    SuccessfulRecovery(t, fec, recover, g);
    RecoveredCells(t, fec, recover);
    RecoveryInputUsable(t, fec, g);
    hide Recover, Recoverable, Sound, CodingAgrees, Truthful, KeepsToSet, AnyKSuffice, Position, InputOf;
    var u := Recover(t, fec, recover).0;
    assert !MissingAt(u.cells, fec + g[fec] - 1);
  }

  lemma RecoveredCells(t: Slot, fec: nat, recover: seq<Shred> -> Rebuilt)
    requires Recoverable(t, fec)
    ensures Recover(t, fec, recover).0.cells == Refilled(t, fec, recover).cells
    ensures Recover(t, fec, recover).1.Some?
  {
    RefilledKeepsCoding(t, fec, recover);
    DropIfFullCells(Refilled(t, fec, recover), Position(t.coding, fec));
    hide Refilled, CountHeld, CountRebuilt, NoneMissing;
  }

  /** The guard of a recovery, when no set was tried before. */
  lemma GuardIff(t: Slot, fec: nat, g: Geometry, size: nat, waiting: set<nat>)
    requires CodingSound(t.coding) && CodingAgrees(t, g) && fec in g
    requires SetOf(t.coding, fec).Some? ==> SetOf(t.coding, fec).value.recoveryAttempts == 0
    requires CountHeld(t.cells, fec, fec + g[fec]) == |waiting|
    requires forall j | j in waiting :: fec <= j < fec + g[fec] && !MissingAt(t.cells, j)
    requires Recoverable(t, fec) ==> fec + g[fec] <= size
    ensures Recoverable(t, fec) <==>
      (exists i: nat :: fec <= i < fec + g[fec] && i < size && MissingAt(t.cells, i)) && |waiting| + |CodesOf(t, fec)| >= g[fec]
  {
    hide CountHeld, CodingSound, CodingAgrees, Position, CodesOf;
    if SetOf(t.coding, fec).Some? {
      SetCounted(t, fec, g);
    } else if i: nat :| fec <= i < fec + g[fec] && i < size && MissingAt(t.cells, i) {
      NoCodes(t, fec);
      TooFew(waiting, fec, fec + g[fec], i);
    }
  }

  lemma NoCodes(t: Slot, fec: nat)
    requires SetOf(t.coding, fec) == None
    ensures |CodesOf(t, fec)| == 0
  {}

  lemma SetCounted(t: Slot, fec: nat, g: Geometry)
    requires CodingSound(t.coding) && CodingAgrees(t, g) && Position(t.coding, fec) < |t.coding|
    ensures var c := t.coding[Position(t.coding, fec)];
      SetOf(t.coding, fec) == Some(c) && fec in g && c.numDataShreds == g[fec] && |CodesOf(t, fec)| == |c.codingShreds|
  {
    var c := t.coding[Position(t.coding, fec)];
    assert c in t.coding;
    DistinctCounted(c.codingShreds);
  }

  lemma PoisedParts(s: Slot, recover: seq<Shred> -> Rebuilt, b: seq<Shred>, parity: set<Shred>, g: Geometry)
    requires Poised(s, recover, b, parity, g)
    ensures Sound(s) && Faithful(s, b, parity) && Complete(s) && CodingAgrees(s, g) && CodingSound(s.coding)
  {
    hide Faithful, Complete, CodingAgrees, Tiled, Truthful, KeepsToSet, AnyKSuffice, IsBlock, NoneRecoverable, NoneFull, NotDue;
    hide CellsSound, EmissionsClosed;
  }

  lemma PlacedGuard(s: Slot, x: Shred, recover: seq<Shred> -> Rebuilt, b: seq<Shred>, parity: set<Shred>, g: Geometry)
    requires Poised(s, recover, b, parity, g) && Genuine(b, parity, x) && Agrees(g, x)
    requires x.fecSetIndex in g
    ensures var t, lo := Placed(s, x), x.fecSetIndex;
      Recoverable(t, lo) <==>
        && (exists i: nat :: lo <= i < lo + g[lo] && i < |b| && MissingAt(t.cells, i))
        && |Waiting(b, GotSet(s), With(GotSet(s), x), lo, lo + g[lo])| + |CodesOf(t, lo)| >= g[lo]
  {
    hide Sound, Faithful, CodingAgrees, Tiled, Truthful, KeepsToSet, AnyKSuffice, IsBlock, Honest, Settled;
    hide Complete, Genuine, Agrees, Placed, Recoverable, MissingAt, CodesOf, Ready, With, CountHeld, SetOf, CodingSound, CellsSound;
    var t, lo := Placed(s, x), x.fecSetIndex;
    PoisedParts(s, recover, b, parity, g);
    PlacedOk(s, x, recover, b, parity, g);
    WaitingCounted(s, x, b, parity, lo, lo + g[lo]);
    SoundCells(t);
    PlacedGot(s, x);
    if Recoverable(t, lo) {
      RecoverableInBlock(t, lo, recover, b, parity, g);
    }
    GuardIff(t, lo, g, |b|, Waiting(b, GotSet(s), With(GotSet(s), x), lo, lo + g[lo]));
  }

  /** The slot tries to recover a set exactly when the stream says so. */
  lemma TriesIfDecodes(s: Slot, recover: seq<Shred> -> Rebuilt, b: seq<Shred>, parity: set<Shred>, g: Geometry, shreds: seq<Shred>, n: nat)
    requires n < |shreds| && Poised(s, recover, b, parity, g) && Genuine(b, parity, shreds[n]) && Agrees(g, shreds[n])
    requires CodesMatch(s, g, shreds, n)
    ensures Recoverable(Placed(s, shreds[n]), shreds[n].fecSetIndex) <==> DecodesAt(b, g, shreds, n, GotSet(s))
  {
    hide Placed, Recoverable, Codes, CodesOf, Ready, With, Genuine, CodesMatch, MissingAt, IsBlock, Honest, Settled, Waiting;
    hide Tiled, Truthful, KeepsToSet, AnyKSuffice;
    var x, fec := shreds[n], shreds[n].fecSetIndex;
    var t := Placed(s, x);
    PlacedGuard(s, x, recover, b, parity, g);
    PlacedGot(s, x);
    CodesKept(s, recover, b, parity, g, shreds, n);
    assert forall i: nat :: i in With(GotSet(s), x) <==> !MissingAt(t.cells, i);
  }

  lemma CodesKept(s: Slot, recover: seq<Shred> -> Rebuilt, b: seq<Shred>, parity: set<Shred>, g: Geometry, shreds: seq<Shred>, n: nat)
    requires n < |shreds| && Poised(s, recover, b, parity, g) && Agrees(g, shreds[n]) && CodesMatch(s, g, shreds, n)
    requires shreds[n].fecSetIndex in g
    ensures var t, f := Placed(s, shreds[n]), shreds[n].fecSetIndex;
      (exists i: nat :: f <= i < f + g[f] && i < |b| && MissingAt(t.cells, i)) ==> CodesOf(t, f) == Codes(shreds, n + 1, f)
  {
    hide Placed, Poised, Sound, Faithful, Complete, CodingAgrees, CodingSound, Agrees, MissingAt;
    PoisedParts(s, recover, b, parity, g);
    PlacedCodes(s, g, shreds, n);
    var t, f := Placed(s, shreds[n]), shreds[n].fecSetIndex;
    if i: nat :| f <= i < f + g[f] && i < |b| && MissingAt(t.cells, i) {
      assert CodesMatchAt(t, f, g[f], shreds, n + 1);
    }
  }

  // ----- the recovery -----

  /** A recovery completes the set and fills nothing else. */
  lemma RecoverGot(t: Slot, fec: nat, recover: seq<Shred> -> Rebuilt, b: seq<Shred>, parity: set<Shred>, g: Geometry)
    requires IsBlock(b) && Sound(t) && !t.finished && Faithful(t, b, parity) && CodingAgrees(t, g) && fec in g
    requires (forall x | x in parity :: !x.isData) && Truthful(recover, b, parity) && KeepsToSet(recover) && AnyKSuffice(recover)
    ensures GotSet(Recover(t, fec, recover).0) == GotSet(t) + if Recoverable(t, fec) then Range(fec, fec + g[fec]) else {}
  {
    hide Recover, Recoverable, Sound, Faithful, CodingAgrees, Truthful, KeepsToSet, AnyKSuffice, SetOf, IsBlock, CodingSound, CellsSound;
    hide SameOutside, NumDataShreds, GotSet;
    SoundCells(t);
    RecoverLocal(t, fec, recover, g);
    RecoverTries(t, fec, recover);
    var u := Recover(t, fec, recover).0;
    if Recoverable(t, fec) {
      RecoverableInBlock(t, fec, recover, b, parity, g);
      GotAlike(t, u, fec, fec + g[fec] - 1);
    } else {
      SameCellsSameGot(t, u);
    }
  }

  lemma SameCellsSameGot(s: Slot, t: Slot)
    requires s.cells == t.cells
    ensures GotSet(t) == GotSet(s)
  {}

  lemma GotAlike(s: Slot, t: Slot, lo: nat, hi: nat)
    requires SameOutside(s, t, lo, hi) && NoneMissing(t.cells, lo, hi + 1)
    ensures GotSet(t) == GotSet(s) + Range(lo, hi + 1)
  {
    forall i: nat ensures i in GotSet(t) <==> i in GotSet(s) || lo <= i <= hi {
      assert !(lo <= i <= hi) ==> SameCell(s.cells, t.cells, i);
      assert MissingAt(t.cells, i) ==> i !in GotSet(t);
    }
  }

  lemma RecoverCodesAt(t: Slot, fec: nat, recover: seq<Shred> -> Rebuilt, shreds: seq<Shred>, n: nat, f: nat, k: Pos)
    requires n <= |shreds| && CodesMatchAt(t, f, k, shreds, n) && CodingSound(t.coding)
    requires SetOf(t.coding, f).Some? ==> SetOf(t.coding, f).value.numDataShreds == k
    ensures CodesMatchAt(Recover(t, fec, recover).0, f, k, shreds, n)
  {
    RecoverSetOf(t, fec, recover, f);
    hide Recover, Recoverable, CodingSound, NoNewMissing, SetOf, IndexSet, Codes;
    var u := Recover(t, fec, recover).0;
    if !NoneMissing(u.cells, f, f + k) {
      MissedBefore(t, u, f, f + k);
      SetOfIndex(t.coding, f);
    }
  }

  lemma SetOfIndex(coding: seq<CodingSet>, f: nat)
    ensures SetOf(coding, f).Some? ==> SetOf(coding, f).value.fecSetIndex == f && SetOf(coding, f).value in coding
  {}

  lemma EmissionCodesAt(u: Slot, v: Slot, shreds: seq<Shred>, n: nat, f: nat, k: Pos)
    requires n <= |shreds| && CodesMatchAt(u, f, k, shreds, n) && CodingSound(u.coding) && CodingSound(v.coding)
    requires SetOf(u.coding, f).Some? ==> SetOf(u.coding, f).value.numDataShreds == k
    requires OnlyFullDropped(u, v) && !v.finished
    ensures CodesMatchAt(v, f, k, shreds, n)
  {
    hide SetOf, IndexSet, Codes, CodingSound;
    if !NoneMissing(v.cells, f, f + k) {
      SetOfIndex(u.coding, f);
      SetOfIndex(v.coding, f);
      if SetOf(v.coding, f).Some? {
        SetOfMember(u.coding, SetOf(v.coding, f).value);
      } else if SetOf(u.coding, f).Some? {
        SetOfMember(v.coding, SetOf(u.coding, f).value);
      }
    }
  }

  lemma SizeAgrees(t: Slot, f: nat, g: Geometry)
    requires CodingAgrees(t, g)
    ensures SetOf(t.coding, f).Some? ==> f in g && SetOf(t.coding, f).value.numDataShreds == g[f]
  {
    SetOfIndex(t.coding, f);
  }

  lemma TakenInCodes(s: Slot, recover: seq<Shred> -> Rebuilt, b: seq<Shred>, parity: set<Shred>, g: Geometry, shreds: seq<Shred>, n: nat)
    requires n < |shreds| && Poised(s, recover, b, parity, g) && Genuine(b, parity, shreds[n]) && Agrees(g, shreds[n])
    requires CodesMatch(s, g, shreds, n)
    ensures CodesMatch(TakeIn(s, shreds[n], recover).state, g, shreds, n + 1)
  {
    hide Placed, Recover, Honest, Settled, Sound, Faithful, Complete, CodingAgrees, CodingSound, SetOf, CodesMatchAt, Genuine, Agrees;
    hide Tiled, Truthful, KeepsToSet, AnyKSuffice, IsBlock, CellsSound;
    var x := shreds[n];
    var t := Placed(s, x);
    PoisedParts(s, recover, b, parity, g);
    PlacedOk(s, x, recover, b, parity, g);
    PlacedCodes(s, g, shreds, n);
    SoundCells(t);
    TakesPlaced(s, x, recover);
    forall f | f in g ensures CodesMatchAt(TakeIn(s, x, recover).state, f, g[f], shreds, n + 1) {
      assert CodesMatchAt(t, f, g[f], shreds, n + 1);
      SizeAgrees(t, f, g);
      RecoverCodesAt(t, x.fecSetIndex, recover, shreds, n + 1, f, g[f]);
    }
  }

  lemma TakesPlaced(s: Slot, x: Shred, recover: seq<Shred> -> Rebuilt)
    ensures TakeIn(s, x, recover).state == Recover(Placed(s, x), x.fecSetIndex, recover).0
    ensures TakeIn(s, x, recover).recovery == Recover(Placed(s, x), x.fecSetIndex, recover).1
  {
    hide Recover, InsertData, InsertCoding;
  }

  /** After intake the slot has the shred, and the whole set if it could be recovered. */
  lemma TakenInGot(s: Slot, recover: seq<Shred> -> Rebuilt, b: seq<Shred>, parity: set<Shred>, g: Geometry, shreds: seq<Shred>, n: nat)
    requires n < |shreds| && Poised(s, recover, b, parity, g) && Genuine(b, parity, shreds[n]) && Agrees(g, shreds[n])
    requires CodesMatch(s, g, shreds, n)
    ensures var x := shreds[n];
      && GotSet(TakeIn(s, x, recover).state) == With(GotSet(s), x) +
         (if DecodesAt(b, g, shreds, n, GotSet(s)) then Range(x.fecSetIndex, x.fecSetIndex + g[x.fecSetIndex]) else {})
      && (TakeIn(s, x, recover).recovery.Some? <==> DecodesAt(b, g, shreds, n, GotSet(s)))
  {
    hide Placed, Recover, Recoverable, Honest, Settled, Sound, Faithful, CodingAgrees, CodingSound, SetOf, Genuine, CodesMatch;
    hide Tiled, Truthful, KeepsToSet, AnyKSuffice, IsBlock, DecodesAt, GotSet, With, TakeIn;
    var x := shreds[n];
    var t := Placed(s, x);
    PlacedOk(s, x, recover, b, parity, g);
    TriesIfDecodes(s, recover, b, parity, g, shreds, n);
    PlacedGot(s, x);
    TakesPlaced(s, x, recover);
    RecoverGot(t, x.fecSetIndex, recover, b, parity, g);
    SoundCells(t);
    RecoverTries(t, x.fecSetIndex, recover);
  }

  lemma RecoverTries(t: Slot, fec: nat, recover: seq<Shred> -> Rebuilt)
    requires CodingSound(t.coding)
    ensures Recover(t, fec, recover).1.Some? <==> Recoverable(t, fec)
  {
    RecoverSetOf(t, fec, recover, fec);
    hide Recover, CountHeld, NoneMissing;
  }

  // ----- the run -----

  /** The slot after `n` shreds has just what the stream says, and a finished one had everything. */
  ghost predicate Follows(s: Slot, b: seq<Shred>, g: Geometry, shreds: seq<Shred>, n: nat, gets: set<nat>)
    requires n <= |shreds|
  {
    if s.finished then gets == Range(0, |b|) else GotSet(s) == gets && CodesMatch(s, g, shreds, n)
  }

  /** When everything is handed out, everything was in after intake. */
  lemma CoveredGot(s: Slot, u: Slot, log: seq<Taken>, taken: seq<Taken>, b: seq<Shred>, parity: set<Shred>)
    requires !s.finished && IsBlock(b) && LogMatches(s, log, b)
    requires !u.finished && Faithful(u, b, parity)
    requires forall i: nat :: EmittedAt(u.cells, i) <==> EmittedAt(s.cells, i)
    requires forall i: nat | Covers(taken, i) :: HeldAt(u.cells, i)
    requires forall i: nat | i < |b| :: Covers(log + taken, i)
    ensures GotSet(u) == Range(0, |b|)
  {
    CoversConcat(log, taken);
    hide Covers, IsBlock, IsSetOf;
    forall i: nat | i < |b| ensures i in GotSet(u) {
      assert Covers(log, i) || Covers(taken, i);
    }
    forall i: nat | i in GotSet(u) ensures i < |b| {
      assert !MissingAt(u.cells, i);
    }
  }

  lemma FinishedGot(s: Slot, log: seq<Taken>, x: Shred, recover: seq<Shred> -> Rebuilt, b: seq<Shred>, parity: set<Shred>)
    requires IsBlock(b) && Honest(s, b, parity) && Genuine(b, parity, x) && !s.finished && LogMatches(s, log, b)
    requires (forall y | y in parity :: !y.isData) && Truthful(recover, b, parity)
    requires Insert(s, x, recover).state.finished
    ensures GotSet(TakeIn(s, x, recover).state) == Range(0, |b|)
  {
    hide Truthful, Sound, TakeIn, Insert, IsBlock, Genuine, Faithful, EmittedAt, HeldAt, IsSetOf, Covers;
    InsertMatches(s, log, x, recover, b, parity);
    TakeInSound(s, x, recover);
    TakeInFaithful(s, x, recover, b, parity);
    InsertTakesHeld(s, x, recover);
    CoveredGot(s, TakeIn(s, x, recover).state, log, Insert(s, x, recover).taken, b, parity);
  }

  /** What an insertion hands out was held after intake. */
  lemma InsertTakesHeld(s: Slot, x: Shred, recover: seq<Shred> -> Rebuilt)
    requires Sound(s) && !s.finished
    ensures forall i: nat | Covers(Insert(s, x, recover).taken, i) :: HeldAt(TakeIn(s, x, recover).state.cells, i)
  {
    TakeInSound(s, x, recover);
    hide Sound, TakeIn;
    var i := TakeIn(s, x, recover);
    if i.searched.Some? {
      var (first, last) := i.searched.value;
      Emissions(i.state, SegmentStart(i.state.ends, first), first, last);
      hide TakeCompleted, IsSegment;
    }
  }

  lemma EmittedFollows(s: Slot, u: Slot, v: Slot, b: seq<Shred>, g: Geometry, shreds: seq<Shred>, n: nat)
    requires n <= |shreds| && CodesMatch(u, g, shreds, n) && OnlyFullDropped(u, v) && !v.finished
    requires CodingAgrees(u, g) && CodingSound(u.coding) && CodingSound(v.coding)
    ensures GotSet(v) == GotSet(u) && CodesMatch(v, g, shreds, n)
  {
    hide CodingAgrees, CodingSound, CodesMatchAt, SetOf;
    assert forall i: nat :: i in GotSet(v) <==> i in GotSet(u);
    forall f | f in g ensures CodesMatchAt(v, f, g[f], shreds, n) {
      assert CodesMatchAt(u, f, g[f], shreds, n);
      SizeAgrees(u, f, g);
      EmissionCodesAt(u, v, shreds, n, f, g[f]);
    }
  }

  lemma InsertFollows(s: Slot, log: seq<Taken>, recover: seq<Shred> -> Rebuilt, b: seq<Shred>, parity: set<Shred>, g: Geometry, shreds: seq<Shred>, n: nat)
    requires n < |shreds| && Poised(s, recover, b, parity, g) && Genuine(b, parity, shreds[n]) && Agrees(g, shreds[n])
    requires LogMatches(s, log, b) && CodesMatch(s, g, shreds, n)
    ensures var x, v := shreds[n], Insert(s, shreds[n], recover).state;
      && Follows(v, b, g, shreds, n + 1, With(GotSet(s), x) +
                 (if DecodesAt(b, g, shreds, n, GotSet(s)) then Range(x.fecSetIndex, x.fecSetIndex + g[x.fecSetIndex]) else {}))
      && (Insert(s, x, recover).recovery.Some? <==> DecodesAt(b, g, shreds, n, GotSet(s)))
  {
    hide Honest, Settled, Sound, CodingAgrees, CodingSound, Genuine, Agrees, CodesMatch, LogMatches;
    hide Tiled, Truthful, KeepsToSet, AnyKSuffice, IsBlock, DecodesAt, GotSet, With, TakeIn, OnlyFullDropped, Faithful, Complete, TakeCompleted;
    var x := shreds[n];
    var u, v := TakeIn(s, x, recover).state, Insert(s, x, recover).state;
    PoisedParts(s, recover, b, parity, g);
    TakenInGot(s, recover, b, parity, g, shreds, n);
    TakenInCodes(s, recover, b, parity, g, shreds, n);
    if v.finished {
      FinishedGot(s, log, x, recover, b, parity);
    } else {
      TakeInSound(s, x, recover);
      TakeInLocal(s, x, recover, g);
      SoundCells(u);
      InsertStateSound(s, x, recover);
      SoundCells(v);
      InsertDropsOnlyFull(s, x, recover);
      EmittedFollows(s, u, v, b, g, shreds, n + 1);
    }
  }

  lemma FinishedStays(b: seq<Shred>, parity: set<Shred>, g: Geometry, shreds: seq<Shred>, n: nat)
    requires IsBlock(b) && n < |shreds| && Genuine(b, parity, shreds[n]) && Agrees(g, shreds[n])
    ensures With(Range(0, |b|), shreds[n]) == Range(0, |b|)
    ensures !DecodesAt(b, g, shreds, n, Range(0, |b|))
  {
    assert With(Range(0, |b|), shreds[n]) == Range(0, |b|);
    hide Codes, Waiting, IsBlock, Genuine;
  }

  lemma {:induction false} RunFollows(slot: nat, shreds: seq<Shred>, n: nat, recover: seq<Shred> -> Rebuilt, b: seq<Shred>, parity: set<Shred>, g: Geometry)
    requires Coded(shreds, recover, b, parity, g) && n <= |shreds|
    ensures Follows(RunSlot(slot, shreds, n, recover), b, g, shreds, n, Gets(b, g, shreds, n))
  {
    if n == 0 {
      NewFollows(slot, b, g, shreds);
    } else {
      RunFollows(slot, shreds, n - 1, recover, b, parity, g);
      StepFollows(slot, shreds, n - 1, recover, b, parity, g);
    }
    hide RunSlot, Gets, Coded, Follows;
  }

  lemma NewFollows(slot: nat, b: seq<Shred>, g: Geometry, shreds: seq<Shred>)
    ensures Follows(NewSlot(slot), b, g, shreds, 0, {})
  {
    forall f | f in g ensures CodesMatchAt(NewSlot(slot), f, g[f], shreds, 0) {
    }
  }

  lemma RunMore(slot: nat, shreds: seq<Shred>, n: nat, recover: seq<Shred> -> Rebuilt)
    requires n < |shreds|
    ensures RunSlot(slot, shreds, n + 1, recover) == Insert(RunSlot(slot, shreds, n, recover), shreds[n], recover).state
  {
    hide Insert;
  }

  lemma GetsMore(b: seq<Shred>, g: Geometry, shreds: seq<Shred>, n: nat)
    requires IsBlock(b) && n < |shreds| && forall i | 0 <= i < |shreds| :: Agrees(g, shreds[i])
    ensures var before, x := Gets(b, g, shreds, n), shreds[n];
      Gets(b, g, shreds, n + 1) == With(before, x) +
        if DecodesAt(b, g, shreds, n, before) then Range(x.fecSetIndex, x.fecSetIndex + g[x.fecSetIndex]) else {}
  {
    hide IsBlock, DecodesAt, With;
  }

  lemma RunPoised(slot: nat, shreds: seq<Shred>, n: nat, recover: seq<Shred> -> Rebuilt, b: seq<Shred>, parity: set<Shred>, g: Geometry)
    requires Coded(shreds, recover, b, parity, g) && n <= |shreds|
    ensures RunSlot(slot, shreds, n, recover).finished || Poised(RunSlot(slot, shreds, n, recover), recover, b, parity, g)
    ensures LogMatches(RunSlot(slot, shreds, n, recover), LogSlot(slot, shreds, n, recover), b)
  {
    hide RunSlot, LogSlot, Honest, Settled, LogMatches, Genuine, Agrees, Tiled, Truthful, KeepsToSet, AnyKSuffice, IsBlock;
    RunHonest(slot, shreds, n, recover, b, parity);
    RunSettles(slot, shreds, n, recover, g);
  }

  /** One more shred: what gets in, and whether a recovery is tried. */
  lemma StepFollows(slot: nat, shreds: seq<Shred>, n: nat, recover: seq<Shred> -> Rebuilt, b: seq<Shred>, parity: set<Shred>, g: Geometry)
    requires Coded(shreds, recover, b, parity, g) && n < |shreds|
    requires Follows(RunSlot(slot, shreds, n, recover), b, g, shreds, n, Gets(b, g, shreds, n))
    ensures Follows(RunSlot(slot, shreds, n + 1, recover), b, g, shreds, n + 1, Gets(b, g, shreds, n + 1))
    ensures Insert(RunSlot(slot, shreds, n, recover), shreds[n], recover).recovery.Some? <==>
            DecodesAt(b, g, shreds, n, Gets(b, g, shreds, n))
  {
    hide Poised, LogMatches, Genuine, Tiled, Truthful, KeepsToSet, AnyKSuffice, IsBlock, DecodesAt, With, GotSet, CodesMatch;
    hide RunSlot, LogSlot, Gets, TakeIn, TakeCompleted;
    var s, x := RunSlot(slot, shreds, n, recover), shreds[n];
    RunMore(slot, shreds, n, recover);
    GetsMore(b, g, shreds, n);
    RunPoised(slot, shreds, n, recover, b, parity, g);
    if s.finished {
      FinishedStays(b, parity, g, shreds, n);
    } else {
      InsertFollows(s, LogSlot(slot, shreds, n, recover), recover, b, parity, g, shreds, n);
    }
  }

  /** What is in the slot, after any number of shreds, is what the stream alone says. */
  lemma KnownFromStream(slot: nat, shreds: seq<Shred>, n: nat, recover: seq<Shred> -> Rebuilt, b: seq<Shred>, parity: set<Shred>, g: Geometry)
    requires Coded(shreds, recover, b, parity, g) && n <= |shreds|
    ensures Known(RunSlot(slot, shreds, n, recover), b) == Gets(b, g, shreds, n)
  {
    RunFollows(slot, shreds, n, recover, b, parity, g);
    hide RunSlot, Gets, Coded, CodesMatch, GotSet;
  }

  /**
   Shred `n` makes the slot try a recovery exactly when the FEC set it names misses a data shred
   and the coding shreds that came, with the data shreds that came and were not handed out yet,
   make up its size.
   */
  lemma TriedFromStream(slot: nat, shreds: seq<Shred>, n: nat, recover: seq<Shred> -> Rebuilt, b: seq<Shred>, parity: set<Shred>, g: Geometry)
    requires Coded(shreds, recover, b, parity, g) && n < |shreds|
    ensures Insert(RunSlot(slot, shreds, n, recover), shreds[n], recover).recovery.Some? <==>
            DecodesAt(b, g, shreds, n, Gets(b, g, shreds, n))
  {
    RunFollows(slot, shreds, n, recover, b, parity, g);
    StepFollows(slot, shreds, n, recover, b, parity, g);
    hide RunSlot, Gets, Coded, Follows, Insert, DecodesAt;
  }

  /**
   One honest block, data and coding shreds in any order and any number, a truthful decoder that
   needs any `k`: index `i` is handed out exactly when its data set and the end of the one before
   it are in what the stream gets in; and the slot is finished exactly when that is the block.
   */
  lemma HandedOutFromStream(slot: nat, shreds: seq<Shred>, recover: seq<Shred> -> Rebuilt, b: seq<Shred>, parity: set<Shred>, g: Geometry)
    requires Coded(shreds, recover, b, parity, g)
    ensures var s := RunSlot(slot, shreds, |shreds|, recover);
      var gets := Gets(b, g, shreds, |shreds|);
      && (forall i: nat | i < |b| :: Covers(LogSlot(slot, shreds, |shreds|, recover), i) <==> Ready(b, gets, i))
      && (s.finished <==> gets == Range(0, |b|))
  {
    HandedOutIffReady(slot, shreds, recover, b, parity, g);
    RunFollows(slot, shreds, |shreds|, recover, b, parity, g);
    KnownFromStream(slot, shreds, |shreds|, recover, b, parity, g);
    var s, gets := RunSlot(slot, shreds, |shreds|, recover), Gets(b, g, shreds, |shreds|);
    if gets == Range(0, |b|) {
      forall i: nat | i < |b| ensures Ready(b, gets, i) {
        ReadyWithAll(b, i);
      }
    }
    hide RunSlot, Gets, IsBlock, Ready, Covers, CodesMatch, GotSet, IsSetOf, Known, LogSlot;
  }
}
