/**
 One provider's FEC set over any sequence of shreds: every shred is accounted for exactly
 once, the decode time is the k-th smallest arrival however late k is learned, and the row
 does not depend on the order in which distinct shreds came.
 */
module SetOrder {
  import opened Common
  import opened Options
  import opened Positions
  import opened AggSpec

  /** The set after a sequence of its shreds. */
  function Fold(st: SetState, xs: seq<VerifiedShred>): SetState {
    if xs == [] then st else StepSet(Fold(st, xs[..|xs| - 1]), xs[|xs| - 1])
  }

  // ----- the k-th smallest arrival -----

  ghost predicate Ascending(xs: seq<int>) {
    forall i, j | 0 <= i < j < |xs| :: xs[i] <= xs[j]
  }

  function CountIf(xs: seq<int>, below: bool, v: int): (n: nat)
    ensures n <= |xs|
  {
    if xs == [] then 0 else CountIf(xs[..|xs| - 1], below, v) + Counts(xs[|xs| - 1], below, v)
  }

  function Counts(x: int, below: bool, v: int): nat {
    if x < v || (!below && x == v) then 1 else 0
  }

  /** `v` is a k-th smallest of `xs`: fewer than k are below it, at least k are not above it. */
  ghost predicate IsKth(xs: seq<int>, k: nat, v: int) {
    v in xs && CountIf(xs, true, v) < k <= CountIf(xs, false, v)
  }

  /** Inserting keeps ascending order, and adds exactly the one value. */
  lemma {:induction false} InsertSortedLaws(xs: seq<int>, x: int)
    requires Ascending(xs)
    ensures Ascending(InsertSorted(xs, x))
    ensures forall v :: v in InsertSorted(xs, x) <==> v in xs || v == x
    ensures forall below, v :: CountIf(InsertSorted(xs, x), below, v) == CountIf(xs, below, v) + Counts(x, below, v)
  {
    hide Counts;
    var r := InsertSorted(xs, x);
    if xs == [] || xs[|xs| - 1] <= x {
      assert r[..|r| - 1] == xs;
    } else {
      var front := xs[..|xs| - 1];
      InsertSortedLaws(front, x);
      assert r[..|r| - 1] == InsertSorted(front, x);
      assert xs == front + [xs[|xs| - 1]];
      forall i | 0 <= i < |r| - 1 ensures r[i] <= xs[|xs| - 1] {
        assert r[i] in InsertSorted(front, x);
      }
    }
  }

  lemma {:induction false} SortedLaws(xs: seq<int>)
    ensures Ascending(Sorted(xs))
    ensures forall v :: v in Sorted(xs) <==> v in xs
    ensures forall below, v :: CountIf(Sorted(xs), below, v) == CountIf(xs, below, v)
  {
    if xs != [] {
      hide Counts, Ascending, InsertSorted;
      var front := xs[..|xs| - 1];
      SortedLaws(front);
      InsertSortedLaws(Sorted(front), xs[|xs| - 1]);
      assert xs == front + [xs[|xs| - 1]];
    }
  }

  lemma {:induction false} CountSorted(xs: seq<int>, k: nat, n: nat)
    requires Ascending(xs) && 0 < k <= |xs| && n <= |xs|
    ensures CountIf(xs[..n], true, xs[k - 1]) <= k - 1
    ensures CountIf(xs[..n], false, xs[k - 1]) >= if n < k then n else k
  {
    if n > 0 {
      CountSorted(xs, k, n - 1);
      assert xs[..n][..n - 1] == xs[..n - 1];
    }
  }

  /** What `select_nth` puts at place k - 1 of the arrivals is their k-th smallest. */
  lemma SortedPicksKth(xs: seq<int>, k: nat)
    requires 0 < k <= |xs|
    ensures IsKth(xs, k, Sorted(xs)[k - 1])
  {
    SortedLaws(xs);
    var s := Sorted(xs);
    CountSorted(s, k, |s|);
    assert s[..|s|] == s;
    assert s[k - 1] in s;
  }

  // ----- every shred is accounted for -----

  /** What holds of a set after any shreds: the counters, the bitmaps and the times fit together. */
  ghost predicate Tallied(st: SetState, n: nat) {
    && st.duplicated + |st.seen| == n
    && |st.invalidShreds| + st.unverifiable <= |st.seen|
    && (|st.invalidShreds| + st.unverifiable < |st.seen| <==> st.firstNs.Some?)
    && (st.firstNs.Some? <==> st.lastNs.Some?)
    && |st.arrivals| == CountOnes(st.dataPos) + CountOnes(st.codePos)
    && (st.firstNs.Some? ==> forall x | x in st.arrivals :: st.firstNs.value <= x <= st.lastNs.value)
    && (st.arrivals != [] ==> st.firstNs.Some?)
  }

  /** How many shreds of a sequence were accepted: new payload, verified. */
  function Accepted(st: SetState, xs: seq<VerifiedShred>): nat {
    if xs == [] then 0 else
    Accepted(st, xs[..|xs| - 1]) +
    if xs[|xs| - 1].payloadHash !in Fold(st, xs[..|xs| - 1]).seen && xs[|xs| - 1].Authentic() then 1 else 0
  }

  lemma EmptyTallied(leader: Option<nat>, ns: int)
    ensures Tallied(NewSet(leader, ns), 0)
  {
    EmptyCount(MAX_POSITION);
  }

  lemma {:induction false} EmptyCount(n: nat)
    ensures CountBelow(Positions.Empty, n) == 0
  {
    if n > 0 {
      EmptyCount(n - 1);
      EmptyHasNone(n - 1);
    }
  }

  lemma AcceptTallied(st: SetState, s: VerifiedShred, n: nat)
    requires st.duplicated + |st.seen| == n && |st.invalidShreds| + st.unverifiable < |st.seen|
    requires st.firstNs.Some? <==> st.lastNs.Some?
    requires |st.arrivals| == CountOnes(st.dataPos) + CountOnes(st.codePos)
    requires st.firstNs.Some? ==> forall x | x in st.arrivals :: st.firstNs.value <= x <= st.lastNs.value
    requires st.arrivals != [] ==> st.firstNs.Some?
    ensures Tallied(Accept(st, s), n)
  {
    hide Mark, CountOnes;
    MarkMembers(if s.isCode then st.codePos else st.dataPos, s.position);
  }

  lemma StepTallied(st: SetState, s: VerifiedShred, n: nat)
    requires Tallied(st, n)
    ensures Tallied(StepSet(st, s), n + 1)
  {
    hide Accept, CountOnes;
    if s.payloadHash !in st.seen && !s.Invalid() && !s.Unverifiable() {
      AcceptTallied(st.(seen := st.seen + {s.payloadHash}), s, n + 1);
    }
  }

  /**
   Over any shreds of a set, each is exactly one of duplicate, invalid, unverifiable and
   accepted, and there is one arrival per position held in the bitmaps.
   */
  lemma {:induction false} EveryShredCounted(leader: Option<nat>, ns: int, xs: seq<VerifiedShred>)
    ensures var st := Fold(NewSet(leader, ns), xs);
      && Tallied(st, |xs|)
      && |xs| == st.duplicated + |st.invalidShreds| + st.unverifiable + Accepted(NewSet(leader, ns), xs)
      && |st.arrivals| == CountOnes(st.dataPos) + CountOnes(st.codePos)
  {
    hide Tallied, Mark, CountOnes;
    if xs == [] {
      EmptyTallied(leader, ns);
    } else {
      EveryShredCounted(leader, ns, xs[..|xs| - 1]);
      StepTallied(Fold(NewSet(leader, ns), xs[..|xs| - 1]), xs[|xs| - 1], |xs| - 1);
    }
    ArrivalsOf(Fold(NewSet(leader, ns), xs), |xs|);
  }

  lemma ArrivalsOf(st: SetState, n: nat)
    requires Tallied(st, n)
    ensures |st.arrivals| == CountOnes(st.dataPos) + CountOnes(st.codePos)
  {}

  lemma {:induction false} VerdictsSum(xs: seq<InvalidShred>, slot: nat, fec: nat, truth: map<TruthKey, Hash>)
    ensures CountVerdict(xs, BadSignature, slot, fec, truth) + CountVerdict(xs, BadData, slot, fec, truth)
            + CountVerdict(xs, Unknown, slot, fec, truth) == |xs|
  {
    if xs != [] {
      VerdictsSum(xs[..|xs| - 1], slot, fec, truth);
    }
  }

  /**
   The row of any set: its three kinds of invalid shreds sum up; it has a decode time exactly
   when k positions arrived, which is the k-th smallest arrival and lies between the first
   and the last.
   */
  lemma RowLaws(key: SetKey, leader: Option<nat>, ns: int, xs: seq<VerifiedShred>, truth: map<TruthKey, Hash>)
    ensures var st := Fold(NewSet(leader, ns), xs);
      var row := Finalize(key, st, truth);
      && row.invalid == row.invalidSig + row.invalidData + row.invalidUnknown
      && (row.decodeNs.Some? <==> st.numData.Some? && 0 < st.numData.value <= row.nData + row.nCode)
      && (row.decodeNs.Some? ==>
            IsKth(st.arrivals, st.numData.value, row.decodeNs.value) && row.firstNs <= row.decodeNs.value <= row.lastNs)
      && |xs| == row.duplicated + row.invalid + row.sigUnverifiable + Accepted(NewSet(leader, ns), xs)
  {
    hide Tallied, CountOnes, Sorted, IsKth, CountVerdict;
    EveryShredCounted(leader, ns, xs);
    var st := Fold(NewSet(leader, ns), xs);
    VerdictsSum(st.invalidShreds, key.slot, key.fec, truth);
    DecodeLaws(st, |xs|);
  }

  lemma DecodeLaws(st: SetState, n: nat)
    requires Tallied(st, n)
    ensures DecodeNs(st).Some? ==>
      && st.firstNs.Some? && st.lastNs.Some?
      && IsKth(st.arrivals, st.numData.value, DecodeNs(st).value)
      && st.firstNs.value <= DecodeNs(st).value <= st.lastNs.value
  {
    if DecodeNs(st).Some? {
      SortedPicksKth(st.arrivals, st.numData.value);
    }
  }

  // ----- order does not matter -----

  /** The set without what depends on order: arrivals sorted, invalid shreds counted by verdict. */
  datatype Digest = Digest(
    seen: set<nat>,
    dataPos: set<nat>,
    codePos: set<nat>,
    numData: Option<nat>,
    firstNs: Option<int>,
    lastNs: Option<int>,
    arrivals: seq<int>,
    badSignature: nat,
    badData: nat,
    unknown: nat,
    duplicated: nat,
    unverifiable: nat,
    lastInSlot: bool)

  ghost function DigestOf(st: SetState, slot: nat, fec: nat, truth: map<TruthKey, Hash>): Digest {
    Digest(st.seen, Members(st.dataPos), Members(st.codePos), st.numData, st.firstNs, st.lastNs, Sorted(st.arrivals),
           CountVerdict(st.invalidShreds, BadSignature, slot, fec, truth),
           CountVerdict(st.invalidShreds, BadData, slot, fec, truth),
           CountVerdict(st.invalidShreds, Unknown, slot, fec, truth),
           st.duplicated, st.unverifiable, st.lastInSlot)
  }

  /** The shred's position was not marked before. */
  predicate IsNew(d: Digest, s: VerifiedShred) {
    s.position < MAX_POSITION && s.position !in if s.isCode then d.codePos else d.dataPos
  }

  ghost function AcceptDigest(d: Digest, s: VerifiedShred): Digest {
    var isNew := IsNew(d, s);
    d.(numData := if d.numData.Some? then d.numData else HeaderCount(s),
       lastInSlot := d.lastInSlot || (!s.isCode && s.lastInSlot),
       codePos := if s.isCode && isNew then d.codePos + {s.position} else d.codePos,
       dataPos := if !s.isCode && isNew then d.dataPos + {s.position} else d.dataPos,
       arrivals := if isNew then InsertSorted(d.arrivals, s.rxNs) else d.arrivals,
       firstNs := Some(if d.firstNs.Some? then Min(d.firstNs.value, s.rxNs) else s.rxNs),
       lastNs := Some(if d.lastNs.Some? then Max(d.lastNs.value, s.rxNs) else s.rxNs))
  }

  /** What a shred that was not accepted adds to the counts. */
  datatype Blame = Blame(badSignature: nat, badData: nat, unknown: nat, unverifiable: nat)

  ghost function BlameOf(s: VerifiedShred, slot: nat, fec: nat, truth: map<TruthKey, Hash>): Blame {
    if s.Invalid() then
      var v := Classify(InvalidShred(s.isCode, s.shredIndex, s.dataHash), slot, fec, truth);
      Blame(if v == BadSignature then 1 else 0, if v == BadData then 1 else 0, if v == Unknown then 1 else 0, 0)
    else Blame(0, 0, 0, 1)
  }

  function Blamed(d: Digest, b: Blame): Digest {
    d.(badSignature := d.badSignature + b.badSignature, badData := d.badData + b.badData,
       unknown := d.unknown + b.unknown, unverifiable := d.unverifiable + b.unverifiable)
  }

  /** What a shred with a new payload does, whatever was seen. */
  ghost function NewDigest(d: Digest, s: VerifiedShred, slot: nat, fec: nat, truth: map<TruthKey, Hash>): Digest {
    if s.Authentic() then AcceptDigest(d, s) else Blamed(d, BlameOf(s, slot, fec, truth))
  }

  ghost function StepDigest(d: Digest, s: VerifiedShred, slot: nat, fec: nat, truth: map<TruthKey, Hash>): Digest {
    if s.payloadHash in d.seen then d.(duplicated := d.duplicated + 1)
    else NewDigest(d, s, slot, fec, truth).(seen := d.seen + {s.payloadHash})
  }

  ghost function FoldDigest(d: Digest, xs: seq<VerifiedShred>, slot: nat, fec: nat, truth: map<TruthKey, Hash>): Digest {
    if xs == [] then d else StepDigest(FoldDigest(d, xs[..|xs| - 1], slot, fec, truth), xs[|xs| - 1], slot, fec, truth)
  }

  lemma AcceptMatches(st: SetState, s: VerifiedShred, slot: nat, fec: nat, truth: map<TruthKey, Hash>)
    ensures DigestOf(Accept(st, s), slot, fec, truth) == AcceptDigest(DigestOf(st, slot, fec, truth), s)
  {
    hide Mark, Members, InsertSorted, CountVerdict, CountOnes, HeaderCount, Min, Max;
    MarkMembers(if s.isCode then st.codePos else st.dataPos, s.position);
    AppendSorted(st.arrivals, s.rxNs);
    AlreadyThere(Members(if s.isCode then st.codePos else st.dataPos), s.position);
    hide Sorted;
  }

  lemma AppendSorted(xs: seq<int>, x: int)
    ensures Sorted(xs + [x]) == InsertSorted(Sorted(xs), x)
  {
    assert (xs + [x])[..|xs|] == xs;
  }

  lemma AlreadyThere(a: set<nat>, x: nat)
    ensures x in a ==> a + {x} == a
    ensures a + {} == a
  {}

  lemma StepMatches(st: SetState, s: VerifiedShred, slot: nat, fec: nat, truth: map<TruthKey, Hash>)
    ensures DigestOf(StepSet(st, s), slot, fec, truth) == StepDigest(DigestOf(st, slot, fec, truth), s, slot, fec, truth)
  {
    hide Accept, AcceptDigest, Members, Sorted, Classify;
    var t := st.(seen := st.seen + {s.payloadHash});
    NewSeen(DigestOf(st, slot, fec, truth), s, t.seen, slot, fec, truth);
    if s.payloadHash !in st.seen && s.Invalid() {
      var x := InvalidShred(s.isCode, s.shredIndex, s.dataHash);
      assert (t.invalidShreds + [x])[..|t.invalidShreds|] == t.invalidShreds;
    } else if s.payloadHash !in st.seen && !s.Unverifiable() {
      AcceptMatches(t, s, slot, fec, truth);
    }
  }

  lemma {:induction false} FoldMatches(st: SetState, xs: seq<VerifiedShred>, slot: nat, fec: nat, truth: map<TruthKey, Hash>)
    ensures DigestOf(Fold(st, xs), slot, fec, truth) == FoldDigest(DigestOf(st, slot, fec, truth), xs, slot, fec, truth)
  {
    hide DigestOf, StepSet, StepDigest;
    if xs != [] {
      FoldMatches(st, xs[..|xs| - 1], slot, fec, truth);
      StepMatches(Fold(st, xs[..|xs| - 1]), xs[|xs| - 1], slot, fec, truth);
    }
  }

  /** Different payloads; if both are leader-signed, different positions and no disagreement on the data count. */
  ghost predicate Compatible(x: VerifiedShred, y: VerifiedShred) {
    && x.payloadHash != y.payloadHash
    && (x.Authentic() && y.Authentic() ==>
          && (x.isCode == y.isCode ==> x.position != y.position)
          && (HeaderCount(x).Some? && HeaderCount(y).Some? ==> HeaderCount(x) == HeaderCount(y)))
  }

  lemma InsertAt(f: seq<int>, l: int, x: int)
    ensures InsertSorted(f + [l], x) == if l <= x then f + [l] + [x] else InsertSorted(f, x) + [l]
  {
    assert (f + [l])[..|f|] == f;
  }

  lemma {:induction false} InsertSortedCommutes(xs: seq<int>, x: int, y: int)
    ensures InsertSorted(InsertSorted(xs, x), y) == InsertSorted(InsertSorted(xs, y), x)
  {
    if xs == [] {
      InsertAt([], x, y);
      InsertAt([], y, x);
      assert [] + [x] == [x] && [] + [y] == [y];
    } else {
      var f, l := xs[..|xs| - 1], xs[|xs| - 1];
      assert xs == f + [l];
      InsertSortedCommutes(f, x, y);
      InsertAt(f, l, x);
      InsertAt(f, l, y);
      InsertAt(f + [l], x, y);
      InsertAt(f + [l], y, x);
      InsertAt(InsertSorted(f, x), l, y);
      InsertAt(InsertSorted(f, y), l, x);
      hide InsertSorted;
      if x == y {
      } else if l <= x && l <= y {
      } else if l <= x {
        assert InsertSorted(InsertSorted(xs, x), y) == InsertSorted(f, y) + [l] + [x];
      } else if l <= y {
        assert InsertSorted(InsertSorted(xs, y), x) == InsertSorted(f, x) + [l] + [y];
      } else {
        assert InsertSorted(InsertSorted(xs, x), y) == InsertSorted(InsertSorted(f, x), y) + [l];
      }
    }
  }

  /** Whether a position is new, after another shred of the set was marked, is as before. */
  lemma StillNew(d: Digest, x: VerifiedShred, y: VerifiedShred)
    requires Compatible(x, y) && x.Authentic() && y.Authentic()
    ensures IsNew(AcceptDigest(d, x), y) <==> IsNew(d, y)
    ensures IsNew(AcceptDigest(d, y), x) <==> IsNew(d, x)
  {
    hide InsertSorted, HeaderCount;
  }

  lemma AcceptsCommute(d: Digest, x: VerifiedShred, y: VerifiedShred)
    requires Compatible(x, y) && x.Authentic() && y.Authentic()
    ensures AcceptDigest(AcceptDigest(d, x), y) == AcceptDigest(AcceptDigest(d, y), x)
  {
    hide InsertSorted, HeaderCount, IsNew;
    StillNew(d, x, y);
    InsertSortedCommutes(d.arrivals, x.rxNs, y.rxNs);
    assert (d.dataPos + {x.position}) + {y.position} == (d.dataPos + {y.position}) + {x.position};
    assert (d.codePos + {x.position}) + {y.position} == (d.codePos + {y.position}) + {x.position};
  }

  lemma NewSeen(d: Digest, s: VerifiedShred, seen: set<nat>, slot: nat, fec: nat, truth: map<TruthKey, Hash>)
    ensures NewDigest(d.(seen := seen), s, slot, fec, truth) == NewDigest(d, s, slot, fec, truth).(seen := seen)
    ensures NewDigest(d.(duplicated := d.duplicated + 1), s, slot, fec, truth) ==
            NewDigest(d, s, slot, fec, truth).(duplicated := d.duplicated + 1)
    ensures NewDigest(d, s, slot, fec, truth).seen == d.seen
    ensures NewDigest(d, s, slot, fec, truth).duplicated == d.duplicated
  {
    hide InsertSorted, HeaderCount, Classify;
  }

  /** Accepting a shred looks at none of the counts and changes none. */
  lemma AcceptKeepsCounts(d: Digest, s: VerifiedShred, b: Blame)
    ensures AcceptDigest(Blamed(d, b), s) == Blamed(AcceptDigest(d, s), b)
  {
    hide InsertSorted, HeaderCount;
  }

  lemma BlamesCommute(d: Digest, a: Blame, b: Blame)
    ensures Blamed(Blamed(d, a), b) == Blamed(Blamed(d, b), a)
  {}

  lemma NewCommutes(d: Digest, x: VerifiedShred, y: VerifiedShred, slot: nat, fec: nat, truth: map<TruthKey, Hash>)
    requires Compatible(x, y)
    ensures NewDigest(NewDigest(d, x, slot, fec, truth), y, slot, fec, truth) ==
            NewDigest(NewDigest(d, y, slot, fec, truth), x, slot, fec, truth)
  {
    hide BlameOf, Blamed, AcceptDigest, Compatible;
    var ofX, ofY := BlameOf(x, slot, fec, truth), BlameOf(y, slot, fec, truth);
    if x.Authentic() && y.Authentic() {
      AcceptsCommute(d, x, y);
    } else if x.Authentic() {
      AcceptKeepsCounts(d, x, ofY);
    } else if y.Authentic() {
      AcceptKeepsCounts(d, y, ofX);
    } else {
      BlamesCommute(d, ofX, ofY);
    }
  }

  lemma StepsCommute(d: Digest, x: VerifiedShred, y: VerifiedShred, slot: nat, fec: nat, truth: map<TruthKey, Hash>)
    requires Compatible(x, y)
    ensures StepDigest(StepDigest(d, x, slot, fec, truth), y, slot, fec, truth) ==
            StepDigest(StepDigest(d, y, slot, fec, truth), x, slot, fec, truth)
  {
    hide NewDigest;
    var xs, ys := d.seen + {x.payloadHash}, d.seen + {y.payloadHash};
    assert xs + {y.payloadHash} == ys + {x.payloadHash};
    NewCommutes(d, x, y, slot, fec, truth);
    var dx, dy := NewDigest(d, x, slot, fec, truth), NewDigest(d, y, slot, fec, truth);
    NewSeen(d, x, xs, slot, fec, truth);
    NewSeen(d, y, ys, slot, fec, truth);
    NewSeen(dx, y, xs, slot, fec, truth);
    NewSeen(dy, x, ys, slot, fec, truth);
  }

  // ----- permutations -----

  /** Pairwise compatible shreds. */
  ghost predicate AllCompatible(xs: seq<VerifiedShred>) {
    forall i, j | 0 <= i < j < |xs| :: Compatible(xs[i], xs[j])
  }

  /** `xs` without its element `i`. */
  function Without(xs: seq<VerifiedShred>, i: nat): seq<VerifiedShred>
    requires i < |xs|
  {
    xs[..i] + xs[i + 1..]
  }

  /** A shred may as well have come last. */
  lemma {:induction false} MoveLast(d: Digest, xs: seq<VerifiedShred>, i: nat, slot: nat, fec: nat, truth: map<TruthKey, Hash>)
    requires AllCompatible(xs) && i < |xs|
    ensures FoldDigest(d, xs, slot, fec, truth) ==
            StepDigest(FoldDigest(d, Without(xs, i), slot, fec, truth), xs[i], slot, fec, truth)
    decreases |xs|
  {
    hide StepDigest, Compatible;
    var front, last := xs[..|xs| - 1], xs[|xs| - 1];
    if i == |xs| - 1 {
      assert Without(xs, i) == front;
    } else {
      MoveLast(d, front, i, slot, fec, truth);
      assert Without(xs, i)[..|xs| - 2] == Without(front, i);
      assert Without(xs, i)[|xs| - 2] == last;
      StepsCommute(FoldDigest(d, Without(front, i), slot, fec, truth), xs[i], last, slot, fec, truth);
    }
  }

  /** The same compatible shreds in any two orders give the same digest. */
  lemma {:induction false} FoldPermuted(d: Digest, xs: seq<VerifiedShred>, ys: seq<VerifiedShred>, slot: nat, fec: nat, truth: map<TruthKey, Hash>)
    requires AllCompatible(xs) && AllCompatible(ys) && forall x :: x in xs <==> x in ys
    ensures FoldDigest(d, xs, slot, fec, truth) == FoldDigest(d, ys, slot, fec, truth)
  {
    assert |xs| > 0 ==> xs[0] in ys;
    if ys != [] {
      var y, g := ys[|ys| - 1], ys[..|ys| - 1];
      assert y in xs;
      var i :| 0 <= i < |xs| && xs[i] == y;
      var f := Without(xs, i);
      MoveLast(d, xs, i, slot, fec, truth);
      hide StepDigest;
      forall x ensures x in f <==> x in xs && x != y {
        WithoutMembers(xs, i, x);
      }
      forall x ensures x in g <==> x in ys && x != y {
        WithoutMembers(ys, |ys| - 1, x);
        assert Without(ys, |ys| - 1) == g;
      }
      hide Compatible;
      assert AllCompatible(f);
      FoldPermuted(d, f, g, slot, fec, truth);
    }
  }

  lemma WithoutMembers(xs: seq<VerifiedShred>, i: nat, x: VerifiedShred)
    requires AllCompatible(xs) && i < |xs|
    ensures x in Without(xs, i) <==> x in xs && x != xs[i]
  {
    if x in xs && x != xs[i] {
      var j :| 0 <= j < |xs| && xs[j] == x;
      assert Without(xs, i)[if j < i then j else j - 1] == x;
    }
    if x in Without(xs, i) {
      var j :| 0 <= j < |xs| - 1 && Without(xs, i)[j] == x;
      var k := if j < i then j else j + 1;
      assert xs[k] == x;
      assert if k < i then Compatible(xs[k], xs[i]) else Compatible(xs[i], xs[k]);
    }
  }

  /** What a row says apart from who is to blame for its size: everything but expected, missed, leader and the fallback time. */
  ghost predicate SameFindings(a: SetRow, b: SetRow) {
    && a.nData == b.nData && a.nCode == b.nCode && a.decodeNs == b.decodeNs
    && a.invalid == b.invalid && a.invalidSig == b.invalidSig && a.invalidData == b.invalidData && a.invalidUnknown == b.invalidUnknown
    && a.duplicated == b.duplicated && a.sigUnverifiable == b.sigUnverifiable
    && a.isValid == b.isValid && a.lastInSlot == b.lastInSlot
  }

  lemma SameDigestSameRow(key: SetKey, a: SetState, b: SetState, truth: map<TruthKey, Hash>)
    requires DigestOf(a, key.slot, key.fec, truth) == DigestOf(b, key.slot, key.fec, truth)
    ensures SameFindings(Finalize(key, a, truth), Finalize(key, b, truth))
    ensures a.firstNs == b.firstNs && a.lastNs == b.lastNs
  {
    OnesAreMembers(a.dataPos);
    OnesAreMembers(b.dataPos);
    OnesAreMembers(a.codePos);
    OnesAreMembers(b.codePos);
    VerdictsSum(a.invalidShreds, key.slot, key.fec, truth);
    VerdictsSum(b.invalidShreds, key.slot, key.fec, truth);
    hide CountOnes, Members, CountVerdict;
    assert |Sorted(a.arrivals)| == |a.arrivals| && |Sorted(b.arrivals)| == |b.arrivals|;
    hide Sorted;
  }

  /**
   The same distinct shreds of a set in two orders, judged against the same truth: the rows
   agree on positions, decode time, validity and every count, and, once a shred was accepted,
   on the first and last arrival.
   */
  lemma RowIgnoresOrder(key: SetKey, xs: seq<VerifiedShred>, ys: seq<VerifiedShred>,
                        l1: Option<nat>, ns1: int, l2: Option<nat>, ns2: int, truth: map<TruthKey, Hash>)
    requires AllCompatible(xs) && AllCompatible(ys) && forall x :: x in xs <==> x in ys
    ensures var a, b := Fold(NewSet(l1, ns1), xs), Fold(NewSet(l2, ns2), ys);
      && SameFindings(Finalize(key, a, truth), Finalize(key, b, truth))
      && a.firstNs == b.firstNs && a.lastNs == b.lastNs
      && (a.firstNs.Some? ==>
            && Finalize(key, a, truth).firstNs == Finalize(key, b, truth).firstNs
            && Finalize(key, a, truth).lastNs == Finalize(key, b, truth).lastNs)
  {
    var slot, fec := key.slot, key.fec;
    FoldMatches(NewSet(l1, ns1), xs, slot, fec, truth);
    FoldMatches(NewSet(l2, ns2), ys, slot, fec, truth);
    FoldPermuted(DigestOf(NewSet(l1, ns1), slot, fec, truth), xs, ys, slot, fec, truth);
    EveryShredCounted(l1, ns1, xs);
    var a, b := Fold(NewSet(l1, ns1), xs), Fold(NewSet(l2, ns2), ys);
    SameDigestSameRow(key, a, b, truth);
    hide Fold, DigestOf, CountOnes, Sorted, CountVerdict;
  }

  // ----- what does depend on order -----

  /** A shred that reveals the data count, leader-signed. */
  predicate Reveals(s: VerifiedShred) { s.Authentic() && HeaderCount(s).Some? }

  ghost predicate AnyReveals(xs: seq<VerifiedShred>) {
    exists i :: 0 <= i < |xs| && Reveals(xs[i])
  }

  /** The first shred of `xs` that reveals the data count is a coding shred. */
  ghost predicate CodingRevealsFirst(xs: seq<VerifiedShred>) {
    exists i :: 0 <= i < |xs| && Reveals(xs[i]) && xs[i].isCode && forall j | 0 <= j < i :: !Reveals(xs[j])
  }

  ghost predicate HasPayload(xs: seq<VerifiedShred>, hash: nat) {
    exists i :: 0 <= i < |xs| && xs[i].payloadHash == hash
  }

  /**
   The size of a set, and with it the number of missed shreds, is known exactly when a coding
   shred was the first to reveal the data count: a data-complete shred that comes first fixes
   the data count and leaves the coding count open for good.
   */
  lemma {:induction false} ExpectedTotalNeedsCodingFirst(leader: Option<nat>, ns: int, xs: seq<VerifiedShred>)
    requires forall i, j | 0 <= i < j < |xs| :: xs[i].payloadHash != xs[j].payloadHash
    requires forall i | 0 <= i < |xs| :: xs[i].isCode ==> xs[i].numData.Some? && xs[i].numCoding.Some?
    ensures var st := Fold(NewSet(leader, ns), xs);
      && (ExpectedTotal(st).Some? <==> CodingRevealsFirst(xs))
      && (st.numData.Some? <==> AnyReveals(xs))
      && (st.numData.None? ==> st.numCoding.None?)
      && (forall h :: h in st.seen <==> HasPayload(xs, h))
  {
    hide StepSet, HeaderCount, CodingRevealsFirst, AnyReveals, HasPayload;
    if xs == [] {
      NothingRevealed();
    } else {
      var front, x := xs[..|xs| - 1], xs[|xs| - 1];
      ExpectedTotalNeedsCodingFirst(leader, ns, front);
      NewPayload(xs);
      StepHeader(Fold(NewSet(leader, ns), front), x);
      FirstRevealed(front, x);
      assert xs == front + [x];
    }
  }

  lemma NothingRevealed()
    ensures !AnyReveals([]) && !CodingRevealsFirst([]) && forall h :: !HasPayload([], h)
  {}

  lemma NewPayload(xs: seq<VerifiedShred>)
    requires |xs| > 0 && forall i, j | 0 <= i < j < |xs| :: xs[i].payloadHash != xs[j].payloadHash
    ensures !HasPayload(xs[..|xs| - 1], xs[|xs| - 1].payloadHash)
  {}

  lemma FirstRevealed(front: seq<VerifiedShred>, x: VerifiedShred)
    ensures AnyReveals(front + [x]) <==> AnyReveals(front) || Reveals(x)
    ensures CodingRevealsFirst(front + [x]) <==> CodingRevealsFirst(front) || (Reveals(x) && x.isCode && !AnyReveals(front))
    ensures CodingRevealsFirst(front) ==> AnyReveals(front)
    ensures forall h :: HasPayload(front + [x], h) <==> HasPayload(front, h) || x.payloadHash == h
  {
    hide Reveals;
    var xs := front + [x];
    assert forall i | 0 <= i < |front| :: front[i] == xs[i];
    assert xs[|front|] == x;
    if CodingRevealsFirst(front) {
      var i :| 0 <= i < |front| && Reveals(front[i]) && front[i].isCode && forall j | 0 <= j < i :: !Reveals(front[j]);
      assert Reveals(xs[i]);
    }
    if CodingRevealsFirst(xs) {
      var i :| 0 <= i < |xs| && Reveals(xs[i]) && xs[i].isCode && forall j | 0 <= j < i :: !Reveals(xs[j]);
      assert i < |front| ==> Reveals(front[i]);
    }
    if i :| 0 <= i < |front| && Reveals(front[i]) {
      assert Reveals(xs[i]);
    }
    forall h | HasPayload(front, h) ensures HasPayload(xs, h) {
      var i :| 0 <= i < |front| && front[i].payloadHash == h;
      assert xs[i].payloadHash == h;
    }
  }

  /** What a new shred does to the counts a set knows. */
  lemma StepHeader(st: SetState, s: VerifiedShred)
    requires s.payloadHash !in st.seen
    requires s.isCode ==> s.numData.Some? && s.numCoding.Some?
    ensures var t := StepSet(st, s);
      && t.seen == st.seen + {s.payloadHash}
      && t.numData == (if st.numData.None? && Reveals(s) then HeaderCount(s) else st.numData)
      && t.numCoding == (if st.numData.None? && Reveals(s) && s.isCode then s.numCoding else st.numCoding)
  {
    hide Mark;
  }

  /** The last data shred of a set of one, and the set's only coding shred, both leader-signed. */
  const LAST_DATA := VerifiedShred(0, 10, 7, 0, 0, false, 0, false, true, None, None, None, Some(true), true, 1, None)
  const CODING := VerifiedShred(0, 20, 7, 0, 0, true, 0, false, false, Some(1), Some(1), None, Some(true), true, 2, None)

  /** The same two shreds in two orders: only when the coding shred comes first is the total known. */
  lemma ExpectedTotalDependsOnOrder()
    ensures Compatible(LAST_DATA, CODING)
    ensures ExpectedTotal(Fold(NewSet(None, 0), [CODING, LAST_DATA])).Some?
    ensures ExpectedTotal(Fold(NewSet(None, 0), [LAST_DATA, CODING])) == None
  {
    BothCompatible();
    hide Compatible, Fold, ExpectedTotal, CodingRevealsFirst;
    CodingKnown();
    var xs, ys := [CODING, LAST_DATA], [LAST_DATA, CODING];
    assert xs[0] == CODING && xs[1] == LAST_DATA && ys[0] == LAST_DATA && ys[1] == CODING;
    ExpectedTotalNeedsCodingFirst(None, 0, xs);
    ExpectedTotalNeedsCodingFirst(None, 0, ys);
    WhoComesFirst(CODING, LAST_DATA);
    WhoComesFirst(LAST_DATA, CODING);
  }

  lemma BothCompatible()
    ensures Compatible(LAST_DATA, CODING)
  {}

  lemma CodingKnown()
    ensures Reveals(CODING) && CODING.isCode && Reveals(LAST_DATA) && !LAST_DATA.isCode
  {}

  /** Of two shreds the first decides if it reveals the data count. */
  lemma WhoComesFirst(x: VerifiedShred, y: VerifiedShred)
    requires Reveals(x)
    ensures CodingRevealsFirst([x, y]) <==> x.isCode
  {
    hide Reveals;
    var xs := [x, y];
    assert xs[0] == x;
    if x.isCode {
      assert Reveals(xs[0]) && xs[0].isCode;
    }
  }
}
