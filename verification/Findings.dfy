/**
 What the row of a FEC set says about the shreds that came for it, by the shreds alone: which
 are repeats, which failed and against which truth, which positions arrived, and when.
 */
module Findings {
  import opened Common
  import opened Options
  import opened Positions
  import opened AggSpec
  import opened SetOrder

  /** A test of a shred by the shreds of its set that came before it. */
  type Test = (seq<VerifiedShred>, VerifiedShred) -> bool

  /** Where in `xs` the shreds are that pass the test. */
  ghost function Those(xs: seq<VerifiedShred>, p: Test): (r: set<nat>)
    ensures forall i: nat :: i in r <==> i < |xs| && p(xs[..i], xs[i])
  {
    set i: nat | i < |xs| && p(xs[..i], xs[i])
  }

  lemma ThoseMore(xs: seq<VerifiedShred>, x: VerifiedShred, p: Test)
    ensures Those(xs + [x], p) == Those(xs, p) + if p(xs, x) then {|xs|} else {}
    ensures |Those(xs + [x], p)| == |Those(xs, p)| + if p(xs, x) then 1 else 0
  {
    var ys := xs + [x];
    assert forall i: nat | i < |xs| :: ys[..i] == xs[..i];
    assert ys[..|xs|] == xs;
    assert Those(ys, p) == Those(xs, p) + if p(xs, x) then {|xs|} else {};
  }

  // ----- the tests -----

  /** No shred before had this payload. */
  predicate IsFirst(before: seq<VerifiedShred>, x: VerifiedShred) {
    forall i | 0 <= i < |before| :: before[i].payloadHash != x.payloadHash
  }

  predicate Repeat(before: seq<VerifiedShred>, x: VerifiedShred) { !IsFirst(before, x) }

  /** A first copy whose proof or whose signature is wrong. */
  predicate Failed(before: seq<VerifiedShred>, x: VerifiedShred) {
    IsFirst(before, x) && (!x.merkleOk || x.sigOk == Some(false))
  }

  /** A first copy that nobody could check. */
  predicate Unsure(before: seq<VerifiedShred>, x: VerifiedShred) {
    IsFirst(before, x) && x.merkleOk && x.sigOk == None
  }

  /** A first copy, signed by the leader. */
  predicate Good(before: seq<VerifiedShred>, x: VerifiedShred) {
    IsFirst(before, x) && x.merkleOk && x.sigOk == Some(true)
  }

  /** The failed shred carries the data of the leader-signed copy: only its signature is bad. */
  function DataRight(slot: nat, fec: nat, truth: map<TruthKey, Hash>): Test {
    (before: seq<VerifiedShred>, x: VerifiedShred) =>
      Failed(before, x) && x.dataHash.Some? && TruthKey(slot, fec, x.isCode, x.shredIndex) in truth
      && x.dataHash.value == truth[TruthKey(slot, fec, x.isCode, x.shredIndex)]
  }

  /** It carries other data. */
  function DataWrong(slot: nat, fec: nat, truth: map<TruthKey, Hash>): Test {
    (before: seq<VerifiedShred>, x: VerifiedShred) =>
      Failed(before, x) && x.dataHash.Some? && TruthKey(slot, fec, x.isCode, x.shredIndex) in truth
      && x.dataHash.value != truth[TruthKey(slot, fec, x.isCode, x.shredIndex)]
  }

  /** Nothing is known to compare it with. */
  function DataUnknown(slot: nat, fec: nat, truth: map<TruthKey, Hash>): Test {
    (before: seq<VerifiedShred>, x: VerifiedShred) =>
      Failed(before, x) && (x.dataHash == None || TruthKey(slot, fec, x.isCode, x.shredIndex) !in truth)
  }

  /** A good shred of a position the bitmap has, of which no good one came before. */
  predicate NewPosition(before: seq<VerifiedShred>, x: VerifiedShred) {
    && Good(before, x) && x.position < MAX_POSITION
    && forall i | 0 <= i < |before| && Good(before[..i], before[i]) && before[i].isCode == x.isCode ::
         before[i].position != x.position
  }

  /** A good shred that says how many data shreds the set has. */
  predicate Tells(before: seq<VerifiedShred>, x: VerifiedShred) {
    Good(before, x) && (if x.isCode then x.numData.Some? else x.dataComplete)
  }

  function Told(x: VerifiedShred): nat {
    if x.isCode then x.numData.GetOr(0) else (x.position + 1) % 0x1_0000
  }

  predicate LastOfSlot(before: seq<VerifiedShred>, x: VerifiedShred) {
    Good(before, x) && !x.isCode && x.lastInSlot
  }

  /** The positions of the good data or coding shreds. */
  ghost function GoodPositions(xs: seq<VerifiedShred>, isCode: bool): (r: set<nat>)
    ensures forall p: nat :: p in r <==>
      exists i :: i in Those(xs, Good) && xs[i].isCode == isCode && xs[i].position == p && p < MAX_POSITION
  {
    set i | i in Those(xs, Good) && xs[i].isCode == isCode && xs[i].position < MAX_POSITION :: xs[i].position
  }

  // ----- what the set holds -----

  lemma {:induction false} SeenHashes(leader: Option<nat>, ns: int, xs: seq<VerifiedShred>)
    ensures forall h :: h in Fold(NewSet(leader, ns), xs).seen <==> exists i :: 0 <= i < |xs| && xs[i].payloadHash == h
  {
    if xs != [] {
      hide Accept;
      var front, x := xs[..|xs| - 1], xs[|xs| - 1];
      SeenHashes(leader, ns, front);
      StepSeen(Fold(NewSet(leader, ns), front), x);
      assert xs == front + [x];
    }
  }

  lemma StepSeen(st: SetState, x: VerifiedShred)
    ensures StepSet(st, x).seen == st.seen + {x.payloadHash}
  {}

  lemma NewToSet(leader: Option<nat>, ns: int, xs: seq<VerifiedShred>, x: VerifiedShred)
    ensures x.payloadHash !in Fold(NewSet(leader, ns), xs).seen <==> IsFirst(xs, x)
  {
    SeenHashes(leader, ns, xs);
  }

  /** The counts of shreds that were not accepted. */
  ghost predicate CountsMean(st: SetState, xs: seq<VerifiedShred>, slot: nat, fec: nat, truth: map<TruthKey, Hash>) {
    && st.duplicated == |Those(xs, Repeat)|
    && st.unverifiable == |Those(xs, Unsure)|
    && |st.invalidShreds| == |Those(xs, Failed)|
    && CountVerdict(st.invalidShreds, BadSignature, slot, fec, truth) == |Those(xs, DataRight(slot, fec, truth))|
    && CountVerdict(st.invalidShreds, BadData, slot, fec, truth) == |Those(xs, DataWrong(slot, fec, truth))|
    && CountVerdict(st.invalidShreds, Unknown, slot, fec, truth) == |Those(xs, DataUnknown(slot, fec, truth))|
  }

  lemma AcceptKeepsCounts(st: SetState, x: VerifiedShred)
    ensures var t := Accept(st, x);
      t.duplicated == st.duplicated && t.unverifiable == st.unverifiable && t.invalidShreds == st.invalidShreds
  {}

  lemma VerdictMore(bad: seq<InvalidShred>, b: InvalidShred, slot: nat, fec: nat, truth: map<TruthKey, Hash>)
    ensures forall v :: CountVerdict(bad + [b], v, slot, fec, truth) ==
                        CountVerdict(bad, v, slot, fec, truth) + if Classify(b, slot, fec, truth) == v then 1 else 0
  {
    assert (bad + [b])[..|bad|] == bad;
  }

  /** The verdict on a failed shred is what the tests say. */
  lemma VerdictMeans(xs: seq<VerifiedShred>, x: VerifiedShred, slot: nat, fec: nat, truth: map<TruthKey, Hash>)
    ensures var v := Classify(InvalidShred(x.isCode, x.shredIndex, x.dataHash), slot, fec, truth);
      && (DataRight(slot, fec, truth)(xs, x) <==> Failed(xs, x) && v == BadSignature)
      && (DataWrong(slot, fec, truth)(xs, x) <==> Failed(xs, x) && v == BadData)
      && (DataUnknown(slot, fec, truth)(xs, x) <==> Failed(xs, x) && v == Unknown)
  {
    hide IsFirst;
  }

  /** Each shred is a repeat, failed, unsure or good. */
  lemma Kinds(st: SetState, xs: seq<VerifiedShred>, x: VerifiedShred)
    requires x.payloadHash !in st.seen <==> IsFirst(xs, x)
    ensures var t, u := StepSet(st, x), st.(seen := st.seen + {x.payloadHash});
      && t == (if Repeat(xs, x) then st.(duplicated := st.duplicated + 1)
               else if Failed(xs, x) then u.(invalidShreds := u.invalidShreds + [InvalidShred(x.isCode, x.shredIndex, x.dataHash)])
               else if Unsure(xs, x) then u.(unverifiable := u.unverifiable + 1)
               else Accept(u, x))
      && (Failed(xs, x) || Unsure(xs, x) || Good(xs, x) <==> !Repeat(xs, x))
      && !(Failed(xs, x) && Unsure(xs, x)) && !(Failed(xs, x) && Good(xs, x)) && !(Unsure(xs, x) && Good(xs, x))
  {
    hide Accept, IsFirst;
  }

  lemma StepCounts(st: SetState, xs: seq<VerifiedShred>, x: VerifiedShred, slot: nat, fec: nat, truth: map<TruthKey, Hash>)
    requires CountsMean(st, xs, slot, fec, truth) && (x.payloadHash !in st.seen <==> IsFirst(xs, x))
    ensures CountsMean(StepSet(st, x), xs + [x], slot, fec, truth)
  {
    hide Accept, CountVerdict, IsFirst, Those, StepSet, Classify, Failed, Unsure, Repeat, Good, DataRight, DataWrong, DataUnknown;
    ThoseMore(xs, x, Repeat);
    ThoseMore(xs, x, Unsure);
    ThoseMore(xs, x, Failed);
    ThoseMore(xs, x, DataRight(slot, fec, truth));
    ThoseMore(xs, x, DataWrong(slot, fec, truth));
    ThoseMore(xs, x, DataUnknown(slot, fec, truth));
    VerdictMore(st.invalidShreds, InvalidShred(x.isCode, x.shredIndex, x.dataHash), slot, fec, truth);
    VerdictMeans(xs, x, slot, fec, truth);
    Kinds(st, xs, x);
    AcceptKeepsCounts(st.(seen := st.seen + {x.payloadHash}), x);
  }

  lemma {:induction false} FoldCounts(leader: Option<nat>, ns: int, xs: seq<VerifiedShred>, slot: nat, fec: nat, truth: map<TruthKey, Hash>)
    ensures CountsMean(Fold(NewSet(leader, ns), xs), xs, slot, fec, truth)
  {
    if xs != [] {
      hide StepSet, CountsMean;
      var front, x := xs[..|xs| - 1], xs[|xs| - 1];
      assert xs == front + [x];
      FoldCounts(leader, ns, front, slot, fec, truth);
      NewToSet(leader, ns, front, x);
      StepCounts(Fold(NewSet(leader, ns), front), front, x, slot, fec, truth);
    }
  }

  // ----- positions -----

  ghost predicate PositionsMean(st: SetState, xs: seq<VerifiedShred>) {
    && Members(st.dataPos) == GoodPositions(xs, false)
    && Members(st.codePos) == GoodPositions(xs, true)
    && (st.lastInSlot <==> Those(xs, LastOfSlot) != {})
  }

  /** The same shreds, and perhaps one more. */
  lemma ThoseStay(xs: seq<VerifiedShred>, x: VerifiedShred, p: Test)
    ensures forall i | i in Those(xs, p) :: i < |xs| && (xs + [x])[i] == xs[i] && i in Those(xs + [x], p)
    ensures forall i | i in Those(xs + [x], p) :: i in Those(xs, p) || (i == |xs| && p(xs, x))
    ensures p(xs, x) ==> |xs| in Those(xs + [x], p) && (xs + [x])[|xs|] == x
  {
    ThoseMore(xs, x, p);
  }

  lemma PositionsMore(xs: seq<VerifiedShred>, x: VerifiedShred, isCode: bool)
    ensures GoodPositions(xs + [x], isCode) == GoodPositions(xs, isCode) +
            if Good(xs, x) && x.isCode == isCode && x.position < MAX_POSITION then {x.position} else {}
  {
    ThoseStay(xs, x, Good);
    hide Good, Those;
    var all := xs + [x];
    forall p: nat | p in GoodPositions(xs, isCode) ensures p in GoodPositions(all, isCode) {
      var i :| i in Those(xs, Good) && xs[i].isCode == isCode && xs[i].position == p && p < MAX_POSITION;
      assert i in Those(all, Good);
    }
    forall p: nat | p in GoodPositions(all, isCode)
      ensures p in GoodPositions(xs, isCode) || (Good(xs, x) && x.isCode == isCode && p == x.position)
    {
      var i :| i in Those(all, Good) && all[i].isCode == isCode && all[i].position == p && p < MAX_POSITION;
      assert i in Those(xs, Good) || i == |xs|;
    }
  }

  /** A position is new exactly when no good shred had it. */
  lemma NewIsFree(xs: seq<VerifiedShred>, x: VerifiedShred)
    ensures NewPosition(xs, x) <==> Good(xs, x) && x.position < MAX_POSITION && x.position !in GoodPositions(xs, x.isCode)
  {
    hide Good;
    assert forall i: nat | i < |xs| && Good(xs[..i], xs[i]) :: i in Those(xs, Good);
  }

  lemma AcceptMeans(st: SetState, x: VerifiedShred)
    ensures var t := Accept(st, x);
      var isNew := x.position < MAX_POSITION && x.position !in Members(if x.isCode then st.codePos else st.dataPos);
      var more := if x.position < MAX_POSITION then {x.position} else {};
      && Members(t.dataPos) == Members(st.dataPos) + (if x.isCode then {} else more)
      && Members(t.codePos) == Members(st.codePos) + (if x.isCode then more else {})
      && t.lastInSlot == (st.lastInSlot || (!x.isCode && x.lastInSlot))
      && t.arrivals == st.arrivals + (if isNew then [x.rxNs] else [])
  {
    hide Mark, Members, HeaderCount;
    MarkMembers(if x.isCode then st.codePos else st.dataPos, x.position);
    assert st.arrivals + [] == st.arrivals;
  }

  lemma OtherPositions(st: SetState, xs: seq<VerifiedShred>, x: VerifiedShred)
    requires x.payloadHash !in st.seen <==> IsFirst(xs, x)
    requires !Good(xs, x)
    ensures var t := StepSet(st, x);
      && t.dataPos == st.dataPos && t.codePos == st.codePos && t.lastInSlot == st.lastInSlot && t.arrivals == st.arrivals
      && t.firstNs == st.firstNs && t.lastNs == st.lastNs && t.numData == st.numData && t.numCoding == st.numCoding
  {
    hide Accept, IsFirst;
    Kinds(st, xs, x);
  }

  lemma GoodAccepted(st: SetState, xs: seq<VerifiedShred>, x: VerifiedShred)
    requires x.payloadHash !in st.seen <==> IsFirst(xs, x)
    requires Good(xs, x)
    ensures StepSet(st, x) == Accept(st.(seen := st.seen + {x.payloadHash}), x)
  {
    hide Accept, IsFirst;
    Kinds(st, xs, x);
  }

  lemma LastMeans(xs: seq<VerifiedShred>, x: VerifiedShred)
    ensures LastOfSlot(xs, x) <==> Good(xs, x) && !x.isCode && x.lastInSlot
  {
    hide Good;
  }

  lemma StepPositions(st: SetState, xs: seq<VerifiedShred>, x: VerifiedShred)
    requires PositionsMean(st, xs) && (x.payloadHash !in st.seen <==> IsFirst(xs, x))
    ensures PositionsMean(StepSet(st, x), xs + [x])
  {
    hide Accept, IsFirst, Those, StepSet, Good, Members, GoodPositions, LastOfSlot;
    PositionsMore(xs, x, false);
    PositionsMore(xs, x, true);
    ThoseMore(xs, x, LastOfSlot);
    LastMeans(xs, x);
    if Good(xs, x) {
      GoodAccepted(st, xs, x);
      AcceptMeans(st.(seen := st.seen + {x.payloadHash}), x);
    } else {
      OtherPositions(st, xs, x);
    }
  }

  lemma EmptyPositions(leader: Option<nat>, ns: int)
    ensures PositionsMean(NewSet(leader, ns), [])
  {
    forall i: nat ensures i !in Members(Positions.Empty) {
      EmptyHasNone(i);
    }
    assert Those([], Good) == {};
  }

  lemma {:induction false} FoldPositions(leader: Option<nat>, ns: int, xs: seq<VerifiedShred>)
    ensures PositionsMean(Fold(NewSet(leader, ns), xs), xs)
  {
    hide StepSet, PositionsMean;
    if xs == [] {
      EmptyPositions(leader, ns);
    } else {
      var front, x := xs[..|xs| - 1], xs[|xs| - 1];
      assert xs == front + [x];
      FoldPositions(leader, ns, front);
      NewToSet(leader, ns, front, x);
      StepPositions(Fold(NewSet(leader, ns), front), front, x);
    }
  }

  // ----- times -----

  /** A new position before `v`, or not after it. */
  function ArrivedBy(below: bool, v: int): Test {
    (before: seq<VerifiedShred>, x: VerifiedShred) => NewPosition(before, x) && (x.rxNs < v || (!below && x.rxNs == v))
  }

  function ArrivedAt(v: int): Test {
    (before: seq<VerifiedShred>, x: VerifiedShred) => NewPosition(before, x) && x.rxNs == v
  }

  /** The arrivals are the times of the new positions. */
  ghost predicate ArrivalsMean(st: SetState, xs: seq<VerifiedShred>) {
    && |st.arrivals| == |Those(xs, NewPosition)|
    && (forall below, v :: CountIf(st.arrivals, below, v) == |Those(xs, ArrivedBy(below, v))|)
    && (forall v :: v in st.arrivals <==> Those(xs, ArrivedAt(v)) != {})
  }

  lemma CountMore(ns: seq<int>, n: int)
    ensures forall below, v :: CountIf(ns + [n], below, v) == CountIf(ns, below, v) + Counts(n, below, v)
    ensures forall v :: v in ns + [n] <==> v in ns || v == n
  {
    assert (ns + [n])[..|ns|] == ns;
  }

  lemma ArrivalsStep(st: SetState, xs: seq<VerifiedShred>, x: VerifiedShred)
    requires PositionsMean(st, xs) && (x.payloadHash !in st.seen <==> IsFirst(xs, x))
    ensures StepSet(st, x).arrivals == if NewPosition(xs, x) then st.arrivals + [x.rxNs] else st.arrivals
  {
    hide Accept, IsFirst, Those, StepSet, Good, Members, GoodPositions, NewPosition;
    NewIsFree(xs, x);
    if Good(xs, x) {
      GoodAccepted(st, xs, x);
      AcceptMeans(st.(seen := st.seen + {x.payloadHash}), x);
    } else {
      OtherPositions(st, xs, x);
    }
  }

  lemma StepArrivals(st: SetState, xs: seq<VerifiedShred>, x: VerifiedShred)
    requires ArrivalsMean(st, xs) && PositionsMean(st, xs) && (x.payloadHash !in st.seen <==> IsFirst(xs, x))
    ensures ArrivalsMean(StepSet(st, x), xs + [x])
  {
    hide IsFirst, Those, StepSet, PositionsMean, NewPosition, CountIf;
    var t := StepSet(st, x);
    ThoseMore(xs, x, NewPosition);
    CountMore(st.arrivals, x.rxNs);
    ArrivalsStep(st, xs, x);
    forall below, v ensures CountIf(t.arrivals, below, v) == |Those(xs + [x], ArrivedBy(below, v))| {
      ThoseMore(xs, x, ArrivedBy(below, v));
    }
    forall v ensures v in t.arrivals <==> Those(xs + [x], ArrivedAt(v)) != {} {
      ThoseMore(xs, x, ArrivedAt(v));
    }
  }

  lemma {:induction false} FoldArrivals(leader: Option<nat>, ns: int, xs: seq<VerifiedShred>)
    ensures ArrivalsMean(Fold(NewSet(leader, ns), xs), xs)
  {
    if xs != [] {
      hide StepSet, PositionsMean, ArrivalsMean;
      var front, x := xs[..|xs| - 1], xs[|xs| - 1];
      assert xs == front + [x];
      FoldArrivals(leader, ns, front);
      FoldPositions(leader, ns, front);
      NewToSet(leader, ns, front, x);
      StepArrivals(Fold(NewSet(leader, ns), front), front, x);
    }
  }

  /** First and last arrival are the earliest and latest good shred. */
  ghost predicate TimesMean(st: SetState, xs: seq<VerifiedShred>) {
    && (st.firstNs.Some? <==> Those(xs, Good) != {}) && (st.lastNs.Some? <==> Those(xs, Good) != {})
    && (forall i | i in Those(xs, Good) :: st.firstNs.value <= xs[i].rxNs <= st.lastNs.value)
    && (Those(xs, Good) != {} ==>
          && (exists i :: i in Those(xs, Good) && xs[i].rxNs == st.firstNs.value)
          && (exists i :: i in Those(xs, Good) && xs[i].rxNs == st.lastNs.value))
  }

  lemma AcceptTimes(st: SetState, x: VerifiedShred)
    ensures var t := Accept(st, x);
      && t.firstNs == Some(if st.firstNs.Some? && st.firstNs.value < x.rxNs then st.firstNs.value else x.rxNs)
      && t.lastNs == Some(if st.lastNs.Some? && st.lastNs.value > x.rxNs then st.lastNs.value else x.rxNs)
  {
    hide Mark, HeaderCount;
  }

  lemma StepTimes(st: SetState, xs: seq<VerifiedShred>, x: VerifiedShred)
    requires TimesMean(st, xs) && (x.payloadHash !in st.seen <==> IsFirst(xs, x))
    ensures TimesMean(StepSet(st, x), xs + [x])
  {
    hide Accept, IsFirst, StepSet, Good;
    var all, t := xs + [x], StepSet(st, x);
    ThoseMore(xs, x, Good);
    forall i | i in Those(xs, Good) ensures i < |xs| && i in Those(all, Good) && all[i] == xs[i] {
    }
    hide Those;
    if Good(xs, x) {
      GoodAccepted(st, xs, x);
      AcceptTimes(st.(seen := st.seen + {x.payloadHash}), x);
      assert |xs| in Those(all, Good) && all[|xs|] == x;
    } else {
      OtherPositions(st, xs, x);
    }
  }

  lemma {:induction false} FoldTimes(leader: Option<nat>, ns: int, xs: seq<VerifiedShred>)
    ensures TimesMean(Fold(NewSet(leader, ns), xs), xs)
  {
    if xs != [] {
      hide StepSet, TimesMean;
      var front, x := xs[..|xs| - 1], xs[|xs| - 1];
      assert xs == front + [x];
      FoldTimes(leader, ns, front);
      NewToSet(leader, ns, front, x);
      StepTimes(Fold(NewSet(leader, ns), front), front, x);
    }
  }

  // ----- the data count -----

  /** The shred at `i` was the first to tell the data count. */
  ghost predicate FirstTells(xs: seq<VerifiedShred>, i: nat) {
    i in Those(xs, Tells) && forall j | j in Those(xs, Tells) :: i <= j
  }

  /** The data count is the one told first; the coding count the one told with it. */
  ghost predicate CountMeans(st: SetState, xs: seq<VerifiedShred>) {
    && (st.numData.Some? <==> Those(xs, Tells) != {})
    && (forall i: nat | FirstTells(xs, i) ::
          && st.numData == Some(Told(xs[i]))
          && st.numCoding == if xs[i].isCode then xs[i].numCoding else None)
    && (Those(xs, Tells) == {} ==> st.numCoding == None)
  }

  lemma AcceptCount(st: SetState, x: VerifiedShred)
    requires x.isCode ==> x.numData.Some?
    ensures var t, tells := Accept(st, x), if x.isCode then x.numData.Some? else x.dataComplete;
      && t.numData == (if st.numData.None? && tells then Some(Told(x)) else st.numData)
      && t.numCoding == (if st.numData.None? && x.isCode then x.numCoding else st.numCoding)
  {
    hide Mark;
  }

  /** Who told first stays who told first; the next one may be it if there was none. */
  lemma FirstTellsMore(xs: seq<VerifiedShred>, x: VerifiedShred)
    ensures Those(xs, Tells) != {} ==> forall i: nat :: FirstTells(xs + [x], i) <==> FirstTells(xs, i)
    ensures Those(xs, Tells) == {} ==> forall i: nat :: FirstTells(xs + [x], i) <==> Tells(xs, x) && i == |xs|
    ensures forall i: nat | FirstTells(xs, i) :: i < |xs| && (xs + [x])[i] == xs[i]
  {
    ThoseStay(xs, x, Tells);
    hide Those, Tells;
    assert Those(xs, Tells) != {} ==> exists j :: j in Those(xs, Tells);
  }

  lemma CountStep(st: SetState, xs: seq<VerifiedShred>, x: VerifiedShred)
    requires (x.payloadHash !in st.seen <==> IsFirst(xs, x)) && (x.isCode ==> x.numData.Some?)
    ensures var t := StepSet(st, x);
      && t.numData == (if st.numData.None? && Tells(xs, x) then Some(Told(x)) else st.numData)
      && (st.numCoding == None || st.numData.Some? ==>
            t.numCoding == if st.numData.None? && Tells(xs, x) && x.isCode then x.numCoding else st.numCoding)
  {
    hide Accept, IsFirst, StepSet, Good, Told;
    if Good(xs, x) {
      GoodAccepted(st, xs, x);
      AcceptCount(st.(seen := st.seen + {x.payloadHash}), x);
    } else {
      OtherPositions(st, xs, x);
    }
  }

  lemma StepCount(st: SetState, xs: seq<VerifiedShred>, x: VerifiedShred)
    requires CountMeans(st, xs) && (x.payloadHash !in st.seen <==> IsFirst(xs, x))
    requires x.isCode ==> x.numData.Some?
    ensures CountMeans(StepSet(st, x), xs + [x])
  {
    hide IsFirst, StepSet, Tells, Told, FirstTells;
    ThoseStay(xs, x, Tells);
    hide Those;
    CountStep(st, xs, x);
    FirstTellsMore(xs, x);
    if Those(xs, Tells) != {} {
      FirstExists(Those(xs, Tells));
      assert exists i: nat :: FirstTells(xs, i) by {
        var i: nat :| i in Those(xs, Tells) && forall j | j in Those(xs, Tells) :: i <= j;
        IsFirstTold(xs, i);
      }
      assert exists j :: j in Those(xs, Tells);
    }
  }

  lemma IsFirstTold(xs: seq<VerifiedShred>, i: nat)
    requires i in Those(xs, Tells) && forall j | j in Those(xs, Tells) :: i <= j
    ensures FirstTells(xs, i)
  {}

  lemma TellsMeans(xs: seq<VerifiedShred>, x: VerifiedShred)
    ensures Tells(xs, x) <==> Good(xs, x) && if x.isCode then x.numData.Some? else x.dataComplete
  {
    hide Good;
  }

  /** The least member, looked for from `from` up to the member `x`. */
  ghost function Least(s: set<nat>, from: nat, x: nat): (r: nat)
    requires x in s && from <= x && forall j | j in s :: from <= j
    ensures r in s && forall j | j in s :: r <= j
    decreases x - from
  {
    if from in s then from else Least(s, from + 1, x)
  }

  lemma FirstExists(s: set<nat>)
    requires s != {}
    ensures exists i :: i in s && forall j | j in s :: i <= j
  {
    var x :| x in s;
    var i := Least(s, 0, x);
    assert i in s && forall j | j in s :: i <= j;
  }

  lemma {:induction false} FoldCount(leader: Option<nat>, ns: int, xs: seq<VerifiedShred>)
    requires forall i | 0 <= i < |xs| :: xs[i].isCode ==> xs[i].numData.Some?
    ensures CountMeans(Fold(NewSet(leader, ns), xs), xs)
  {
    if xs != [] {
      hide StepSet, CountMeans;
      var front, x := xs[..|xs| - 1], xs[|xs| - 1];
      assert xs == front + [x];
      FoldCount(leader, ns, front);
      NewToSet(leader, ns, front, x);
      StepCount(Fold(NewSet(leader, ns), front), front, x);
    }
  }

  // ----- the row -----

  /** How many good shreds at a new position came by `v`, or before it. */
  ghost function ArrivedCount(xs: seq<VerifiedShred>, below: bool, v: int): nat { |Those(xs, ArrivedBy(below, v))| }

  /** What a row says of failed, unsure and repeated shreds, of positions, and of times. */
  ghost predicate RowCounts(row: SetRow, xs: seq<VerifiedShred>, slot: nat, fec: nat, truth: map<TruthKey, Hash>) {
    && row.invalid == |Those(xs, Failed)|
    && row.invalidSig == |Those(xs, DataRight(slot, fec, truth))|
    && row.invalidData == |Those(xs, DataWrong(slot, fec, truth))|
    && row.invalidUnknown == |Those(xs, DataUnknown(slot, fec, truth))|
    && row.duplicated == |Those(xs, Repeat)|
    && row.sigUnverifiable == |Those(xs, Unsure)|
    && row.nData == |GoodPositions(xs, false)|
    && row.nCode == |GoodPositions(xs, true)|
    && (row.lastInSlot <==> Those(xs, LastOfSlot) != {})
  }

  /** First and last good shred, or the time the set was made if there is none. */
  ghost predicate RowTimes(row: SetRow, xs: seq<VerifiedShred>, ns: int) {
    if Those(xs, Good) == {} then row.firstNs == row.lastNs == ns else
    && (forall i | i in Those(xs, Good) :: row.firstNs <= xs[i].rxNs <= row.lastNs)
    && (exists i :: i in Those(xs, Good) && xs[i].rxNs == row.firstNs)
    && (exists i :: i in Those(xs, Good) && xs[i].rxNs == row.lastNs)
  }

  /** A data count of `k` was told first, and `k` positions arrived. */
  ghost predicate DecodableWith(xs: seq<VerifiedShred>, k: nat) {
    && (exists i: nat :: FirstTells(xs, i) && Told(xs[i]) == k)
    && 0 < k <= |Those(xs, NewPosition)|
  }

  /** A new position arrived at `v`, fewer than `k` before it and at least `k` by then. */
  ghost predicate DecodedAt(xs: seq<VerifiedShred>, k: nat, v: int) {
    Those(xs, ArrivedAt(v)) != {} && ArrivedCount(xs, true, v) < k <= ArrivedCount(xs, false, v)
  }

  /** It became decodable when the k-th new position arrived, and is valid if nothing was wrong with it. */
  ghost predicate RowDecode(row: SetRow, xs: seq<VerifiedShred>) {
    && (row.decodeNs.Some? <==> exists k: nat :: DecodableWith(xs, k))
    && (forall k: nat | DecodableWith(xs, k) :: DecodedAt(xs, k, row.decodeNs.GetOr(0)))
    && (row.isValid <==> Those(xs, Failed) == {} && Those(xs, Unsure) == {} && exists k: nat :: DecodableWith(xs, k))
  }

  /** The whole set is the counts told first, if a coding shred told them; the rest of it is missed. */
  ghost predicate RowTotal(row: SetRow, xs: seq<VerifiedShred>) {
    && (row.expectedTotal.Some? <==> exists i: nat :: FirstTells(xs, i) && xs[i].isCode)
    && (forall i: nat | FirstTells(xs, i) && xs[i].isCode ::
          row.expectedTotal == Some(xs[i].numData.GetOr(0) + xs[i].numCoding.GetOr(0)))
    && row.missed == Max(0, row.expectedTotal.GetOr(0) - row.nData - row.nCode)
  }

  lemma RowCountsMean(key: SetKey, leader: Option<nat>, ns: int, xs: seq<VerifiedShred>, truth: map<TruthKey, Hash>)
    ensures RowCounts(Finalize(key, Fold(NewSet(leader, ns), xs), truth), xs, key.slot, key.fec, truth)
  {
    hide Those, Fold, CountVerdict, CountOnes, Members, GoodPositions, Sorted, DataRight, DataWrong, DataUnknown;
    var st := Fold(NewSet(leader, ns), xs);
    FoldCounts(leader, ns, xs, key.slot, key.fec, truth);
    FoldPositions(leader, ns, xs);
    OnesAreMembers(st.dataPos);
    OnesAreMembers(st.codePos);
  }

  lemma {:induction false} KeepsFirst(leader: Option<nat>, ns: int, xs: seq<VerifiedShred>)
    ensures var st := Fold(NewSet(leader, ns), xs); st.createdNs == ns && st.leader == leader
  {
    if xs != [] {
      KeepsFirst(leader, ns, xs[..|xs| - 1]);
      StepKeepsFirst(Fold(NewSet(leader, ns), xs[..|xs| - 1]), xs[|xs| - 1]);
      hide StepSet;
    }
  }

  lemma StepKeepsFirst(st: SetState, x: VerifiedShred)
    ensures StepSet(st, x).createdNs == st.createdNs && StepSet(st, x).leader == st.leader
  {}

  lemma RowTimesMean(key: SetKey, leader: Option<nat>, ns: int, xs: seq<VerifiedShred>, truth: map<TruthKey, Hash>)
    ensures var row := Finalize(key, Fold(NewSet(leader, ns), xs), truth);
      RowTimes(row, xs, ns) && row.leader == leader && row.key == key
  {
    hide Those, Fold, CountVerdict, CountOnes, Sorted;
    FoldTimes(leader, ns, xs);
    KeepsFirst(leader, ns, xs);
  }

  lemma OneFirst(xs: seq<VerifiedShred>)
    ensures forall i: nat, j: nat | FirstTells(xs, i) && FirstTells(xs, j) :: i == j
    ensures (exists i: nat :: FirstTells(xs, i)) <==> Those(xs, Tells) != {}
    ensures forall i: nat | FirstTells(xs, i) :: i < |xs| && if xs[i].isCode then xs[i].numData.Some? else xs[i].dataComplete
  {
    if Those(xs, Tells) != {} {
      FirstExists(Those(xs, Tells));
      var i: nat :| i in Those(xs, Tells) && forall j | j in Those(xs, Tells) :: i <= j;
      assert FirstTells(xs, i);
    }
  }

  lemma DecodableMeans(leader: Option<nat>, ns: int, xs: seq<VerifiedShred>, k: nat)
    requires forall i | 0 <= i < |xs| :: xs[i].isCode ==> xs[i].numData.Some?
    ensures var st := Fold(NewSet(leader, ns), xs);
      DecodableWith(xs, k) <==> st.numData == Some(k) && 0 < k <= |st.arrivals|
  {
    hide Those, Fold, FirstTells, Told, CountIf;
    FoldCount(leader, ns, xs);
    FoldArrivals(leader, ns, xs);
    OneFirst(xs);
  }

  lemma DecodesIff(leader: Option<nat>, ns: int, xs: seq<VerifiedShred>)
    requires forall i | 0 <= i < |xs| :: xs[i].isCode ==> xs[i].numData.Some?
    ensures var st := Fold(NewSet(leader, ns), xs);
      && (DecodeNs(st).Some? <==> exists k: nat :: DecodableWith(xs, k))
      && forall k: nat | DecodableWith(xs, k) :: st.numData == Some(k) && 0 < k <= |st.arrivals|
  {
    hide Fold, Sorted, DecodableWith;
    var st := Fold(NewSet(leader, ns), xs);
    forall k: nat ensures DecodableWith(xs, k) <==> st.numData == Some(k) && 0 < k <= |st.arrivals| {
      DecodableMeans(leader, ns, xs, k);
    }
    if DecodeNs(st).Some? {
      assert DecodableWith(xs, st.numData.value);
    }
  }

  /** The k-th smallest arrival is the time by which k new positions were there. */
  lemma KthMeans(st: SetState, xs: seq<VerifiedShred>, k: nat)
    requires ArrivalsMean(st, xs) && st.numData == Some(k) && 0 < k <= |st.arrivals|
    ensures DecodedAt(xs, k, DecodeNs(st).GetOr(0))
  {
    hide Those, Sorted, CountIf, ArrivedBy, ArrivedAt;
    SortedPicksKth(st.arrivals, k);
  }

  lemma DecodeMeans(leader: Option<nat>, ns: int, xs: seq<VerifiedShred>)
    requires forall i | 0 <= i < |xs| :: xs[i].isCode ==> xs[i].numData.Some?
    ensures var decodeNs := DecodeNs(Fold(NewSet(leader, ns), xs));
      && (decodeNs.Some? <==> exists k: nat :: DecodableWith(xs, k))
      && (forall k: nat | DecodableWith(xs, k) :: DecodedAt(xs, k, decodeNs.GetOr(0)))
  {
    hide Fold, DecodeNs, DecodableWith, ArrivalsMean, DecodedAt;
    var st := Fold(NewSet(leader, ns), xs);
    DecodesIff(leader, ns, xs);
    FoldArrivals(leader, ns, xs);
    forall k: nat | DecodableWith(xs, k) ensures DecodedAt(xs, k, DecodeNs(st).GetOr(0)) {
      KthMeans(st, xs, k);
    }
  }

  lemma RowDecodeMeans(key: SetKey, leader: Option<nat>, ns: int, xs: seq<VerifiedShred>, truth: map<TruthKey, Hash>)
    requires forall i | 0 <= i < |xs| :: xs[i].isCode ==> xs[i].numData.Some?
    ensures RowDecode(Finalize(key, Fold(NewSet(leader, ns), xs), truth), xs)
  {
    hide Those, Fold, CountVerdict, CountOnes, DecodeNs, DecodableWith, DecodedAt;
    FoldCounts(leader, ns, xs, key.slot, key.fec, truth);
    DecodeMeans(leader, ns, xs);
  }

  lemma TotalMeans(leader: Option<nat>, ns: int, xs: seq<VerifiedShred>)
    requires forall i | 0 <= i < |xs| :: xs[i].isCode ==> xs[i].numData.Some? && xs[i].numCoding.Some?
    ensures var total := ExpectedTotal(Fold(NewSet(leader, ns), xs));
      && (total.Some? <==> exists i: nat :: FirstTells(xs, i) && xs[i].isCode)
      && forall i: nat | FirstTells(xs, i) && xs[i].isCode :: total == Some(xs[i].numData.GetOr(0) + xs[i].numCoding.GetOr(0))
  {
    hide Those, Fold, FirstTells;
    FoldCount(leader, ns, xs);
    OneFirst(xs);
  }

  lemma RowTotalMeans(key: SetKey, leader: Option<nat>, ns: int, xs: seq<VerifiedShred>, truth: map<TruthKey, Hash>)
    requires forall i | 0 <= i < |xs| :: xs[i].isCode ==> xs[i].numData.Some? && xs[i].numCoding.Some?
    ensures RowTotal(Finalize(key, Fold(NewSet(leader, ns), xs), truth), xs)
  {
    hide Those, Fold, CountVerdict, CountOnes, FirstTells, DecodeNs, ExpectedTotal;
    TotalMeans(leader, ns, xs);
  }

  /** The row of a set by its shreds, judged against `truth`. */
  lemma RowMeans(key: SetKey, leader: Option<nat>, ns: int, xs: seq<VerifiedShred>, truth: map<TruthKey, Hash>)
    requires forall i | 0 <= i < |xs| :: xs[i].isCode ==> xs[i].numData.Some? && xs[i].numCoding.Some?
    ensures var row := Finalize(key, Fold(NewSet(leader, ns), xs), truth);
      && row.key == key && row.leader == leader
      && RowCounts(row, xs, key.slot, key.fec, truth)
      && RowTimes(row, xs, ns)
      && RowDecode(row, xs)
      && RowTotal(row, xs)
  {
    hide Finalize, Fold, RowCounts, RowTimes, RowDecode, RowTotal;
    RowCountsMean(key, leader, ns, xs, truth);
    RowTimesMean(key, leader, ns, xs, truth);
    RowDecodeMeans(key, leader, ns, xs, truth);
    RowTotalMeans(key, leader, ns, xs, truth);
  }
}
