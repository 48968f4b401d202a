/**
 Whole runs of the aggregator by the shreds that came: when a set leaves, what its row says, and
 what the truth is that its failed shreds are judged against.
 */
module RunFindings {
  import opened Options
  import opened AggSpec
  import opened SetOrder
  import opened AggRuns
  import opened Findings

  /** The shreds of a set among the first `n` events. */
  function Sent(es: seq<Event>, n: nat, key: SetKey): seq<VerifiedShred>
    requires n <= |es|
  {
    if n == 0 then [] else
    Sent(es, n - 1, key) +
    if es[n - 1].Shred? && SetKey(es[n - 1].s.provider, es[n - 1].s.slot, es[n - 1].s.fec) == key then [es[n - 1].s] else []
  }

  /** Until the window has passed a set, all its shreds went into it. */
  lemma {:induction false} OwnIsSent(w: nat, es: seq<Event>, n: nat, key: SetKey)
    requires n <= |es| && key.slot > Run(w, es, n).evictedUpto
    ensures Own(w, es, n, key) == Sent(es, n, key)
  {
    hide Run, Own, Late, Step, InWindow;
    Unfolded(w, es, n, key);
    if n > 0 {
      RunInWindow(w, es, n - 1);
      StepInWindow(Run(w, es, n - 1), es[n - 1]);
      OwnIsSent(w, es, n - 1, key);
    }
  }

  // ----- when a set leaves -----

  /** Some shred among the first `n` events is of slot `slot` or later. */
  ghost predicate Reached(es: seq<Event>, n: nat, slot: nat)
    requires n <= |es|
  {
    exists i :: 0 <= i < n && es[i].Shred? && es[i].s.slot >= slot
  }

  lemma {:induction false} TipMeans(w: nat, es: seq<Event>, n: nat)
    requires n <= |es|
    ensures forall slot: nat | slot > 0 :: Reached(es, n, slot) <==> slot <= Run(w, es, n).maxSlot
  {
    hide Run, Own, Late;
    Unfolded(w, es, n, SetKey(0, 0, 0));
    if n > 0 {
      TipMeans(w, es, n - 1);
      TipStep(Run(w, es, n - 1), es[n - 1]);
      forall slot: nat ensures Reached(es, n, slot) <==> Reached(es, n - 1, slot) || (es[n - 1].Shred? && es[n - 1].s.slot >= slot) {
      }
    }
  }

  lemma TipStep(a: Agg, e: Event)
    ensures Step(a, e).maxSlot == if e.Shred? && e.s.slot > a.maxSlot then e.s.slot else a.maxSlot
  {
    hide StepSet, Finalize;
  }

  /**
   A harvest emits a set exactly when shreds of it came in time, it did not leave before, and a
   shred `w` slots ahead of it has come.
   */
  lemma HarvestedIff(w: nat, es: seq<Event>, n: nat, key: SetKey)
    requires n < |es| && es[n].Sweep?
    ensures key in Batch(w, es, n) <==>
      && |Own(w, es, n, key)| > 0
      && !EmittedBefore(w, es, n, key)
      && Reached(es, n, key.slot + w)
  {
    PendingOrEmitted(w, es, n, key);
    RunInWindow(w, es, n);
    TipMeans(w, es, n);
    hide Run, Own, Finalize, EmittedBefore, Reached;
    var a := Run(w, es, n);
    assert key in a.sets ==> key.slot > 0;
    assert key in a.sets ==> (Ripe(a, false, key) <==> key.slot + w <= a.maxSlot);
  }

  // ----- the truth -----

  /** Event `i` is a good shred that carries a hash, and the yardstick for the position `at`. */
  ghost predicate Teaching(es: seq<Event>, i: nat, at: TruthKey) {
    && i < |es| && es[i].Shred?
    && var x := es[i].s;
       && Good(Sent(es, i, SetKey(x.provider, x.slot, x.fec)), x)
       && x.dataHash.Some?
       && at == TruthKey(x.slot, x.fec, x.isCode, x.shredIndex)
  }

  ghost predicate Taught(es: seq<Event>, n: nat, at: TruthKey) {
    exists i: nat :: i < n && Teaching(es, i, at)
  }

  /** The last of the first `n` events that taught about `at`. */
  ghost predicate TaughtLast(es: seq<Event>, n: nat, at: TruthKey, i: nat) {
    i < n && Teaching(es, i, at) && forall j: nat | i < j < n :: !Teaching(es, j, at)
  }

  ghost predicate TruthOk(truth: map<TruthKey, Hash>, es: seq<Event>, n: nat, at: TruthKey) {
    && (at in truth <==> Taught(es, n, at))
    && forall i: nat | TaughtLast(es, n, at, i) :: at in truth && es[i].s.dataHash == Some(truth[at])
  }

  /** What one event does to the truth of a position the window has not passed. */
  lemma TruthStep(a: Agg, e: Event, at: TruthKey)
    requires InWindow(a) && at.slot > Step(a, e).evictedUpto
    ensures var t := Step(a, e).truth;
      if e.Shred? && Teaches(SetFor(a, e.s), e.s) && TruthKeyOf(e.s) == at then at in t && Some(t[at]) == e.s.dataHash
      else (at in t <==> at in a.truth) && (at in t ==> t[at] == a.truth[at])
  {
    StepInWindow(a, e);
    hide StepSet, Finalize, SetFor;
  }

  lemma TeachesIff(w: nat, es: seq<Event>, n: nat, at: TruthKey)
    requires n < |es| && at.slot > Run(w, es, n).evictedUpto
    ensures (es[n].Shred? && Teaches(SetFor(Run(w, es, n), es[n].s), es[n].s) && TruthKeyOf(es[n].s) == at) <==> Teaching(es, n, at)
  {
    hide Run, Own, Built, IsFirst;
    if es[n].Shred? && TruthKeyOf(es[n].s) == at {
      var x := es[n].s;
      RunPending(w, es, n, KeyOf(x));
      OwnIsSent(w, es, n, KeyOf(x));
      SetKnows(Sent(es, n, KeyOf(x)), SetFor(Run(w, es, n), x), x);
    }
  }

  lemma SetKnows(own: seq<VerifiedShred>, st: SetState, x: VerifiedShred)
    requires st == if own == [] then NewSet(x.leader, x.rxNs) else Built(own)
    ensures x.payloadHash !in st.seen <==> IsFirst(own, x)
  {
    if own != [] {
      NewToSet(own[0].leader, own[0].rxNs, own, x);
    }
    hide Fold;
  }

  /** In every state of a run the truth is, for each position the window has not passed, what was taught last. */
  lemma {:induction false} TruthMeans(w: nat, es: seq<Event>, n: nat, at: TruthKey)
    requires n <= |es| && at.slot > Run(w, es, n).evictedUpto
    ensures TruthOk(Run(w, es, n).truth, es, n, at)
  {
    hide Run, Own, Late, Step, InWindow, Teaching, Teaches, SetFor;
    Unfolded(w, es, n, SetKey(0, 0, 0));
    if n > 0 {
      RunInWindow(w, es, n - 1);
      StepInWindow(Run(w, es, n - 1), es[n - 1]);
      TruthMeans(w, es, n - 1, at);
      TruthStep(Run(w, es, n - 1), es[n - 1], at);
      TeachesIff(w, es, n - 1, at);
      TaughtMore(es, n - 1, n, at);
      hide TruthKeyOf, Taught, TaughtLast;
    }
  }

  lemma TaughtMore(es: seq<Event>, n: nat, m: nat, at: TruthKey)
    requires n < |es| && m == n + 1
    ensures Taught(es, m, at) <==> Taught(es, n, at) || Teaching(es, n, at)
    ensures Teaching(es, n, at) ==> forall i: nat | TaughtLast(es, m, at, i) :: i == n
    ensures !Teaching(es, n, at) ==> forall i: nat :: TaughtLast(es, m, at, i) <==> TaughtLast(es, n, at, i)
  {
    hide Teaching;
  }

  // ----- the row -----

  /**
   The row of a harvested set by the shreds that were sent for it: which failed, with the data of
   the truth or with other data; which were unsure or repeats; which positions arrived; when the
   set became decodable; and how much of it was missed.
   */
  lemma RowOfItsShreds(w: nat, es: seq<Event>, n: nat, key: SetKey)
    requires n < |es| && key in Batch(w, es, n)
    requires forall i | 0 <= i < |es| && es[i].Shred? && es[i].s.isCode :: es[i].s.numData.Some? && es[i].s.numCoding.Some?
    ensures var xs, row := Sent(es, n, key), Batch(w, es, n)[key];
      && xs != [] && row.key == key && row.leader == xs[0].leader
      && RowCounts(row, xs, key.slot, key.fec, Run(w, es, n).truth)
      && RowTimes(row, xs, xs[0].rxNs)
      && RowDecode(row, xs)
      && RowTotal(row, xs)
    ensures forall at: TruthKey | at.slot == key.slot :: TruthOk(Run(w, es, n).truth, es, n, at)
  {
    hide Run, Own, Finalize, RowCounts, RowTimes, RowDecode, RowTotal, TruthOk, InWindow;
    RowSumsItsSet(w, es, n, key);
    BatchEvicted(w, es, n, key);
    OwnIsSent(w, es, n, key);
    var xs := Sent(es, n, key);
    SentAreEvents(es, n, key);
    forall i | 0 <= i < |xs| ensures xs[i].isCode ==> xs[i].numData.Some? && xs[i].numCoding.Some? {
      assert xs[i] in xs;
    }
    RowMeans(key, xs[0].leader, xs[0].rxNs, xs, Run(w, es, n).truth);
    forall at: TruthKey | at.slot == key.slot ensures TruthOk(Run(w, es, n).truth, es, n, at) {
      TruthMeans(w, es, n, at);
    }
  }

  lemma {:induction false} SentAreEvents(es: seq<Event>, n: nat, key: SetKey)
    requires n <= |es|
    ensures forall x | x in Sent(es, n, key) :: exists i :: 0 <= i < n && es[i].Shred? && es[i].s == x
  {
    if n > 0 {
      SentAreEvents(es, n - 1, key);
    }
  }

  // ----- tips and draining -----

  /** Event `i` is a shred of the provider that the leader signed. */
  predicate Signed(es: seq<Event>, i: nat, p: Provider) {
    i < |es| && es[i].Shred? && es[i].s.provider == p && es[i].s.merkleOk && es[i].s.sigOk == Some(true)
  }

  /** The provider's latest slot is that of its latest signed shred. */
  ghost predicate LatestOk(a: Agg, es: seq<Event>, n: nat, p: Provider) {
    && (p in a.latestSlot <==> exists i: nat :: i < n && Signed(es, i, p))
    && (forall i: nat | i < n && Signed(es, i, p) :: p in a.latestSlot && es[i].s.slot <= a.latestSlot[p])
    && (p in a.latestSlot ==> exists i: nat :: i < n && Signed(es, i, p) && es[i].s.slot == a.latestSlot[p])
  }

  lemma {:induction false} LatestMeans(w: nat, es: seq<Event>, n: nat, p: Provider)
    requires n <= |es|
    ensures LatestOk(Run(w, es, n), es, n, p)
  {
    hide Run, Own, Late, Step;
    Unfolded(w, es, n, SetKey(0, 0, 0));
    if n > 0 {
      LatestMeans(w, es, n - 1, p);
      LatestStep(Run(w, es, n - 1), es, n - 1, p);
    }
  }

  lemma LatestStep(a: Agg, es: seq<Event>, n: nat, p: Provider)
    requires n < |es|
    ensures var after := Step(a, es[n]);
      if Signed(es, n, p) then
        p in after.latestSlot && after.latestSlot[p] ==
          if p in a.latestSlot && a.latestSlot[p] > es[n].s.slot then a.latestSlot[p] else es[n].s.slot
      else (p in after.latestSlot <==> p in a.latestSlot) && (p in a.latestSlot ==> after.latestSlot[p] == a.latestSlot[p])
  {
    hide StepSet, Finalize;
  }

  /** Draining emits every pending set and forgets all truth; the window moves to where a harvest would move it. */
  lemma DrainMeans(a: Agg, slot: nat)
    ensures Rows(a, true).Keys == a.sets.Keys
    ensures Harvest(a, true).sets == map[] && Harvest(a, true).truth == map[]
    ensures slot > 0 ==> (slot <= Harvest(a, true).evictedUpto <==> slot + a.maxWaitSlots <= a.maxSlot)
    ensures forall key | key in a.sets :: Rows(a, true)[key] == Finalize(key, a.sets[key], a.truth)
  {
    hide Finalize;
  }
}
