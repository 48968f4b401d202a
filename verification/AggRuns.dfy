/**
 Whole runs of the aggregator: shreds of any providers interleaved with periodic harvests.
 Every set yields one row, all providers' rows of a set leave together, and a row is the sum
 of exactly the shreds of its set.
 */
module AggRuns {
  import opened Options
  import opened AggSpec
  import opened SetOrder

  datatype Event = Shred(s: VerifiedShred) | Sweep

  function Step(a: Agg, e: Event): Agg {
    match e
    case Shred(s) => Ingest(a, s)
    case Sweep => Harvest(a, false)
  }

  /** The aggregator after the first `n` events. */
  function Run(w: nat, es: seq<Event>, n: nat): Agg
    requires n <= |es|
  {
    if n == 0 then NewAgg(w) else Step(Run(w, es, n - 1), es[n - 1])
  }

  /** The rows event `n` emits. */
  function Batch(w: nat, es: seq<Event>, n: nat): map<SetKey, SetRow>
    requires n < |es|
  {
    if es[n].Sweep? then Rows(Run(w, es, n), false) else map[]
  }

  // ----- the window only moves forward -----

  ghost predicate InWindow(a: Agg) {
    && (forall key | key in a.sets :: key.slot > a.evictedUpto)
    && (forall key | key in a.truth :: key.slot > a.evictedUpto)
  }

  lemma StepInWindow(a: Agg, e: Event)
    requires InWindow(a)
    ensures Step(a, e).shredsAfterWindow ==
            a.shredsAfterWindow + if e.Shred? && e.s.slot <= a.evictedUpto then 1 else 0
    ensures InWindow(Step(a, e)) && a.evictedUpto <= Step(a, e).evictedUpto
    ensures a.maxSlot <= Step(a, e).maxSlot && Step(a, e).maxWaitSlots == a.maxWaitSlots
  {
    hide StepSet, Finalize;
  }

  lemma {:induction false} RunInWindow(w: nat, es: seq<Event>, n: nat)
    requires n <= |es|
    ensures InWindow(Run(w, es, n)) && Run(w, es, n).maxWaitSlots == w
  {
    hide Step;
    if n > 0 {
      RunInWindow(w, es, n - 1);
      StepInWindow(Run(w, es, n - 1), es[n - 1]);
    }
  }

  lemma {:induction false} WindowMonotone(w: nat, es: seq<Event>, m: nat, n: nat)
    requires m <= n <= |es|
    ensures Run(w, es, m).evictedUpto <= Run(w, es, n).evictedUpto
    decreases n
  {
    hide Step, InWindow;
    if m < n {
      WindowMonotone(w, es, m, n - 1);
      RunInWindow(w, es, n - 1);
      StepInWindow(Run(w, es, n - 1), es[n - 1]);
    }
  }

  /** A sweep leaves no set at or below the new edge of the window. */
  lemma BatchEvicted(w: nat, es: seq<Event>, n: nat, key: SetKey)
    requires n < |es| && key in Batch(w, es, n)
    ensures Run(w, es, n).evictedUpto < key.slot <= Run(w, es, n + 1).evictedUpto
  {
    RunInWindow(w, es, n);
  }

  /**
   All rows of a FEC set leave in one harvest: no two harvests of a run have rows of the same
   slot and FEC set, of the same provider or of different ones.
   */
  lemma OneBatchPerRace(w: nat, es: seq<Event>, m: nat, n: nat, a: SetKey, b: SetKey)
    requires m < n < |es| && a in Batch(w, es, m) && b in Batch(w, es, n)
    ensures a.slot < b.slot
  {
    hide *;
    BatchEvicted(w, es, m, a);
    BatchEvicted(w, es, n, b);
    WindowMonotone(w, es, m + 1, n);
  }

  // ----- a row is the sum of its set's shreds -----

  /** The shred an event adds to the set of `key`, if any. */
  function Joins(a: Agg, e: Event, key: SetKey): seq<VerifiedShred> {
    if e.Shred? && KeyOf(e.s) == key && key.slot > a.evictedUpto then [e.s] else []
  }

  /** The shreds of `key` among the first `n` events that came inside the window. */
  function Own(w: nat, es: seq<Event>, n: nat, key: SetKey): seq<VerifiedShred>
    requires n <= |es|
  {
    if n == 0 then [] else Own(w, es, n - 1, key) + Joins(Run(w, es, n - 1), es[n - 1], key)
  }

  /** How many shreds among the first `n` events came after their window. */
  function Late(w: nat, es: seq<Event>, n: nat): nat
    requires n <= |es|
  {
    if n == 0 then 0 else
    Late(w, es, n - 1) + if es[n - 1].Shred? && es[n - 1].s.slot <= Run(w, es, n - 1).evictedUpto then 1 else 0
  }

  /** The three recursions one event at a time, for proofs that hide them. */
  lemma Unfolded(w: nat, es: seq<Event>, n: nat, key: SetKey)
    requires n <= |es|
    ensures n == 0 ==> Run(w, es, n) == NewAgg(w) && Own(w, es, n, key) == [] && Late(w, es, n) == 0
    ensures n > 0 ==>
      && Run(w, es, n) == Step(Run(w, es, n - 1), es[n - 1])
      && Own(w, es, n, key) == Own(w, es, n - 1, key) + Joins(Run(w, es, n - 1), es[n - 1], key)
      && Late(w, es, n) == Late(w, es, n - 1) +
           if es[n - 1].Shred? && es[n - 1].s.slot <= Run(w, es, n - 1).evictedUpto then 1 else 0
  {
    hide Step, Joins;
  }

  function Built(own: seq<VerifiedShred>): SetState
    requires own != []
  {
    Fold(NewSet(own[0].leader, own[0].rxNs), own)
  }

  /** What is pending for `key`: its own shreds so far, as long as the window has not passed it. */
  ghost predicate Pending(a: Agg, key: SetKey, own: seq<VerifiedShred>) {
    key.slot > a.evictedUpto ==>
      && (key in a.sets <==> own != [])
      && (own != [] ==> a.sets[key] == Built(own))
  }

  lemma BuiltStep(own: seq<VerifiedShred>, s: VerifiedShred)
    ensures Built(own + [s]) == StepSet(if own == [] then NewSet(s.leader, s.rxNs) else Built(own), s)
  {
    hide StepSet, NewSet;
    var all := own + [s];
    assert all[..|own|] == own && all[|own|] == s;
    assert |all| - 1 == |own|;
    var st := NewSet(all[0].leader, all[0].rxNs);
    assert Fold(st, all) == StepSet(Fold(st, own), s);
    assert own == [] ==> Fold(st, own) == st;
  }

  lemma StepPending(a: Agg, e: Event, key: SetKey, own: seq<VerifiedShred>)
    requires InWindow(a) && Pending(a, key, own)
    ensures Pending(Step(a, e), key, own + Joins(a, e, key))
  {
    hide StepSet, Built, Finalize;
    assert own + [] == own;
    if e.Shred? {
      BuiltStep(own, e.s);
    }
  }

  lemma {:induction false} RunPending(w: nat, es: seq<Event>, n: nat, key: SetKey)
    requires n <= |es|
    ensures Pending(Run(w, es, n), key, Own(w, es, n, key))
    ensures Run(w, es, n).shredsAfterWindow == Late(w, es, n)
  {
    hide Run, Own, Late, Joins, InWindow, Step;
    Unfolded(w, es, n, key);
    if n > 0 {
      hide Pending;
      RunPending(w, es, n - 1, key);
      RunInWindow(w, es, n - 1);
      StepInWindow(Run(w, es, n - 1), es[n - 1]);
      StepPending(Run(w, es, n - 1), es[n - 1], key, Own(w, es, n - 1, key));
    }
  }

  ghost predicate EmittedBefore(w: nat, es: seq<Event>, n: nat, key: SetKey)
    requires n <= |es|
  {
    exists m :: 0 <= m < n && key in Batch(w, es, m)
  }

  lemma StepHolds(a: Agg, e: Event, key: SetKey)
    ensures key in Rows(a, false) ==> key in a.sets
    ensures key in Step(a, e).sets <==>
      || |Joins(a, e, key)| > 0
      || (key in a.sets && !(e.Sweep? && key in Rows(a, false)))
  {
    hide StepSet, Finalize;
  }

  /**
   A set whose shreds came inside the window is either still pending or has left, in exactly
   one harvest; no other set ever has a row.
   */
  lemma {:induction false} PendingOrEmitted(w: nat, es: seq<Event>, n: nat, key: SetKey)
    requires n <= |es|
    ensures |Own(w, es, n, key)| > 0 <==> key in Run(w, es, n).sets || EmittedBefore(w, es, n, key)
    ensures !(key in Run(w, es, n).sets && EmittedBefore(w, es, n, key))
  {
    hide Run, Own, Late, Step, Joins, Rows;
    Unfolded(w, es, n, key);
    if n > 0 {
      PendingOrEmitted(w, es, n - 1, key);
      StepHolds(Run(w, es, n - 1), es[n - 1], key);
      assert EmittedBefore(w, es, n, key) <==> EmittedBefore(w, es, n - 1, key) || key in Batch(w, es, n - 1);
      LeavesForGood(w, es, n, key);
    }
  }

  lemma LeavesForGood(w: nat, es: seq<Event>, n: nat, key: SetKey)
    requires n <= |es|
    ensures !(key in Run(w, es, n).sets && EmittedBefore(w, es, n, key))
  {
    hide Run, Batch;
    RunInWindow(w, es, n);
    forall m: nat | m < n && key in Batch(w, es, m) ensures key !in Run(w, es, n).sets {
      BatchEvicted(w, es, m, key);
      WindowMonotone(w, es, m + 1, n);
    }
  }

  /**
   A harvested row sums up exactly the shreds of its set that came inside the window, each
   counted once as duplicate, invalid, unverifiable or accepted; the others are counted as
   late.
   */
  lemma RowSumsItsSet(w: nat, es: seq<Event>, n: nat, key: SetKey)
    requires n < |es| && key in Batch(w, es, n)
    ensures var own := Own(w, es, n, key);
      var row := Batch(w, es, n)[key];
      && own != []
      && row == Finalize(key, Built(own), Run(w, es, n).truth)
      && |own| == row.duplicated + row.invalid + row.sigUnverifiable + Accepted(NewSet(own[0].leader, own[0].rxNs), own)
      && row.invalid == row.invalidSig + row.invalidData + row.invalidUnknown
    ensures Run(w, es, n).shredsAfterWindow == Late(w, es, n)
  {
    RunInWindow(w, es, n);
    RunPending(w, es, n, key);
    var own := Own(w, es, n, key);
    RowLaws(key, own[0].leader, own[0].rxNs, own, Run(w, es, n).truth);
    hide Finalize, Fold, IsKth;
  }
}
