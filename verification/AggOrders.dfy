/** Two orders of the same shreds, of any number of providers, end in the same findings. */
module AggOrders {
  import opened Options
  import opened AggSpec
  import opened SetOrder
  import opened AggRuns

  // ----- two orders of the same shreds -----

  /** Harvest-free runs. */
  function Shreds(xs: seq<VerifiedShred>): seq<Event> {
    seq(|xs|, i requires 0 <= i < |xs| => Shred(xs[i]))
  }

  ghost predicate SameKeyCompatible(xs: seq<VerifiedShred>) {
    forall i, j | 0 <= i < j < |xs| && KeyOf(xs[i]) == KeyOf(xs[j]) :: Compatible(xs[i], xs[j])
  }

  /** All leader-signed copies of a position carry the data hash `hash` gives it. */
  ghost predicate TruthIs(xs: seq<VerifiedShred>, hash: TruthKey -> Hash) {
    forall i | 0 <= i < |xs| && xs[i].Authentic() && xs[i].dataHash.Some? ::
      xs[i].dataHash.value == hash(TruthKeyOf(xs[i]))
  }

  /** The truth a shred teaches when its payload is new. */
  predicate Shows(s: VerifiedShred, key: TruthKey) {
    s.slot > 0 && s.Authentic() && s.dataHash.Some? && TruthKeyOf(s) == key
  }

  ghost predicate Shown(xs: seq<VerifiedShred>, n: nat, key: TruthKey)
    requires n <= |xs|
  {
    exists i :: 0 <= i < n && Shows(xs[i], key)
  }

  lemma {:induction false} NeverSwept(w: nat, xs: seq<VerifiedShred>, n: nat)
    requires n <= |xs|
    ensures Run(w, Shreds(xs), n).evictedUpto == 0
  {
    hide Run, Own, Late, Joins, StepSet;
    Unfolded(w, Shreds(xs), n, SetKey(0, 0, 0));
    if n > 0 {
      NeverSwept(w, xs, n - 1);
    }
  }

  ghost predicate Came(xs: seq<VerifiedShred>, n: nat, x: VerifiedShred)
    requires n <= |xs|
  {
    exists i :: 0 <= i < n && xs[i] == x
  }

  /** The shreds a set was built from, without sweeps: all of the key. */
  lemma {:induction false} OwnOf(w: nat, xs: seq<VerifiedShred>, n: nat, key: SetKey)
    requires n <= |xs|
    ensures forall x :: x in Own(w, Shreds(xs), n, key) <==> key.slot > 0 && KeyOf(x) == key && Came(xs, n, x)
  {
    hide Run, Own, Late, Step;
    Unfolded(w, Shreds(xs), n, key);
    if n > 0 {
      OwnOf(w, xs, n - 1, key);
      NeverSwept(w, xs, n - 1);
      forall x ensures Came(xs, n, x) <==> Came(xs, n - 1, x) || x == xs[n - 1] {
      }
    }
  }

  lemma {:induction false} OwnCompatible(w: nat, xs: seq<VerifiedShred>, n: nat, key: SetKey)
    requires n <= |xs| && SameKeyCompatible(xs)
    ensures AllCompatible(Own(w, Shreds(xs), n, key))
  {
    hide Run, Own, Late, Step, Compatible;
    Unfolded(w, Shreds(xs), n, key);
    if n > 0 {
      OwnCompatible(w, xs, n - 1, key);
      OwnOf(w, xs, n - 1, key);
      var own := Own(w, Shreds(xs), n - 1, key);
      forall j | 0 <= j < |own| && KeyOf(xs[n - 1]) == key ensures Compatible(own[j], xs[n - 1]) {
        assert own[j] in own;
      }
    }
  }

  /** A set has seen no payload but those of its shreds. */
  lemma {:induction false} NotSeen(st: SetState, own: seq<VerifiedShred>, hash: nat)
    requires hash !in st.seen && forall x | x in own :: x.payloadHash != hash
    ensures hash !in Fold(st, own).seen
  {
    if own != [] {
      hide Accept;
      var front, x := own[..|own| - 1], own[|own| - 1];
      assert own == front + [x];
      NotSeen(st, front, hash);
      AcceptKeepsSeen(Fold(st, front).(seen := Fold(st, front).seen + {x.payloadHash}), x);
    }
  }

  lemma AcceptKeepsSeen(st: SetState, s: VerifiedShred)
    ensures Accept(st, s).seen == st.seen
  {}

  lemma BuiltNotSeen(own: seq<VerifiedShred>, hash: nat)
    requires own != [] && forall x | x in own :: x.payloadHash != hash
    ensures hash !in Built(own).seen
  {
    NotSeen(NewSet(own[0].leader, own[0].rxNs), own, hash);
  }

  /** In a run of distinct shreds every payload is new to its set. */
  lemma PayloadIsNew(w: nat, xs: seq<VerifiedShred>, n: nat)
    requires n < |xs| && SameKeyCompatible(xs) && xs[n].slot > 0
    ensures xs[n].payloadHash !in SetFor(Run(w, Shreds(xs), n), xs[n]).seen
  {
    hide Run, Own, Built;
    var key := KeyOf(xs[n]);
    NeverSwept(w, xs, n);
    RunPending(w, Shreds(xs), n, key);
    OwnOf(w, xs, n, key);
    var own := Own(w, Shreds(xs), n, key);
    forall x | x in own ensures x.payloadHash != xs[n].payloadHash {
      var i :| 0 <= i < n && xs[i] == x;
      assert Compatible(xs[i], xs[n]);
    }
    if own != [] {
      BuiltNotSeen(own, xs[n].payloadHash);
    }
  }

  /** The truth table of a run is what its shreds show, in whatever order they came. */
  lemma {:induction false} TruthOf(w: nat, xs: seq<VerifiedShred>, n: nat, hash: TruthKey -> Hash)
    requires n <= |xs| && SameKeyCompatible(xs) && TruthIs(xs, hash)
    ensures var truth := Run(w, Shreds(xs), n).truth;
      forall key :: (key in truth <==> Shown(xs, n, key)) && (key in truth ==> truth[key] == hash(key))
  {
    hide Run, Own, Late, StepSet, SameKeyCompatible, SetFor, Shows;
    Unfolded(w, Shreds(xs), n, SetKey(0, 0, 0));
    if n > 0 {
      TruthOf(w, xs, n - 1, hash);
      NeverSwept(w, xs, n - 1);
      TruthStep(w, xs, n - 1);
      var x := xs[n - 1];
      forall key ensures Shown(xs, n, key) <==> Shown(xs, n - 1, key) || Shows(x, key) {
      }
      forall key | Shows(x, key) ensures x.dataHash.Some? && x.dataHash.value == hash(key) {
        ShowsTruth(xs, n - 1, hash, key);
      }
    }
  }

  lemma ShowsTruth(xs: seq<VerifiedShred>, n: nat, hash: TruthKey -> Hash, key: TruthKey)
    requires n < |xs| && TruthIs(xs, hash) && Shows(xs[n], key)
    ensures xs[n].dataHash.Some? && xs[n].dataHash.value == hash(key)
  {}

  /** A new shred adds to the truth exactly what it shows. */
  lemma TruthStep(w: nat, xs: seq<VerifiedShred>, n: nat)
    requires n < |xs| && SameKeyCompatible(xs)
    ensures var a, b := Run(w, Shreds(xs), n).truth, Run(w, Shreds(xs), n + 1).truth;
      forall key ::
        && (key in b <==> key in a || Shows(xs[n], key))
        && (key in b ==> if Shows(xs[n], key) then xs[n].dataHash.Some? && b[key] == xs[n].dataHash.value else b[key] == a[key])
  {
    hide Run, Own, Late, StepSet, SameKeyCompatible, SetFor;
    Unfolded(w, Shreds(xs), n + 1, SetKey(0, 0, 0));
    NeverSwept(w, xs, n);
    if xs[n].slot > 0 {
      PayloadIsNew(w, xs, n);
    }
  }

  /**
   Two orders of the same distinct shreds of any number of providers end with the same sets,
   and with rows of the same findings: positions, decode time, first and last arrival, validity, and each bad shred
   judged the same, whether the leader-signed copy came before or after it.
   */
  lemma RunIgnoresOrder(w: nat, xs: seq<VerifiedShred>, ys: seq<VerifiedShred>, hash: TruthKey -> Hash, key: SetKey)
    requires SameKeyCompatible(xs) && SameKeyCompatible(ys) && TruthIs(xs, hash)
    requires forall x :: x in xs <==> x in ys
    ensures var a, b := Run(w, Shreds(xs), |xs|), Run(w, Shreds(ys), |ys|);
      && a.truth == b.truth
      && (key in a.sets <==> key in b.sets)
      && (key in a.sets ==>
            && SameFindings(Finalize(key, a.sets[key], a.truth), Finalize(key, b.sets[key], b.truth))
            && a.sets[key].firstNs == b.sets[key].firstNs && a.sets[key].lastNs == b.sets[key].lastNs)
  {
    hide Run, Own, Built, Finalize, SameKeyCompatible, TruthIs, SameFindings;
    SameTruth(w, xs, ys, hash);
    NeverSwept(w, xs, |xs|);
    NeverSwept(w, ys, |ys|);
    RunInWindow(w, Shreds(xs), |xs|);
    RunInWindow(w, Shreds(ys), |ys|);
    RunPending(w, Shreds(xs), |xs|, key);
    RunPending(w, Shreds(ys), |ys|, key);
    SameOwn(w, xs, ys, key);
    var p, q := Own(w, Shreds(xs), |xs|, key), Own(w, Shreds(ys), |ys|, key);
    if p != [] && key.slot > 0 {
      SameBuilt(key, p, q, Run(w, Shreds(xs), |xs|).truth);
    }
  }

  lemma SameBuilt(key: SetKey, p: seq<VerifiedShred>, q: seq<VerifiedShred>, truth: map<TruthKey, Hash>)
    requires p != [] && q != []
    requires AllCompatible(p) && AllCompatible(q) && forall x :: x in p <==> x in q
    ensures SameFindings(Finalize(key, Built(p), truth), Finalize(key, Built(q), truth))
    ensures Built(p).firstNs == Built(q).firstNs && Built(p).lastNs == Built(q).lastNs
  {
    hide Fold, Finalize, SameFindings, AllCompatible;
    RowIgnoresOrder(key, p, q, p[0].leader, p[0].rxNs, q[0].leader, q[0].rxNs, truth);
  }

  lemma SameOwn(w: nat, xs: seq<VerifiedShred>, ys: seq<VerifiedShred>, key: SetKey)
    requires SameKeyCompatible(xs) && SameKeyCompatible(ys) && forall x :: x in xs <==> x in ys
    ensures var p, q := Own(w, Shreds(xs), |xs|, key), Own(w, Shreds(ys), |ys|, key);
      && AllCompatible(p) && AllCompatible(q)
      && (forall x :: x in p <==> x in q)
      && (p == [] <==> q == [])
  {
    hide Run, Own, SameKeyCompatible, AllCompatible;
    OwnOf(w, xs, |xs|, key);
    OwnOf(w, ys, |ys|, key);
    OwnCompatible(w, xs, |xs|, key);
    OwnCompatible(w, ys, |ys|, key);
    forall x ensures Came(xs, |xs|, x) <==> Came(ys, |ys|, x) {
      assert Came(xs, |xs|, x) <==> x in xs;
      assert Came(ys, |ys|, x) <==> x in ys;
    }
    var p, q := Own(w, Shreds(xs), |xs|, key), Own(w, Shreds(ys), |ys|, key);
    assert |p| > 0 ==> p[0] in p && p[0] in q;
    assert |q| > 0 ==> q[0] in q && q[0] in p;
  }

  lemma SameTruth(w: nat, xs: seq<VerifiedShred>, ys: seq<VerifiedShred>, hash: TruthKey -> Hash)
    requires SameKeyCompatible(xs) && SameKeyCompatible(ys) && TruthIs(xs, hash)
    requires forall x :: x in xs <==> x in ys
    ensures Run(w, Shreds(xs), |xs|).truth == Run(w, Shreds(ys), |ys|).truth
  {
    assert TruthIs(ys, hash) by {
      assert forall i | 0 <= i < |ys| :: ys[i] in xs;
    }
    TruthOf(w, xs, |xs|, hash);
    TruthOf(w, ys, |ys|, hash);
    hide Run, SameKeyCompatible, TruthIs;
    forall key ensures Shown(xs, |xs|, key) <==> Shown(ys, |ys|, key) {
      assert forall i | 0 <= i < |xs| :: xs[i] in ys;
      assert forall i | 0 <= i < |ys| :: ys[i] in xs;
    }
  }
}
