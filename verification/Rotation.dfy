/** The shuffle bag that rotates through the filter bundles, and the reservoir that shares its generator. */
module Rotation {
  /** The state of the xorshift generator, wrapped so that proofs can hide its bits. */
  datatype Rng = Rng(bits: bv64)

  function Left13(r: Rng): Rng { Rng(r.bits ^ (r.bits << 13)) }

  function Right7(r: Rng): Rng { Rng(r.bits ^ (r.bits >> 7)) }

  function Left17(r: Rng): Rng { Rng(r.bits ^ (r.bits << 17)) }

  function XorShift(r: Rng): Rng { Left17(Right7(Left13(r))) }

  predicate NonZero(r: Rng) { r.bits != 0 }

  /** `seed.wrapping_mul(0x9E37_79B9_7F4A_7C15) | 1` */
  function Seeded(seed: bv64): Rng { Rng((seed * 0x9E37_79B9_7F4A_7C15) | 1) }

  function Value(r: Rng): nat { r.bits as nat }

  lemma Left13NonZero(r: Rng)
    requires NonZero(r)
    ensures NonZero(Left13(r))
  {}

  lemma Right7NonZero(r: Rng)
    requires NonZero(r)
    ensures NonZero(Right7(r))
  {}

  lemma Left17NonZero(r: Rng)
    requires NonZero(r)
    ensures NonZero(Left17(r))
  {}

  /** The generator never falls into zero, from which it would not come back. */
  lemma NeverZero(r: Rng)
    ensures NonZero(r) ==> NonZero(XorShift(r))
  {
    hide NonZero, Left13, Right7, Left17;
    if NonZero(r) {
      Left13NonZero(r);
      Right7NonZero(Left13(r));
      Left17NonZero(Right7(Left13(r)));
    }
  }

  lemma SeedNonZero(seed: bv64)
    ensures NonZero(Seeded(seed))
  {
    OddNonZero(seed * 0x9E37_79B9_7F4A_7C15);
  }

  lemma OddNonZero(x: bv64)
    ensures x | 1 != 0
  {}

  // ----- the bag -----

  datatype Bag = Bag(items: seq<nat>, rng: Rng)

  function Ids(n: nat): (r: seq<nat>)
    ensures |r| == n && forall i | 0 <= i < n :: r[i] == i
  {
    seq(n, i => i)
  }

  function Swapped(s: seq<nat>, i: nat, j: nat): seq<nat>
    requires i < |s| && j < |s|
  {
    s[i := s[j]][j := s[i]]
  }

  /** The shuffle with places `i` and above already settled. */
  function Shuffled(b: Bag, i: nat): (after: Bag)
    requires i <= |b.items|
    ensures |after.items| == |b.items|
    decreases i
  {
    if i <= 1 then b else
    var rng := XorShift(b.rng);
    Shuffled(Bag(Swapped(b.items, i - 1, Value(rng) % i), rng), i - 1)
  }

  function Refilled(b: Bag, n: nat): (after: Bag)
    ensures |after.items| == if b.items == [] then n else |b.items|
  {
    if b.items == [] then Shuffled(Bag(Ids(n), b.rng), n) else b
  }

  datatype Draw = Draw(bundle: nat, secs: nat)

  function NextDraw(b: Bag, n: nat, minSecs: nat, maxSecs: nat): (Bag, Draw)
    requires n > 0 && minSecs <= maxSecs
  {
    var full := Refilled(b, n);
    var rng := XorShift(full.rng);
    (Bag(full.items[..|full.items| - 1], rng),
     Draw(full.items[|full.items| - 1], minSecs + Value(rng) % (maxSecs - minSecs + 1)))
  }

  lemma SwapKeeps(s: seq<nat>, i: nat, j: nat)
    requires i < |s| && j < |s|
    ensures multiset(Swapped(s, i, j)) == multiset(s)
  {}

  lemma {:induction false} ShuffleKeeps(b: Bag, i: nat)
    requires i <= |b.items|
    ensures multiset(Shuffled(b, i).items) == multiset(b.items)
    ensures NonZero(b.rng) ==> NonZero(Shuffled(b, i).rng)
    decreases i
  {
    hide XorShift, Value, NonZero, Swapped;
    if i > 1 {
      var rng := XorShift(b.rng);
      NeverZero(b.rng);
      SwapKeeps(b.items, i - 1, Value(rng) % i);
      ShuffleKeeps(Bag(Swapped(b.items, i - 1, Value(rng) % i), rng), i - 1);
    }
  }

  // ----- the rotation -----

  class Rotator {
    const bundles: nat
    const minSecs: nat
    const maxSecs: nat
    var bag: seq<nat>
    var rng: Rng

    ghost function View(): Bag
      reads this
    {
      Bag(bag, rng)
    }

    constructor (bundles: nat, minSecs: nat, maxSecs: nat, seed: bv64)
      ensures this.bundles == bundles && this.minSecs == minSecs && this.maxSecs == maxSecs
      ensures View() == Bag([], Seeded(seed))
    {
      this.bundles, this.minSecs, this.maxSecs, bag, rng := bundles, minSecs, maxSecs, [], Seeded(seed);
    }

    method NextU64() returns (v: nat)
      modifies this`rng
      ensures rng == XorShift(old(rng)) && v == Value(rng)
    {
      hide Value, Left13, Right7, Left17;
      rng := Left13(rng);
      rng := Right7(rng);
      rng := Left17(rng);
      v := Value(rng);
    }

    method Next() returns (draw: Draw)
      requires bundles > 0 && minSecs <= maxSecs
      modifies this
      ensures (View(), draw) == NextDraw(old(View()), bundles, minSecs, maxSecs)
    {
      hide Shuffled, XorShift, Value;
      if bag == [] {
        bag := seq(bundles, i => i);
        assert bag == Ids(bundles);
        Shuffle();
      }
      var last := bag[|bag| - 1];
      bag := bag[..|bag| - 1];
      var v := NextU64();
      draw := Draw(last, minSecs + v % (maxSecs - minSecs + 1));
    }

    method Shuffle()
      modifies this
      ensures View() == Shuffled(old(View()), |old(bag)|)
    {
      hide XorShift, Value, NonZero;
      var i: nat := |bag|;
      while i > 1
        invariant i <= |bag| && Shuffled(View(), i) == Shuffled(old(View()), |old(bag)|)
      {
        i := i - 1;
        var v := NextU64();
        var j := v % (i + 1);
        bag := bag[i := bag[j]][j := bag[i]];
      }
    }
  }

  // ----- runs -----

  /** The bag after `k` calls. */
  function Run(b: Bag, n: nat, lo: nat, hi: nat, k: nat): Bag
    requires n > 0 && lo <= hi
  {
    if k == 0 then b else NextDraw(Run(b, n, lo, hi, k - 1), n, lo, hi).0
  }

  function Draws(b: Bag, n: nat, lo: nat, hi: nat, k: nat): seq<Draw>
    requires n > 0 && lo <= hi
  {
    if k == 0 then [] else Draws(b, n, lo, hi, k - 1) + [NextDraw(Run(b, n, lo, hi, k - 1), n, lo, hi).1]
  }

  function Bundles(ds: seq<Draw>): seq<nat> { seq(|ds|, i requires 0 <= i < |ds| => ds[i].bundle) }

  lemma NextLaws(b: Bag, n: nat, lo: nat, hi: nat)
    requires n > 0 && lo <= hi
    ensures var (after, d) := NextDraw(b, n, lo, hi);
      && lo <= d.secs <= hi
      && |after.items| == (if b.items == [] then n else |b.items|) - 1
      && multiset(after.items) + multiset{d.bundle} == (if b.items == [] then multiset(Ids(n)) else multiset(b.items))
      && (NonZero(b.rng) ==> NonZero(after.rng))
  {
    hide XorShift, Value, NonZero, Shuffled;
    ShuffleKeeps(Bag(Ids(n), b.rng), n);
    var full := Refilled(b, n);
    NeverZero(full.rng);
    assert full.items == full.items[..|full.items| - 1] + [full.items[|full.items| - 1]];
  }

  /** The first `k` of the n draws from an empty bag, and what is left in it, are all the bundles. */
  lemma {:induction false} DrawnAndLeft(b: Bag, n: nat, lo: nat, hi: nat, k: nat)
    requires n > 0 && lo <= hi && b.items == [] && 0 < k <= n
    ensures |Run(b, n, lo, hi, k).items| == n - k && |Draws(b, n, lo, hi, k)| == k
    ensures multiset(Bundles(Draws(b, n, lo, hi, k))) + multiset(Run(b, n, lo, hi, k).items) == multiset(Ids(n))
  {
    hide NextDraw;
    NextLaws(Run(b, n, lo, hi, k - 1), n, lo, hi);
    var d := NextDraw(Run(b, n, lo, hi, k - 1), n, lo, hi).1;
    var before := Draws(b, n, lo, hi, k - 1);
    BundlesMore(before, d);
    if k == 1 {
      assert before == [];
    } else {
      DrawnAndLeft(b, n, lo, hi, k - 1);
    }
  }

  lemma BundlesMore(ds: seq<Draw>, d: Draw)
    ensures multiset(Bundles(ds + [d])) == multiset(Bundles(ds)) + multiset{d.bundle}
  {
    assert Bundles(ds + [d]) == Bundles(ds) + [d.bundle];
  }

  lemma {:induction false} RunSplits(b: Bag, n: nat, lo: nat, hi: nat, j: nat, k: nat)
    requires n > 0 && lo <= hi
    ensures Run(b, n, lo, hi, j + k) == Run(Run(b, n, lo, hi, j), n, lo, hi, k)
    ensures Draws(b, n, lo, hi, j + k) == Draws(b, n, lo, hi, j) + Draws(Run(b, n, lo, hi, j), n, lo, hi, k)
    decreases k
  {
    hide NextDraw;
    if k > 0 {
      RunSplits(b, n, lo, hi, j, k - 1);
    }
  }

  lemma {:induction false} DrawsLength(b: Bag, n: nat, lo: nat, hi: nat, k: nat)
    requires n > 0 && lo <= hi
    ensures |Draws(b, n, lo, hi, k)| == k
  {
    hide NextDraw;
    if k > 0 {
      DrawsLength(b, n, lo, hi, k - 1);
    }
  }

  lemma {:induction false} OfEachOne(n: nat, bundle: nat)
    ensures multiset(Ids(n))[bundle] == if bundle < n then 1 else 0
  {
    if n > 0 {
      OfEachOne(n - 1, bundle);
      assert Ids(n) == Ids(n - 1) + [n - 1];
    }
  }

  /** After any number of full rounds the bag is empty again. */
  lemma {:induction false} RoundsEmpty(b: Bag, n: nat, lo: nat, hi: nat, rounds: nat)
    requires n > 0 && lo <= hi && b.items == []
    ensures Run(b, n, lo, hi, rounds * n).items == []
  {
    hide Run, Draws;
    if rounds == 0 {
      RunNone(b, n, lo, hi);
    } else {
      var before: nat := (rounds - 1) * n;
      OneRoundMore(rounds, n);
      RoundsEmpty(b, n, lo, hi, rounds - 1);
      RunSplits(b, n, lo, hi, before, n);
      DrawnAndLeft(Run(b, n, lo, hi, before), n, lo, hi, n);
    }
  }

  lemma RunNone(b: Bag, n: nat, lo: nat, hi: nat)
    requires n > 0 && lo <= hi
    ensures Run(b, n, lo, hi, 0) == b
  {}

  lemma OneRoundMore(rounds: nat, n: nat)
    requires rounds > 0
    ensures (rounds - 1) * n + n == rounds * n && (rounds - 1) * n >= 0 && 0 * n == 0
  {}

  /**
   Whatever the seed, every round of n calls returns each of the n bundles exactly once, and
   every duration lies between the bounds.
   */
  lemma EveryRoundIsPermutation(seed: bv64, n: nat, lo: nat, hi: nat, round: nat)
    requires n > 0 && lo <= hi
    ensures var ds := Draws(Bag([], Seeded(seed)), n, lo, hi, round * n + n);
      && |ds| == round * n + n
      && multiset(Bundles(ds[round * n..])) == multiset(Ids(n))
  {
    var b := Bag([], Seeded(seed));
    hide Seeded, NextDraw;
    RoundsEmpty(b, n, lo, hi, round);
    RunSplits(b, n, lo, hi, round * n, n);
    DrawsLength(b, n, lo, hi, round * n);
    DrawsLength(b, n, lo, hi, round * n + n);
    var emptied := Run(b, n, lo, hi, round * n);
    DrawnAndLeft(emptied, n, lo, hi, n);
    assert Draws(b, n, lo, hi, round * n + n)[round * n..] == Draws(emptied, n, lo, hi, n);
  }

  /** So in each round every bundle comes exactly once, and nothing else does. */
  lemma EveryBundleOnce(seed: bv64, n: nat, lo: nat, hi: nat, round: nat, bundle: nat)
    requires n > 0 && lo <= hi
    ensures var ds := Draws(Bag([], Seeded(seed)), n, lo, hi, round * n + n);
      |ds| == round * n + n && multiset(Bundles(ds[round * n..]))[bundle] == if bundle < n then 1 else 0
  {
    hide *;
    EveryRoundIsPermutation(seed, n, lo, hi, round);
    OfEachOne(n, bundle);
  }

  /** The generator stays off zero and every duration within its bounds for any number of calls. */
  lemma {:induction false} DurationsBounded(b: Bag, n: nat, lo: nat, hi: nat, k: nat)
    requires n > 0 && lo <= hi
    ensures NonZero(b.rng) ==> NonZero(Run(b, n, lo, hi, k).rng)
    ensures forall d | d in Draws(b, n, lo, hi, k) :: lo <= d.secs <= hi
  {
    hide NextDraw;
    if k > 0 {
      DurationsBounded(b, n, lo, hi, k - 1);
      NextLaws(Run(b, n, lo, hi, k - 1), n, lo, hi);
    }
  }

  /** A draw takes the last of the bag, refilled when it was empty; its duration is the bounds' span hit by the next number. */
  lemma DrawMeans(b: Bag, n: nat, lo: nat, hi: nat)
    requires n > 0 && lo <= hi
    ensures var (after, d) := NextDraw(b, n, lo, hi);
      && d.secs == lo + Value(after.rng) % (hi + 1 - lo)
      && (b.items != [] ==> b.items == after.items + [d.bundle] && after.rng == XorShift(b.rng))
  {
    hide XorShift, Value;
  }

  // ----- the reservoir -----

  datatype Sample = Sample(cap: nat, seen: nat, values: seq<int>, rng: Rng)

  function Pushed(s: Sample, v: int): Sample {
    var t := s.(seen := s.seen + 1);
    if |s.values| < s.cap then t.(values := s.values + [v]) else
    var rng := XorShift(s.rng);
    var j := Value(rng) % t.seen;
    if j < s.cap && j < |s.values| then t.(rng := rng, values := s.values[j := v]) else t.(rng := rng)
  }

  class Reservoir {
    const cap: nat
    var seen: nat
    var values: seq<int>
    var rng: Rng

    ghost function View(): Sample
      reads this
    {
      Sample(cap, seen, values, rng)
    }

    constructor (cap: nat)
      ensures View() == Sample(cap, 0, [], Rng(0x9E37_79B9_7F4A_7C15))
    {
      this.cap, seen, values, rng := cap, 0, [], Rng(0x9E37_79B9_7F4A_7C15);
    }

    method Push(v: int)
      requires |values| <= cap
      modifies this
      ensures View() == Pushed(old(View()), v) && |values| <= cap
    {
      hide XorShift, Value, NonZero;
      seen := seen + 1;
      if |values| < cap {
        values := values + [v];
        return;
      }
      rng := XorShift(rng);
      var j := Value(rng) % seen;
      if j < cap {
        values := values[j := v];
      }
    }
  }

  /**
   A push counts; while there is room the value is appended; after that a number below the count is
   drawn, and the value replaces the one at that place if the reservoir has it.
   */
  lemma PushMeans(s: Sample, v: int)
    requires |s.values| <= s.cap
    ensures var after, place := Pushed(s, v), Value(XorShift(s.rng)) % (s.seen + 1);
      && after.seen == s.seen + 1 && after.cap == s.cap
      && (|s.values| < s.cap ==> after.values == s.values + [v] && after.rng == s.rng)
      && (|s.values| == s.cap ==>
            && after.rng == XorShift(s.rng) && |after.values| == s.cap
            && forall i | 0 <= i < s.cap :: after.values[i] == if i == place then v else s.values[i])
  {
    hide XorShift, Value;
  }

  function PushAll(s: Sample, vs: seq<int>): Sample {
    if vs == [] then s else Pushed(PushAll(s, vs[..|vs| - 1]), vs[|vs| - 1])
  }

  ghost predicate Holds(s: Sample, cap: nat, vs: seq<int>) {
    && s.cap == cap && s.seen == |vs|
    && |s.values| == (if |vs| < cap then |vs| else cap)
    && (forall v | v in s.values :: v in vs)
    && (|vs| <= cap ==> s.values == vs)
  }

  lemma PushedHolds(s: Sample, cap: nat, vs: seq<int>, v: int)
    requires Holds(s, cap, vs)
    ensures Holds(Pushed(s, v), cap, vs + [v])
  {
    hide XorShift, Value;
    var j := Value(XorShift(s.rng)) % (s.seen + 1);
    var kept := if j < |s.values| then s.values[j := v] else s.values;
    forall x | x in kept ensures x in vs + [v] {
    }
  }

  /** A reservoir keeps all values until it is full and then as many as it holds, never one that was not pushed. */
  lemma {:induction false} ReservoirHolds(cap: nat, vs: seq<int>, rng: Rng)
    ensures Holds(PushAll(Sample(cap, 0, [], rng), vs), cap, vs)
  {
    hide Pushed;
    if vs != [] {
      ReservoirHolds(cap, vs[..|vs| - 1], rng);
      PushedHolds(PushAll(Sample(cap, 0, [], rng), vs[..|vs| - 1]), cap, vs[..|vs| - 1], vs[|vs| - 1]);
      assert vs == vs[..|vs| - 1] + [vs[|vs| - 1]];
    }
  }
}
