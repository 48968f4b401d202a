/** Comparing what was delivered for a slot with its block, filter by filter. */
module Comparison {
  import opened Options
  import opened AuditSpec

  /** A transaction of a block and the filters that match it. */
  datatype Tx = Tx(signature: Signature, matching: Mask)

  type Block = seq<Tx>

  datatype Fetched = Found(block: Block) | NoBlock

  /** The signatures delivered under filter `i`. */
  function Tagged(deliveries: Deliveries, i: nat): set<Signature> {
    set s | s in deliveries && i in deliveries[s]
  }

  ghost predicate DistinctSignatures(b: Block) {
    forall j, k | 0 <= j < k < |b| :: b[j].signature != b[k].signature
  }

  /** The block's index: of repeated signatures the last counts. */
  function IndexOf(b: Block): map<Signature, nat> {
    if b == [] then map[] else IndexOf(b[..|b| - 1])[b[|b| - 1].signature := |b| - 1]
  }

  lemma {:induction false} IndexLaws(b: Block)
    ensures forall s :: s in IndexOf(b) <==> exists k :: 0 <= k < |b| && b[k].signature == s
    ensures forall s | s in IndexOf(b) :: IndexOf(b)[s] < |b| && b[IndexOf(b)[s]].signature == s
  {
    if b != [] {
      var front, last := b[..|b| - 1], b[|b| - 1];
      IndexLaws(front);
      forall s ensures s in IndexOf(b) <==> exists k :: 0 <= k < |b| && b[k].signature == s {
        if s in IndexOf(front) {
          var k :| 0 <= k < |front| && front[k].signature == s;
          assert b[k].signature == s;
        }
        if k :| 0 <= k < |b| && b[k].signature == s {
          assert k < |front| ==> front[k].signature == s;
        }
      }
    }
  }

  ghost function Expected(b: Block, i: nat): set<nat> { set k | 0 <= k < |b| && i in b[k].matching }

  ghost function Matched(b: Block, ds: Deliveries, i: nat): set<nat> {
    set k | 0 <= k < |b| && i in b[k].matching && b[k].signature in Tagged(ds, i)
  }

  /** Delivered, in the block, but the filter rejects it there. */
  ghost function ExtraInBlock(b: Block, ds: Deliveries, i: nat): set<Signature> {
    set s | s in Tagged(ds, i) && s in IndexOf(b) && Rejected(b, s, i)
  }

  predicate Rejected(b: Block, s: Signature, i: nat)
    requires s in IndexOf(b)
  {
    IndexOf(b)[s] < |b| && i !in b[IndexOf(b)[s]].matching
  }

  ghost function ExtraNotInBlock(b: Block, ds: Deliveries, i: nat): set<Signature> {
    set s | s in Tagged(ds, i) && s !in IndexOf(b)
  }

  /** The totals of filter `i` for a slot. */
  ghost function TotalsOf(fetched: Fetched, ds: Deliveries, i: nat): CheckTotals {
    var delivered := |Tagged(ds, i)|;
    match fetched
    case NoBlock => CheckTotals(0, delivered, 0, 0, 0, delivered)
    case Found(b) =>
      MatchedExpected(b, ds, i);
      CheckTotals(|Expected(b, i)|, delivered, |Matched(b, ds, i)|, |Expected(b, i)| - |Matched(b, ds, i)|,
                  |ExtraInBlock(b, ds, i)|, |ExtraNotInBlock(b, ds, i)|)
  }

  lemma MatchedExpected(b: Block, ds: Deliveries, i: nat)
    ensures |Matched(b, ds, i)| <= |Expected(b, i)|
  {
    var rest := Expected(b, i) - Matched(b, ds, i);
    assert Expected(b, i) == Matched(b, ds, i) + rest;
  }

  ghost predicate Balanced(t: CheckTotals) {
    t.expected == t.matched + t.missed && t.delivered == t.matched + t.extraInBlock + t.extraNotInBlock
  }

  // ----- the balance -----

  ghost function Image(b: Block, ks: set<nat>): set<Signature> {
    set k | k in ks && k < |b| :: b[k].signature
  }

  lemma {:induction false} ImageSize(b: Block, ks: set<nat>)
    requires forall k | k in ks :: k < |b|
    requires forall j, k | j in ks && k in ks && j != k :: b[j].signature != b[k].signature
    ensures |Image(b, ks)| == |ks|
  {
    if ks != {} {
      var k :| k in ks;
      var rest := ks - {k};
      ImageSize(b, rest);
      assert Image(b, ks) == Image(b, rest) + {b[k].signature};
      assert b[k].signature !in Image(b, rest);
    }
  }

  /** No later transaction of the block has the signature of transaction `k`. */
  predicate LastCopy(b: Block, k: nat)
    requires k < |b|
  {
    forall j | k < j < |b| :: b[j].signature != b[k].signature
  }

  /** The index leads to the last copy of each signature. */
  lemma {:induction false} IndexIsLast(b: Block, k: nat)
    requires k < |b|
    ensures b[k].signature in IndexOf(b)
    ensures LastCopy(b, k) <==> IndexOf(b)[b[k].signature] == k
  {
    IndexLaws(b);
    var front, last := b[..|b| - 1], |b| - 1;
    if k < last {
      IndexIsLast(front, k);
      IndexLaws(front);
      assert front[k] == b[k];
      assert LastCopy(b, k) <==> LastCopy(front, k) && b[last].signature != b[k].signature by {
        assert forall j | k < j < last :: front[j] == b[j];
      }
      hide LastCopy;
    }
  }

  /** The matched transactions that the index leads to. */
  ghost function Indexed(b: Block, ds: Deliveries, i: nat): (r: set<nat>)
    ensures r <= Matched(b, ds, i)
  {
    set k | k in Matched(b, ds, i) && LastCopy(b, k)
  }

  lemma ThreeParts<T>(all: set<T>, a: set<T>, b: set<T>, c: set<T>)
    requires forall x :: x in all <==> x in a || x in b || x in c
    requires a !! b && a !! c && b !! c
    ensures |all| == |a| + |b| + |c|
  {
    assert all == a + b + c;
  }

  lemma HitIsMatch(b: Block, ds: Deliveries, i: nat, s: Signature)
    ensures s in Image(b, Indexed(b, ds, i)) <==> s in Tagged(ds, i) && s in IndexOf(b) && !Rejected(b, s, i)
  {
    IndexLaws(b);
    if s in IndexOf(b) {
      IndexIsLast(b, IndexOf(b)[s]);
      assert s in Tagged(ds, i) && !Rejected(b, s, i) ==> IndexOf(b)[s] in Indexed(b, ds, i);
    }
    forall k | k in Indexed(b, ds, i) ensures b[k].signature in IndexOf(b) && IndexOf(b)[b[k].signature] == k {
      IndexIsLast(b, k);
    }
    hide IndexOf, LastCopy;
  }

  /** The delivered signatures are those matched at their last copy, those rejected there and those not in the block. */
  lemma DeliveredSplits(b: Block, ds: Deliveries, i: nat)
    ensures |Tagged(ds, i)| == |Indexed(b, ds, i)| + |ExtraInBlock(b, ds, i)| + |ExtraNotInBlock(b, ds, i)|
  {
    forall s ensures s in Image(b, Indexed(b, ds, i)) <==> s in Tagged(ds, i) && s in IndexOf(b) && !Rejected(b, s, i) {
      HitIsMatch(b, ds, i, s);
    }
    IndexedDistinct(b, ds, i);
    ImageSize(b, Indexed(b, ds, i));
    hide IndexOf, Image, Indexed, Tagged, Rejected;
    ThreeParts(Tagged(ds, i), Image(b, Indexed(b, ds, i)), ExtraInBlock(b, ds, i), ExtraNotInBlock(b, ds, i));
  }

  lemma IndexedDistinct(b: Block, ds: Deliveries, i: nat)
    ensures forall k | k in Indexed(b, ds, i) :: k < |b|
    ensures forall j, k | j in Indexed(b, ds, i) && k in Indexed(b, ds, i) && j != k :: b[j].signature != b[k].signature
  {
    hide Tagged;
  }

  /**
   For any block: every expected transaction was matched or missed; and every delivered one is
   matched, or in the block against the filter, or not in the block, exactly when no matched
   transaction's signature comes again later in the block.
   */
  lemma BalancedIffNoRepeat(b: Block, ds: Deliveries, i: nat)
    ensures TotalsOf(Found(b), ds, i).expected == TotalsOf(Found(b), ds, i).matched + TotalsOf(Found(b), ds, i).missed
    ensures Balanced(TotalsOf(Found(b), ds, i)) <==> forall k | k in Matched(b, ds, i) :: LastCopy(b, k)
  {
    DeliveredSplits(b, ds, i);
    MatchedExpected(b, ds, i);
    var all, last := Matched(b, ds, i), Indexed(b, ds, i);
    assert last == all <==> forall k | k in all :: LastCopy(b, k);
    assert all == last + (all - last);
    assert |all| == |last| <==> all == last;
    hide Matched, Expected, ExtraInBlock, ExtraNotInBlock, Tagged, Indexed, LastCopy;
  }

  /**
   Blocks with distinct signatures balance, whatever was delivered; so does a slot without a block.
   */
  lemma ComparisonBalances(fetched: Fetched, ds: Deliveries, i: nat)
    requires fetched.Found? ==> DistinctSignatures(fetched.block)
    ensures Balanced(TotalsOf(fetched, ds, i))
  {
    if fetched.Found? {
      BalancedIffNoRepeat(fetched.block, ds, i);
      hide TotalsOf, Tagged;
    }
  }

  /** A block that repeats a signature is out of balance: both copies count as matched. */
  lemma RepeatedSignatureUnbalances()
    ensures !Balanced(TotalsOf(Found([Tx(7, {0}), Tx(7, {0})]), map[7 := {0}], 0))
  {
    var b, ds: Deliveries := [Tx(7, {0}), Tx(7, {0})], map[7 := {0}];
    BalancedIffNoRepeat(b, ds, 0);
    hide TotalsOf;
    assert 0 in Matched(b, ds, 0) && b[1].signature == b[0].signature;
  }

  // ----- the comparison itself -----

  ghost function Below(s: set<nat>, k: nat): set<nat> { set j | j in s && j < k }

  lemma BelowStep(s: set<nat>, k: nat)
    ensures |Below(s, k + 1)| == |Below(s, k)| + (if k in s then 1 else 0)
    ensures |Below(s, 0)| == 0
    ensures (forall j | j in s :: j < k) ==> Below(s, k) == s
  {
    assert Below(s, 0) == {};
    assert Below(s, k + 1) == Below(s, k) + if k in s then {k} else {};
  }

  method CountBlock(b: Block, ds: Deliveries, i: nat) returns (expected: nat, matched: nat, missed: nat)
    ensures expected == |Expected(b, i)| && matched == |Matched(b, ds, i)| && missed == expected - matched
  {
    hide Below;
    expected, matched, missed := 0, 0, 0;
    ghost var all, hits := Expected(b, i), Matched(b, ds, i);
    BelowStep(all, 0);
    BelowStep(hits, 0);
    for k := 0 to |b|
      invariant expected == |Below(all, k)| && matched == |Below(hits, k)| && missed == expected - matched
    {
      BelowStep(all, k);
      BelowStep(hits, k);
      if i in b[k].matching {
        expected := expected + 1;
        if b[k].signature in ds && i in ds[b[k].signature] {
          matched := matched + 1;
        } else {
          missed := missed + 1;
        }
      }
    }
    BelowStep(all, |b|);
    BelowStep(hits, |b|);
  }

  lemma TakeOne<T>(s: set<T>, todo: set<T>, x: T)
    requires x in todo
    ensures |s - (todo - {x})| == |s - todo| + if x in s then 1 else 0
    ensures s - {} == s && (s <= todo ==> s - todo == {})
  {
    assert s - (todo - {x}) == (s - todo) + if x in s then {x} else {};
  }

  method CountExtra(b: Block, ds: Deliveries, i: nat, delivered: set<Signature>) returns (inBlock: nat, notInBlock: nat)
    requires delivered == Tagged(ds, i)
    ensures inBlock == |ExtraInBlock(b, ds, i)| && notInBlock == |ExtraNotInBlock(b, ds, i)|
  {
    IndexLaws(b);
    var index := IndexOf(b);
    hide IndexOf, Tagged;
    inBlock, notInBlock := 0, 0;
    var todo := delivered;
    ghost var inSet, notSet := ExtraInBlock(b, ds, i), ExtraNotInBlock(b, ds, i);
    assert inSet - todo == {} && notSet - todo == {};
    while todo != {}
      invariant todo <= delivered
      invariant inBlock == |inSet - todo| && notInBlock == |notSet - todo|
      decreases todo
    {
      var s :| s in todo;
      TakeOne(inSet, todo, s);
      TakeOne(notSet, todo, s);
      if s !in index {
        notInBlock := notInBlock + 1;
      } else if i !in b[index[s]].matching {
        inBlock := inBlock + 1;
      }
      todo := todo - {s};
    }
    assert inSet - todo == inSet && notSet - todo == notSet;
  }

  method CompareFilter(fetched: Fetched, ds: Deliveries, i: nat) returns (t: CheckTotals)
    ensures t == TotalsOf(fetched, ds, i)
  {
    var delivered := set s | s in ds && i in ds[s];
    match fetched {
      case NoBlock =>
        t := CheckTotals(0, |delivered|, 0, 0, 0, |delivered|);
      case Found(b) =>
        var expected, matched, missed := CountBlock(b, ds, i);
        var inBlock, notInBlock := CountExtra(b, ds, i, delivered);
        t := CheckTotals(expected, |delivered|, matched, missed, inBlock, notInBlock);
    }
  }

  /** The totals of every filter of a bundle. */
  ghost function Results(fetched: Fetched, ds: Deliveries, filters: nat): seq<CheckTotals> {
    seq(filters, i => if 0 <= i then TotalsOf(fetched, ds, i) else NO_TOTALS)
  }

  method Compare(fetched: Fetched, ds: Deliveries, filters: nat) returns (results: seq<CheckTotals>)
    ensures results == Results(fetched, ds, filters)
  {
    results := [];
    for i := 0 to filters
      invariant |results| == i && forall k: nat | k < i :: results[k] == TotalsOf(fetched, ds, k)
    {
      var t := CompareFilter(fetched, ds, i);
      results := results + [t];
    }
  }

  // ----- windows sum up balanced totals -----

  ghost predicate TotalsOk(w: Window) {
    |w.totals| == w.filters && forall i | 0 <= i < |w.totals| :: Balanced(w.totals[i])
  }

  /** Adding the results of a comparison keeps a window's totals balanced. */
  lemma TotalsStayBalanced(w: Window, fetched: Fetched, ds: Deliveries)
    requires TotalsOk(w) && (fetched.Found? ==> DistinctSignatures(fetched.block))
    ensures TotalsOk(Settle(w, Checked(Results(fetched, ds, w.filters))))
    ensures TotalsOk(Settle(w, Skipped(Results(fetched, ds, w.filters))))
    ensures TotalsOk(Settle(w, Unchecked)) && TotalsOk(NewWindow(w.commitmentLag, w.filters))
  {
    hide TotalsOf;
    forall i: nat | i < w.filters ensures Balanced(TotalsOf(fetched, ds, i)) {
      ComparisonBalances(fetched, ds, i);
    }
  }
}
