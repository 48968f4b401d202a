/**
 What the deshredder gives back for the ranges it took: one data set for each range whose
 payloads decode, in order, and one decode error for each of the others.
 */
module Decoding {
  import opened Options
  import opened Shreds
  import opened SlotSpec
  import opened SlotLaws
  import opened RingSpec
  import opened Slots
  import opened ExactlyOnce

  type Decoder = seq<Payload> -> Option<seq<Entry>>

  predicate Decodes(t: Taken, decode: Decoder) { decode(Payloads(t.shreds)).Some? }

  /** How many of the first `n` ranges decode. */
  function Decodable(taken: seq<Taken>, decode: Decoder, n: nat): (r: nat)
    requires n <= |taken|
    ensures r <= n
  {
    if n == 0 then 0 else Decodable(taken, decode, n - 1) + if Decodes(taken[n - 1], decode) then 1 else 0
  }

  /** `x` is the data set of the range: its slot, its first and last index, and its entries. */
  ghost predicate IsDataSet(t: Taken, decode: Decoder, x: CompletedDataSet) {
    && x.slot == t.slot
    && x.startShredIndex == t.start
    && x.endShredIndex == t.end
    && decode(Payloads(t.shreds)) == Some(x.entries)
  }

  /** `sets` are, in order, the data sets of the ranges that decode, and of no other. */
  ghost predicate ComesBack(taken: seq<Taken>, decode: Decoder, sets: seq<CompletedDataSet>) {
    && |sets| == Decodable(taken, decode, |taken|)
    && forall i | 0 <= i < |taken| && Decodes(taken[i], decode) ::
         var at := Decodable(taken, decode, i);
         at < |sets| && IsDataSet(taken[i], decode, sets[at])
  }

  /** The ranges the codec refuses. */
  ghost function Refused(taken: seq<Taken>, decode: Decoder): (r: set<nat>)
    ensures forall i: nat :: i in r <==> i < |taken| && decode(Payloads(taken[i].shreds)) == None
  {
    set i: nat | i < |taken| && decode(Payloads(taken[i].shreds)) == None
  }

  lemma {:induction false} DecodableConcat(a: seq<Taken>, b: seq<Taken>, decode: Decoder, n: nat)
    requires n <= |b|
    ensures n == 0 ==> forall i: nat | i <= |a| :: Decodable(a + b, decode, i) == Decodable(a, decode, i)
    ensures Decodable(a + b, decode, |a| + n) == Decodable(a, decode, |a|) + Decodable(b, decode, n)
  {
    hide Decodes;
    if n == 0 {
      DecodablePrefix(a, b, decode, |a|);
    } else {
      DecodableConcat(a, b, decode, n - 1);
    }
  }

  lemma {:induction false} DecodablePrefix(a: seq<Taken>, b: seq<Taken>, decode: Decoder, n: nat)
    requires n <= |a|
    ensures forall i: nat | i <= n :: Decodable(a + b, decode, i) == Decodable(a, decode, i)
  {
    hide Decodes;
    if n > 0 {
      DecodablePrefix(a, b, decode, n - 1);
    }
  }

  /** What comes back of two lists of ranges is what comes back of each. */
  lemma BothComeBack(a: seq<Taken>, b: seq<Taken>, decode: Decoder, xs: seq<CompletedDataSet>, ys: seq<CompletedDataSet>)
    requires ComesBack(a, decode, xs) && ComesBack(b, decode, ys)
    ensures ComesBack(a + b, decode, xs + ys)
  {
    hide IsDataSet, Decodes;
    forall i | 0 <= i < |a + b| && Decodes((a + b)[i], decode)
      ensures var at := Decodable(a + b, decode, i); at < |xs + ys| && IsDataSet((a + b)[i], decode, (xs + ys)[at])
    {
      if i < |a| {
        DecodablePrefix(a, b, decode, |a|);
        assert (xs + ys)[Decodable(a, decode, i)] == xs[Decodable(a, decode, i)];
      } else {
        DecodableConcat(a, b, decode, i - |a|);
      }
    }
    DecodableConcat(a, b, decode, |b|);
  }

  lemma BothRefused(a: seq<Taken>, b: seq<Taken>, decode: Decoder)
    ensures |Refused(a + b, decode)| == |Refused(a, decode)| + |Refused(b, decode)|
  {
    var moved := set i | i in Refused(b, decode) :: |a| + i;
    assert Refused(a + b, decode) == Refused(a, decode) + moved by {
      forall i | i in Refused(a + b, decode) && i >= |a| ensures i in moved {
        assert (a + b)[i] == b[i - |a|];
        assert i - |a| in Refused(b, decode);
      }
    }
    MovedSize(Refused(b, decode), |a|);
  }

  lemma {:induction false} MovedSize(s: set<nat>, d: nat)
    ensures |set i | i in s :: d + i| == |s|
  {
    if x :| x in s {
      MovedSize(s - {x}, d);
      MovedOne(s, d, x);
    }
  }

  lemma MovedOne(s: set<nat>, d: nat, x: nat)
    requires x in s
    ensures var rest := set i | i in s - {x} :: d + i; (set i | i in s :: d + i) == rest + {d + x} && d + x !in rest
  {
    var rest := set i | i in s - {x} :: d + i;
    forall i | i in s ensures d + i in rest + {d + x} {
      assert i == x || i in s - {x};
    }
  }

  lemma NothingBack(decode: Decoder)
    ensures ComesBack([], decode, []) && Refused([], decode) == {}
  {}

  /** One more range: its data set comes back, or it is refused. */
  lemma OneMore(taken: seq<Taken>, t: Taken, decode: Decoder, sets: seq<CompletedDataSet>)
    requires ComesBack(taken, decode, sets)
    ensures match Decoded(t, decode)
      case None => ComesBack(taken + [t], decode, sets) && |Refused(taken + [t], decode)| == |Refused(taken, decode)| + 1
      case Some(x) => ComesBack(taken + [t], decode, sets + [x]) && |Refused(taken + [t], decode)| == |Refused(taken, decode)|
  {
    OneBack(t, decode);
    hide ComesBack, Refused;
    match Decoded(t, decode)
    case None =>
      BothComeBack(taken, [t], decode, sets, []);
      BothRefused(taken, [t], decode);
      assert sets + [] == sets;
    case Some(x) =>
      BothComeBack(taken, [t], decode, sets, [x]);
      BothRefused(taken, [t], decode);
  }

  lemma OneBack(t: Taken, decode: Decoder)
    ensures match decode(Payloads(t.shreds))
      case None => ComesBack([t], decode, []) && Refused([t], decode) == {0}
      case Some(entries) =>
        ComesBack([t], decode, [CompletedDataSet(t.slot, t.start, t.end, entries)]) && Refused([t], decode) == {}
  {
    assert Decodable([t], decode, 0) == 0;
    assert Decodable([t], decode, 1) == if Decodes(t, decode) then 1 else 0;
  }

  /** Every data set given back is that of one of the ranges, and they are in the same order. */
  lemma {:induction false} BackFrom(taken: seq<Taken>, decode: Decoder, sets: seq<CompletedDataSet>, n: nat, j: nat)
    requires ComesBack(taken, decode, sets) && n <= |taken| && j < Decodable(taken, decode, n)
    ensures exists i :: 0 <= i < n && Decodes(taken[i], decode) && Decodable(taken, decode, i) == j
  {
    hide ComesBack, Decodes;
    if Decodable(taken, decode, n - 1) == j {
      assert Decodes(taken[n - 1], decode);
    } else {
      BackFrom(taken, decode, sets, n - 1, j);
    }
  }

  /** What comes back is no choice: the ranges and the codec settle it. */
  lemma ComesBackUnique(taken: seq<Taken>, decode: Decoder, xs: seq<CompletedDataSet>, ys: seq<CompletedDataSet>)
    requires ComesBack(taken, decode, xs) && ComesBack(taken, decode, ys)
    ensures xs == ys
  {
    hide Decodable, Decodes;
    forall j | 0 <= j < |xs| ensures xs[j] == ys[j] {
      BackFrom(taken, decode, xs, |taken|, j);
    }
  }

  // ----- over a run -----

  function Concat(batches: seq<seq<CompletedDataSet>>): seq<CompletedDataSet> {
    if batches == [] then [] else Concat(batches[..|batches| - 1]) + batches[|batches| - 1]
  }

  function Sum(ns: seq<nat>): nat { if ns == [] then 0 else Sum(ns[..|ns| - 1]) + ns[|ns| - 1] }

  /** Each insertion of a run gave back what comes back of the ranges it took, and `errors` it could not decode. */
  ghost predicate GaveBack(shreds: seq<Shred>, codec: Codec, batches: seq<seq<CompletedDataSet>>, errors: seq<nat>) {
    && |batches| == |errors| == |shreds|
    && forall n | 0 <= n < |shreds| ::
         var taken := InsertRing(RunRing(shreds, n, codec.recover), shreds[n], codec.recover).taken;
         ComesBack(taken, codec.decode, batches[n]) && errors[n] == |Refused(taken, codec.decode)|
  }

  lemma {:induction false} RunComesBack(shreds: seq<Shred>, n: nat, codec: Codec, batches: seq<seq<CompletedDataSet>>, errors: seq<nat>)
    requires GaveBack(shreds, codec, batches, errors) && n <= |shreds|
    ensures ComesBack(LogRing(shreds, n, codec.recover), codec.decode, Concat(batches[..n]))
    ensures |Refused(LogRing(shreds, n, codec.recover), codec.decode)| == Sum(errors[..n])
  {
    hide ComesBack, InsertRing, RunRing, Refused;
    if n == 0 {
      NothingBack(codec.decode);
    } else {
      RunComesBack(shreds, n - 1, codec, batches, errors);
      assert batches[..n][..n - 1] == batches[..n - 1] && errors[..n][..n - 1] == errors[..n - 1];
      var log := LogRing(shreds, n - 1, codec.recover);
      var taken := InsertRing(RunRing(shreds, n - 1, codec.recover), shreds[n - 1], codec.recover).taken;
      BothComeBack(log, taken, codec.decode, Concat(batches[..n - 1]), batches[n - 1]);
      BothRefused(log, taken, codec.decode);
    }
  }

  /**
   Over any run: the data sets given back are, in order, those of the ranges handed out that
   decode; no shred is in two of them; and the errors count the ranges that do not decode.
   */
  lemma GivenBackOnce(shreds: seq<Shred>, codec: Codec, batches: seq<seq<CompletedDataSet>>, errors: seq<nat>)
    requires GaveBack(shreds, codec, batches, errors)
    ensures var log, sets := LogRing(shreds, |shreds|, codec.recover), Concat(batches);
      && ComesBack(log, codec.decode, sets)
      && Sum(errors) == |Refused(log, codec.decode)|
      && forall j, k | 0 <= j < k < |sets| && sets[j].slot == sets[k].slot ::
           sets[j].endShredIndex < sets[k].startShredIndex || sets[k].endShredIndex < sets[j].startShredIndex
  {
    hide RunRing, LogRing, GaveBack, ComesBack, Refused, Concat, Sum, LogApart;
    RunComesBack(shreds, |shreds|, codec, batches, errors);
    WholeLists(batches, errors);
    LogIsApart(shreds, codec.recover);
    GaveBackLength(shreds, codec, batches, errors);
    Apart(LogRing(shreds, |shreds|, codec.recover), codec.decode, Concat(batches));
  }

  lemma WholeLists(batches: seq<seq<CompletedDataSet>>, errors: seq<nat>)
    ensures batches[..|batches|] == batches && errors[..|errors|] == errors
  {}

  lemma GaveBackLength(shreds: seq<Shred>, codec: Codec, batches: seq<seq<CompletedDataSet>>, errors: seq<nat>)
    requires GaveBack(shreds, codec, batches, errors)
    ensures |batches| == |errors| == |shreds|
  {}

  /** Whole data sets, no shred of a slot in two of them. */
  ghost predicate LogApart(log: seq<Taken>) {
    && (forall k | 0 <= k < |log| :: WholeDataSet(log[k]))
    && forall j, k, i | 0 <= j < k < |log| && log[j].slot == log[k].slot && Contains(log[j], i) :: !Contains(log[k], i)
  }

  lemma LogIsApart(shreds: seq<Shred>, recover: seq<Shred> -> Rebuilt)
    ensures LogApart(LogRing(shreds, |shreds|, recover))
  {
    hide LogRing, RunRing, SlotTotal, EmittedSet;
    HandedOutOnce(shreds, recover);
  }

  lemma Apart(log: seq<Taken>, decode: Decoder, sets: seq<CompletedDataSet>)
    requires ComesBack(log, decode, sets) && LogApart(log)
    ensures forall j, k | 0 <= j < k < |sets| && sets[j].slot == sets[k].slot ::
      sets[j].endShredIndex < sets[k].startShredIndex || sets[k].endShredIndex < sets[j].startShredIndex
  {
    hide Decodable, Decodes, Contains, WholeDataSet;
    forall j, k | 0 <= j < k < |sets| && sets[j].slot == sets[k].slot
      ensures sets[j].endShredIndex < sets[k].startShredIndex || sets[k].endShredIndex < sets[j].startShredIndex
    {
      BackFrom(log, decode, sets, |log|, j);
      BackFrom(log, decode, sets, |log|, k);
      var m :| 0 <= m < |log| && Decodes(log[m], decode) && Decodable(log, decode, m) == j;
      var n :| 0 <= n < |log| && Decodes(log[n], decode) && Decodable(log, decode, n) == k;
      OneOrOther(log, m, n);
    }
  }

  /** Two ranges of the log of one slot lie apart. */
  lemma OneOrOther(log: seq<Taken>, m: nat, n: nat)
    requires m < |log| && n < |log| && m != n && log[m].slot == log[n].slot && LogApart(log)
    ensures log[m].end < log[n].start || log[n].end < log[m].start
  {
    var a, b := if m < n then m else n, if m < n then n else m;
    assert WholeDataSet(log[a]) && WholeDataSet(log[b]);
    assert Contains(log[a], log[a].start) && Contains(log[b], log[b].start);
    assert !Contains(log[b], log[a].start) && !Contains(log[a], log[b].start);
  }
}
