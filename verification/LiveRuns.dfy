/**
 The live scores over a whole run: scoring harvest by harvest gives what scoring all rows at
 once would, every race counts once, and each contested race has a winner.
 */
module LiveRuns {
  import opened Common
  import opened Options
  import opened AggSpec
  import opened AggRuns
  import opened LiveScores

  // ----- two batches without a race in common -----

  lemma Apart(a: seq<SetRow>, b: seq<SetRow>, race: Race)
    requires race !in RacesOf(b)
    ensures Contested(a + b, race) <==> Contested(a, race)
    ensures Contested(b + a, race) <==> Contested(a, race)
  {
    CountAppend(a, b, InRace(race));
    CountAppend(b, a, InRace(race));
    CountNone(b, InRace(race));
  }

  /** The rows of one batch judge each other as they do within both batches. */
  lemma SameJudgement(all: seq<SetRow>, a: seq<SetRow>, b: seq<SetRow>, p: Provider)
    requires all == a + b || all == b + a
    requires RacesOf(a) !! RacesOf(b)
    ensures Count(a, RacedOf(all, p)) == Count(a, RacedOf(a, p))
    ensures Count(a, WonOf(all, p)) == Count(a, WonOf(a, p))
  {
    hide Contested, Decoded;
    forall r | r in a ensures Contested(all, RaceOf(r)) == Contested(a, RaceOf(r)) && Fastest(all, r) == Fastest(a, r) {
      assert RaceOf(r) in RacesOf(a);
      Apart(a, b, RaceOf(r));
      forall x | x in all && RaceOf(x) == RaceOf(r) ensures x in a {
        assert x in b ==> RaceOf(x) in RacesOf(b);
      }
    }
    CountSame(a, RacedOf(all, p), RacedOf(a, p));
    CountSame(a, WonOf(all, p), WonOf(a, p));
  }

  lemma GainAppend(a: seq<SetRow>, b: seq<SetRow>, p: Provider)
    requires RacesOf(a) !! RacesOf(b)
    ensures Gain(a + b, p) == Plus(Gain(a, p), Gain(b, p))
  {
    hide Count, RacedOf, WonOf, IsOf, ValidOf;
    var all := a + b;
    CountAppend(a, b, IsOf(p));
    CountAppend(a, b, ValidOf(p));
    CountAppend(a, b, RacedOf(all, p));
    CountAppend(a, b, WonOf(all, p));
    SameJudgement(all, a, b, p);
    SameJudgement(all, b, a, p);
  }

  lemma RacesAppend(a: seq<SetRow>, b: seq<SetRow>)
    requires RacesOf(a) !! RacesOf(b)
    ensures RacesOf(a + b) == RacesOf(a) + RacesOf(b)
    ensures |RacesOf(a + b)| == |RacesOf(a)| + |RacesOf(b)|
    ensures |ContestedOf(a + b)| == |ContestedOf(a)| + |ContestedOf(b)|
  {
    hide Contested;
    forall race ensures race in RacesOf(a + b) <==> race in RacesOf(a) || race in RacesOf(b) {
      RacesOfAppend(a, b, race);
    }
    forall race ensures race in ContestedOf(a + b) <==> race in ContestedOf(a) || race in ContestedOf(b) {
      if race !in RacesOf(b) { Apart(a, b, race); }
      if race !in RacesOf(a) { Apart(b, a, race); }
    }
    assert ContestedOf(a + b) == ContestedOf(a) + ContestedOf(b) && ContestedOf(a) !! ContestedOf(b);
  }

  lemma RacesOfAppend(a: seq<SetRow>, b: seq<SetRow>, race: Race)
    ensures race in RacesOf(a + b) <==> race in RacesOf(a) || race in RacesOf(b)
  {
    if race in RacesOf(a) {
      var r :| r in a && RaceOf(r) == race;
      assert r in a + b;
    }
    if race in RacesOf(b) {
      var r :| r in b && RaceOf(r) == race;
      assert r in a + b;
    }
  }

  // ----- a ledger of rows, one per provider and set -----

  /** No two rows have the same key. */
  ghost predicate DistinctKeys(rows: seq<SetRow>) {
    forall i, j | 0 <= i < j < |rows| :: rows[i].key != rows[j].key
  }

  ghost function RacesWith(rows: seq<SetRow>, f: SetRow -> bool): set<Race> {
    set r | r in rows && f(r) :: RaceOf(r)
  }

  /** Counting a provider's rows is counting its races. */
  lemma {:induction false} CountIsRaces(rows: seq<SetRow>, p: Provider, f: SetRow -> bool)
    requires DistinctKeys(rows) && forall r | f(r) :: r.key.provider == p
    ensures Count(rows, f) == |RacesWith(rows, f)|
  {
    if rows != [] {
      var front, r := rows[..|rows| - 1], rows[|rows| - 1];
      CountIsRaces(front, p, f);
      assert rows == front + [r];
      if f(r) {
        assert RacesWith(rows, f) == RacesWith(front, f) + {RaceOf(r)};
        forall x | x in front && f(x) ensures RaceOf(x) != RaceOf(r) {
          assert x.key != r.key;
        }
      } else {
        assert RacesWith(rows, f) == RacesWith(front, f);
      }
    }
  }

  /**
   In a ledger, a provider wins at most the races it took part in, which are among the sets it
   decoded, which are among the sets it delivered at all, which are among the sets there were.
   */
  lemma ScoresNest(rows: seq<SetRow>, p: Provider)
    requires DistinctKeys(rows)
    ensures var g := Gain(rows, p);
      && g.wins <= g.races <= g.valid <= g.present <= |RacesOf(rows)|
      && g.races <= |ContestedOf(rows)|
      && g.present == |RacesWith(rows, IsOf(p))|
      && g.valid == |RacesWith(rows, ValidOf(p))|
      && g.races == |RacesWith(rows, RacedOf(rows, p))|
      && g.wins == |RacesWith(rows, WonOf(rows, p))|
  {
    hide Count, Contested, Fastest;
    CountIsRaces(rows, p, IsOf(p));
    CountIsRaces(rows, p, ValidOf(p));
    CountIsRaces(rows, p, RacedOf(rows, p));
    CountIsRaces(rows, p, WonOf(rows, p));
    FastestDecoded(rows);
    CountAtMost(rows, WonOf(rows, p), RacedOf(rows, p));
    CountAtMost(rows, RacedOf(rows, p), ValidOf(p));
    CountAtMost(rows, ValidOf(p), IsOf(p));
    SubsetSize(RacesWith(rows, IsOf(p)), RacesOf(rows));
    SubsetSize(RacesWith(rows, RacedOf(rows, p)), ContestedOf(rows));
  }

  lemma FastestDecoded(rows: seq<SetRow>)
    ensures forall r | Fastest(rows, r) :: Decoded(r)
  {}

  /** A contested race has a winner, and only its earliest decoders win it. */
  lemma ContestedHasWinner(rows: seq<SetRow>, race: Race)
    requires race in ContestedOf(rows)
    ensures exists r :: r in rows && RaceOf(r) == race && WonOf(rows, r.key.provider)(r)
  {
    CountGroup(rows, {}, race, Decoded);
    CountNone(rows, Within({}, Decoded));
    GroupContested(rows, race);
    var group := Group(rows, race);
    GroupMembers(rows, race);
    BestIsLeast(group);
    SomeDecoded(group);
    var r :| r in group && Decoded(r) && r.decodeNs == Best(group);
    FastestIsBest(rows, race, r);
    assert WonOf(rows, r.key.provider)(r);
  }

  lemma {:induction false} SomeDecoded(rows: seq<SetRow>)
    requires Count(rows, Decoded) > 0
    ensures exists r :: r in rows && Decoded(r)
  {
    if Decoded(rows[|rows| - 1]) {
      assert rows[|rows| - 1] in rows;
    } else {
      SomeDecoded(rows[..|rows| - 1]);
      var r :| r in rows[..|rows| - 1] && Decoded(r);
      assert r in rows;
    }
  }

  // ----- whole runs -----

  /** `rows` lists a harvest, each row once. */
  ghost predicate Lists(rows: seq<SetRow>, batch: map<SetKey, SetRow>) {
    && DistinctKeys(rows)
    && (forall r :: r in rows <==> r.key in batch && batch[r.key] == r)
  }

  /** What the harvests of a run hand to the scorer, event by event. */
  ghost predicate Feeds(w: nat, es: seq<Event>, out: seq<seq<SetRow>>) {
    |out| == |es| && forall n | 0 <= n < |es| :: Lists(out[n], Batch(w, es, n))
  }

  function Ledger(out: seq<seq<SetRow>>, n: nat): seq<SetRow>
    requires n <= |out|
  {
    if n == 0 then [] else Ledger(out, n - 1) + out[n - 1]
  }

  /** A provider's score after scoring the first `n` batches one by one. */
  ghost function Score(out: seq<seq<SetRow>>, n: nat, p: Provider): ProviderLive
    requires n <= |out|
  {
    if n == 0 then NONE else Plus(Score(out, n - 1, p), Gain(out[n - 1], p))
  }

  ghost function Sets(out: seq<seq<SetRow>>, n: nat): nat
    requires n <= |out|
  {
    if n == 0 then 0 else Sets(out, n - 1) + |RacesOf(out[n - 1])|
  }

  ghost function Contests(out: seq<seq<SetRow>>, n: nat): nat
    requires n <= |out|
  {
    if n == 0 then 0 else Contests(out, n - 1) + |ContestedOf(out[n - 1])|
  }

  lemma {:induction false} LedgerSource(out: seq<seq<SetRow>>, n: nat, r: SetRow)
    requires n <= |out| && r in Ledger(out, n)
    ensures exists m :: 0 <= m < n && r in out[m]
  {
    if r !in out[n - 1] {
      LedgerSource(out, n - 1, r);
    }
  }

  /** No race of a harvest was in an earlier one. */
  lemma LaterRacesAreNew(w: nat, es: seq<Event>, out: seq<seq<SetRow>>, n: nat)
    requires Feeds(w, es, out) && n < |es|
    ensures RacesOf(Ledger(out, n)) !! RacesOf(out[n])
    ensures forall x, y | x in Ledger(out, n) && y in out[n] :: x.key != y.key
  {
    hide Batch, Ledger;
    forall x, y | x in Ledger(out, n) && y in out[n] ensures x.key.slot < y.key.slot {
      LedgerSource(out, n, x);
      var m :| 0 <= m < n && x in out[m];
      OneBatchPerRace(w, es, m, n, x.key, y.key);
    }
  }

  lemma {:induction false} LedgerDistinct(w: nat, es: seq<Event>, out: seq<seq<SetRow>>, n: nat)
    requires Feeds(w, es, out) && n <= |es|
    ensures DistinctKeys(Ledger(out, n))
  {
    hide Batch;
    if n > 0 {
      LedgerDistinct(w, es, out, n - 1);
      LaterRacesAreNew(w, es, out, n - 1);
      DistinctAppend(Ledger(out, n - 1), out[n - 1]);
    }
  }

  lemma DistinctAppend(a: seq<SetRow>, b: seq<SetRow>)
    requires DistinctKeys(a) && DistinctKeys(b) && forall x, y | x in a && y in b :: x.key != y.key
    ensures DistinctKeys(a + b)
  {
    var all := a + b;
    forall i, j | 0 <= i < j < |all| ensures all[i].key != all[j].key {
      assert i < |a| ==> all[i] == a[i] && a[i] in a;
      assert j >= |a| ==> all[j] == b[j - |a|] && b[j - |a|] in b;
    }
  }

  /**
   Scoring harvest by harvest is scoring the whole ledger at once: because all rows of a race
   leave together, no batch border ever cuts a race in two.
   */
  lemma {:induction false} ScoredAtOnce(w: nat, es: seq<Event>, out: seq<seq<SetRow>>, n: nat, p: Provider)
    requires Feeds(w, es, out) && n <= |es|
    ensures Score(out, n, p) == Gain(Ledger(out, n), p)
    ensures Sets(out, n) == |RacesOf(Ledger(out, n))|
    ensures Contests(out, n) == |ContestedOf(Ledger(out, n))|
  {
    hide Feeds, Gain, ContestedOf, RacesOf, Plus;
    if n == 0 {
      NothingScored(p);
    } else {
      ScoredAtOnce(w, es, out, n - 1, p);
      LaterRacesAreNew(w, es, out, n - 1);
      FeedsLength(w, es, out);
      GainAppend(Ledger(out, n - 1), out[n - 1], p);
      RacesAppend(Ledger(out, n - 1), out[n - 1]);
    }
  }

  lemma FeedsLength(w: nat, es: seq<Event>, out: seq<seq<SetRow>>)
    requires Feeds(w, es, out)
    ensures |out| == |es|
  {}

  lemma NothingScored(p: Provider)
    ensures Gain([], p) == NONE && RacesOf([]) == {} && ContestedOf([]) == {}
  {}

  /**
   The live scores of any run: wins <= races <= valid <= present <= sets, each a count of
   distinct FEC sets.
   */
  lemma LiveScoresNest(w: nat, es: seq<Event>, out: seq<seq<SetRow>>, n: nat, p: Provider)
    requires Feeds(w, es, out) && n <= |es|
    ensures var s := Score(out, n, p);
      && s.wins <= s.races <= s.valid <= s.present <= Sets(out, n)
      && s.races <= Contests(out, n)
      && s.present == |RacesWith(Ledger(out, n), IsOf(p))|
  {
    ScoredAtOnce(w, es, out, n, p);
    LedgerDistinct(w, es, out, n);
    hide *;
    ScoresNest(Ledger(out, n), p);
  }
}
