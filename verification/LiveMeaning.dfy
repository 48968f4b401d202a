/** The live scores by the rows alone: a race is two valid decodes of one FEC set, and the earliest wins. */
module LiveMeaning {
  import opened Options
  import opened AggSpec
  import opened AggRuns
  import opened LiveScores
  import opened LiveRuns

  /** Row `i` is valid and has a decode time. */
  ghost predicate Ran(rows: seq<SetRow>, i: nat) { i < |rows| && rows[i].isValid && rows[i].decodeNs.Some? }

  ghost predicate SameSet(a: SetRow, b: SetRow) { a.key.slot == b.key.slot && a.key.fec == b.key.fec }

  /** Another row of the same FEC set ran too. */
  ghost predicate Raced(rows: seq<SetRow>, i: nat) {
    Ran(rows, i) && exists j: nat :: j != i && Ran(rows, j) && SameSet(rows[j], rows[i])
  }

  /** It raced and none of the same FEC set was earlier. */
  ghost predicate Won(rows: seq<SetRow>, i: nat) {
    && Raced(rows, i)
    && forall j: nat | Ran(rows, j) && SameSet(rows[j], rows[i]) :: rows[i].decodeNs.value <= rows[j].decodeNs.value
  }

  ghost function RowsOf(rows: seq<SetRow>, p: Provider): set<nat> { set i: nat | i < |rows| && rows[i].key.provider == p }

  ghost function RanOf(rows: seq<SetRow>, p: Provider): set<nat> { set i: nat | i < |rows| && rows[i].key.provider == p && Ran(rows, i) }

  ghost function RacedBy(rows: seq<SetRow>, p: Provider): set<nat> { set i: nat | i < |rows| && rows[i].key.provider == p && Raced(rows, i) }

  ghost function WonBy(rows: seq<SetRow>, p: Provider): set<nat> { set i: nat | i < |rows| && rows[i].key.provider == p && Won(rows, i) }

  /** The FEC sets that two rows ran for. */
  ghost predicate IsRace(rows: seq<SetRow>, race: Race) {
    exists i: nat, j: nat :: i < j && Ran(rows, i) && Ran(rows, j)
      && rows[i].key.slot == race.slot && rows[i].key.fec == race.fec && SameSet(rows[j], rows[i])
  }

  // ----- counts are sizes -----

  ghost function Passing(rows: seq<SetRow>, f: SetRow -> bool): set<nat> { set i: nat | i < |rows| && f(rows[i]) }

  lemma {:induction false} CountIsSize(rows: seq<SetRow>, f: SetRow -> bool)
    ensures Count(rows, f) == |Passing(rows, f)|
  {
    if rows != [] {
      var front, n := rows[..|rows| - 1], |rows| - 1;
      CountIsSize(front, f);
      assert Passing(rows, f) == Passing(front, f) + if f(rows[n]) then {n} else {};
    } else {
      assert Passing(rows, f) == {};
    }
  }

  lemma TwoMembers(s: set<nat>)
    ensures |s| >= 2 <==> exists i, j :: i in s && j in s && i < j
  {
    if |s| >= 2 {
      var i :| i in s;
      var rest := s - {i};
      assert |rest| == |s| - 1;
      var j :| j in rest;
      assert i < j || j < i;
    }
    if i, j :| i in s && j in s && i < j {
      assert {i, j} <= s;
      Two(i, j, s);
    }
  }

  lemma Two(i: nat, j: nat, s: set<nat>)
    requires i < j && {i, j} <= s
    ensures |s| >= 2
  {
    assert s == {i, j} + (s - {i, j});
  }

  /** A contested race is one that two rows ran for. */
  lemma ContestedMeans(rows: seq<SetRow>, race: Race)
    ensures Contested(rows, race) <==> IsRace(rows, race)
  {
    CountIsSize(rows, InRace(race));
    TwoMembers(Passing(rows, InRace(race)));
    RacersMean(rows, race);
    hide Count, Passing, Ran;
    assert forall i: nat, j: nat | i in Passing(rows, InRace(race)) && j in Passing(rows, InRace(race)) :: SameSet(rows[j], rows[i]);
  }

  lemma RacersMean(rows: seq<SetRow>, race: Race)
    ensures forall i: nat :: i in Passing(rows, InRace(race)) <==> Ran(rows, i) && rows[i].key.slot == race.slot && rows[i].key.fec == race.fec
    ensures forall i: nat | i in Passing(rows, InRace(race)) :: i < |rows|
  {}

  lemma RacedMeans(rows: seq<SetRow>, i: nat)
    requires i < |rows|
    ensures Raced(rows, i) <==> Decoded(rows[i]) && Contested(rows, RaceOf(rows[i]))
  {
    ContestedMeans(rows, RaceOf(rows[i]));
    assert Ran(rows, i) <==> Decoded(rows[i]);
    hide Contested, Ran, Decoded;
    if Raced(rows, i) {
      var j: nat :| j != i && Ran(rows, j) && SameSet(rows[j], rows[i]);
      if j < i {
        assert SameSet(rows[i], rows[j]);
        assert IsRace(rows, RaceOf(rows[i]));
      } else {
        assert IsRace(rows, RaceOf(rows[i]));
      }
    }
  }

  lemma WonMeans(rows: seq<SetRow>, i: nat)
    requires i < |rows|
    ensures Won(rows, i) <==> Contested(rows, RaceOf(rows[i])) && Fastest(rows, rows[i])
  {
    RacedMeans(rows, i);
    hide Contested, Raced;
    forall j: nat ensures Ran(rows, j) <==> j < |rows| && rows[j] in rows && Decoded(rows[j]) {
    }
    if Fastest(rows, rows[i]) {
      assert forall j: nat | Ran(rows, j) && SameSet(rows[j], rows[i]) :: rows[j] in rows && RaceOf(rows[j]) == RaceOf(rows[i]);
    }
    if Won(rows, i) {
      forall x | x in rows && RaceOf(x) == RaceOf(rows[i]) && Decoded(x) ensures rows[i].decodeNs.value <= x.decodeNs.value {
        var j: nat :| j < |rows| && rows[j] == x;
        assert Ran(rows, j) && SameSet(rows[j], rows[i]);
      }
    }
  }

  /** Rows ran, raced and won as the scorer says. */
  ghost predicate Agrees(rows: seq<SetRow>) {
    forall i: nat | i < |rows| ::
      && (Ran(rows, i) <==> Decoded(rows[i]))
      && (Raced(rows, i) <==> Decoded(rows[i]) && Contested(rows, RaceOf(rows[i])))
      && (Won(rows, i) <==> Contested(rows, RaceOf(rows[i])) && Fastest(rows, rows[i]))
  }

  lemma RowsAgree(rows: seq<SetRow>)
    ensures Agrees(rows)
  {
    hide Raced, Won, Contested, Fastest;
    forall i: nat | i < |rows|
      ensures Raced(rows, i) <==> Decoded(rows[i]) && Contested(rows, RaceOf(rows[i]))
      ensures Won(rows, i) <==> Contested(rows, RaceOf(rows[i])) && Fastest(rows, rows[i])
    {
      RacedMeans(rows, i);
      WonMeans(rows, i);
    }
  }

  lemma SameSets(rows: seq<SetRow>, p: Provider)
    requires Agrees(rows)
    ensures Passing(rows, IsOf(p)) == RowsOf(rows, p) && Passing(rows, ValidOf(p)) == RanOf(rows, p)
    ensures Passing(rows, RacedOf(rows, p)) == RacedBy(rows, p) && Passing(rows, WonOf(rows, p)) == WonBy(rows, p)
  {
    hide Decoded, Contested, Fastest, Ran, Raced, Won;
  }

  /** What scoring rows gives a provider: its rows, those that ran, those that raced and those that won. */
  lemma GainMeans(rows: seq<SetRow>, p: Provider)
    ensures Gain(rows, p) == ProviderLive(|RowsOf(rows, p)|, |RanOf(rows, p)|, |RacedBy(rows, p)|, |WonBy(rows, p)|)
  {
    hide Agrees, Count, Passing, RowsOf, RanOf, RacedBy, WonBy, IsOf, ValidOf, RacedOf, WonOf;
    RowsAgree(rows);
    SameSets(rows, p);
    CountIsSize(rows, IsOf(p));
    CountIsSize(rows, ValidOf(p));
    CountIsSize(rows, RacedOf(rows, p));
    CountIsSize(rows, WonOf(rows, p));
  }

  /** All FEC sets of the rows, and those that two rows ran for. */
  ghost function SetsOf(rows: seq<SetRow>): set<Race> { set r | r in rows :: Race(r.key.slot, r.key.fec) }

  ghost function RacesRun(rows: seq<SetRow>): set<Race> { set race | race in SetsOf(rows) && IsRace(rows, race) }

  lemma SameRaces(rows: seq<SetRow>)
    ensures RacesOf(rows) == SetsOf(rows) && ContestedOf(rows) == RacesRun(rows)
  {
    hide Contested, IsRace;
    forall race ensures Contested(rows, race) <==> IsRace(rows, race) {
      ContestedMeans(rows, race);
    }
  }

  /**
   The live scores of a run, scored harvest by harvest, by all rows it emitted: how many were the
   provider's, how many of these ran, raced and won; and the contested sets are those that two
   rows ran for.
   */
  lemma ScoresMean(w: nat, es: seq<Event>, out: seq<seq<SetRow>>, n: nat, p: Provider)
    requires Feeds(w, es, out) && n <= |es|
    ensures var rows := Ledger(out, n);
      && Score(out, n, p) == ProviderLive(|RowsOf(rows, p)|, |RanOf(rows, p)|, |RacedBy(rows, p)|, |WonBy(rows, p)|)
      && Sets(out, n) == |SetsOf(rows)|
      && Contests(out, n) == |RacesRun(rows)|
  {
    FeedsLength(w, es, out);
    hide *;
    ScoredAtOnce(w, es, out, n, p);
    GainMeans(Ledger(out, n), p);
    SameRaces(Ledger(out, n));
  }
}
