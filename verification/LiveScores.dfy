/** The race scorer: set rows are grouped by FEC set, and every group is one race. */
module LiveScores {
  import opened Options
  import opened AggSpec

  datatype Race = Race(slot: nat, fec: nat)

  function RaceOf(r: SetRow): Race { Race(r.key.slot, r.key.fec) }

  /** A row that takes part in a race. */
  predicate Decoded(r: SetRow) { r.isValid && r.decodeNs.Some? }

  datatype ProviderLive = ProviderLive(present: nat, valid: nat, races: nat, wins: nat)

  const NONE := ProviderLive(0, 0, 0, 0)

  function Plus(a: ProviderLive, b: ProviderLive): ProviderLive {
    ProviderLive(a.present + b.present, a.valid + b.valid, a.races + b.races, a.wins + b.wins)
  }

  // ----- counting rows -----

  function Count(rows: seq<SetRow>, f: SetRow -> bool): nat {
    if rows == [] then 0 else Count(rows[..|rows| - 1], f) + if f(rows[|rows| - 1]) then 1 else 0
  }

  function Group(rows: seq<SetRow>, race: Race): seq<SetRow> {
    if rows == [] then [] else
    Group(rows[..|rows| - 1], race) + if RaceOf(rows[|rows| - 1]) == race then [rows[|rows| - 1]] else []
  }

  ghost function RacesOf(rows: seq<SetRow>): set<Race> { set r | r in rows :: RaceOf(r) }

  function IsOf(p: Provider): SetRow -> bool { (r: SetRow) => r.key.provider == p }

  function ValidOf(p: Provider): SetRow -> bool { (r: SetRow) => r.key.provider == p && Decoded(r) }

  function InRace(race: Race): SetRow -> bool { (r: SetRow) => RaceOf(r) == race && Decoded(r) }

  /** Two or more rows of the race decoded: a solo delivery is not a race. */
  predicate Contested(rows: seq<SetRow>, race: Race) { Count(rows, InRace(race)) >= 2 }

  ghost function ContestedIn(rows: seq<SetRow>, races: set<Race>): set<Race> {
    set race | race in races && Contested(rows, race)
  }

  ghost function ContestedOf(rows: seq<SetRow>): set<Race> { ContestedIn(rows, RacesOf(rows)) }

  /** No row of the same race decoded earlier; a tie leaves several. */
  ghost predicate Fastest(rows: seq<SetRow>, r: SetRow) {
    Decoded(r) && forall x | x in rows && RaceOf(x) == RaceOf(r) && Decoded(x) :: r.decodeNs.value <= x.decodeNs.value
  }

  ghost function RacedOf(rows: seq<SetRow>, p: Provider): SetRow -> bool {
    (r: SetRow) => r.key.provider == p && Decoded(r) && Contested(rows, RaceOf(r))
  }

  ghost function WonOf(rows: seq<SetRow>, p: Provider): SetRow -> bool {
    (r: SetRow) => r.key.provider == p && Contested(rows, RaceOf(r)) && Fastest(rows, r)
  }

  /** What a batch of rows adds to a provider. */
  ghost function Gain(rows: seq<SetRow>, p: Provider): ProviderLive {
    ProviderLive(Count(rows, IsOf(p)), Count(rows, ValidOf(p)), Count(rows, RacedOf(rows, p)), Count(rows, WonOf(rows, p)))
  }

  lemma {:induction false} CountSame(rows: seq<SetRow>, f: SetRow -> bool, g: SetRow -> bool)
    requires forall r | r in rows :: f(r) == g(r)
    ensures Count(rows, f) == Count(rows, g)
  {
    if rows != [] {
      CountSame(rows[..|rows| - 1], f, g);
    }
  }

  lemma {:induction false} CountAppend(a: seq<SetRow>, b: seq<SetRow>, f: SetRow -> bool)
    ensures Count(a + b, f) == Count(a, f) + Count(b, f)
  {
    if b == [] {
      assert a + b == a;
    } else {
      assert (a + b)[..|a + b| - 1] == a + b[..|b| - 1];
      CountAppend(a, b[..|b| - 1], f);
    }
  }

  lemma {:induction false} CountNone(rows: seq<SetRow>, f: SetRow -> bool)
    requires forall r | r in rows :: !f(r)
    ensures Count(rows, f) == 0
  {
    if rows != [] {
      CountNone(rows[..|rows| - 1], f);
    }
  }

  lemma {:induction false} CountAtMost(rows: seq<SetRow>, f: SetRow -> bool, g: SetRow -> bool)
    requires forall r | r in rows :: f(r) ==> g(r)
    ensures Count(rows, f) <= Count(rows, g)
  {
    if rows != [] {
      CountAtMost(rows[..|rows| - 1], f, g);
    }
  }

  // ----- one group at a time -----

  function Within(races: set<Race>, f: SetRow -> bool): SetRow -> bool { (r: SetRow) => RaceOf(r) in races && f(r) }

  lemma {:induction false} GroupMembers(rows: seq<SetRow>, race: Race)
    ensures forall r :: r in Group(rows, race) <==> r in rows && RaceOf(r) == race
  {
    if rows != [] {
      GroupMembers(rows[..|rows| - 1], race);
      assert rows == rows[..|rows| - 1] + [rows[|rows| - 1]];
    }
  }

  lemma {:induction false} CountGroup(rows: seq<SetRow>, races: set<Race>, race: Race, f: SetRow -> bool)
    requires race !in races
    ensures Count(rows, Within(races + {race}, f)) == Count(rows, Within(races, f)) + Count(Group(rows, race), f)
  {
    if rows != [] {
      var front, r := rows[..|rows| - 1], rows[|rows| - 1];
      CountGroup(front, races, race, f);
      CountAppend(Group(front, race), if RaceOf(r) == race then [r] else [], f);
      assert [r][..0] == [];
    }
  }

  /** What one group adds to a provider, looking at the group alone. */
  ghost function GroupGain(group: seq<SetRow>, p: Provider): ProviderLive {
    var scored := Count(group, Decoded) >= 2;
    ProviderLive(Count(group, IsOf(p)), Count(group, ValidOf(p)),
                 if scored then Count(group, ValidOf(p)) else 0,
                 if scored then Count(group, AtBest(p, Best(group))) else 0)
  }

  function AtBest(p: Provider, best: Option<int>): SetRow -> bool {
    (r: SetRow) => r.key.provider == p && Decoded(r) && r.decodeNs == best
  }

  /** The earliest decode of a group. */
  function Best(group: seq<SetRow>): Option<int> {
    if group == [] then None else
    var rest, r := Best(group[..|group| - 1]), group[|group| - 1];
    if !Decoded(r) then rest
    else if rest.Some? && rest.value <= r.decodeNs.value then rest
    else r.decodeNs
  }

  lemma {:induction false} BestIsLeast(group: seq<SetRow>)
    ensures Best(group).Some? ==> exists r :: r in group && Decoded(r) && r.decodeNs == Best(group)
    ensures forall r | r in group && Decoded(r) :: Best(group).Some? && Best(group).value <= r.decodeNs.value
  {
    if group != [] {
      BestIsLeast(group[..|group| - 1]);
      assert group == group[..|group| - 1] + [group[|group| - 1]];
      assert group[|group| - 1] in group;
    }
  }

  /** The batch seen with only the rows of `races`. */
  ghost function GainIn(rows: seq<SetRow>, races: set<Race>, p: Provider): ProviderLive {
    ProviderLive(Count(rows, Within(races, IsOf(p))), Count(rows, Within(races, ValidOf(p))),
                 Count(rows, Within(races, RacedOf(rows, p))), Count(rows, Within(races, WonOf(rows, p))))
  }

  lemma GroupContested(rows: seq<SetRow>, race: Race)
    ensures Contested(rows, race) <==> Count(Group(rows, race), Decoded) >= 2
  {
    CountGroup(rows, {}, race, Decoded);
    CountNone(rows, Within({}, Decoded));
    CountSame(rows, Within({} + {race}, Decoded), InRace(race));
  }

  /** Scoring one group by itself adds what the whole batch says about its race. */
  lemma GroupAdds(rows: seq<SetRow>, races: set<Race>, race: Race, p: Provider)
    requires race !in races
    ensures GainIn(rows, races + {race}, p) == Plus(GainIn(rows, races, p), GroupGain(Group(rows, race), p))
  {
    hide Count, Decoded, Best, Group;
    var group := Group(rows, race);
    CountGroup(rows, races, race, IsOf(p));
    CountGroup(rows, races, race, ValidOf(p));
    CountGroup(rows, races, race, RacedOf(rows, p));
    CountGroup(rows, races, race, WonOf(rows, p));
    GroupContested(rows, race);
    GroupMembers(rows, race);
    hide Contested;
    if Contested(rows, race) {
      CountSame(group, ValidOf(p), RacedOf(rows, p));
      forall r | r in group ensures WonOf(rows, p)(r) == AtBest(p, Best(group))(r) {
        FastestIsBest(rows, race, r);
      }
      CountSame(group, AtBest(p, Best(group)), WonOf(rows, p));
    } else {
      CountNone(group, RacedOf(rows, p));
      CountNone(group, WonOf(rows, p));
    }
  }

  lemma FastestIsBest(rows: seq<SetRow>, race: Race, r: SetRow)
    requires r in Group(rows, race)
    ensures Fastest(rows, r) <==> Decoded(r) && r.decodeNs == Best(Group(rows, race))
  {
    GroupMembers(rows, race);
    BestIsLeast(Group(rows, race));
  }

  function Of(live: map<Provider, ProviderLive>, p: Provider): ProviderLive { if p in live then live[p] else NONE }

  /** Each row in turn credits its provider with `gain`; a row that gains nothing leaves no entry. */
  function Credit(live: map<Provider, ProviderLive>, rows: seq<SetRow>, gain: SetRow -> ProviderLive): map<Provider, ProviderLive> {
    if rows == [] then live
    else CreditOne(Credit(live, rows[..|rows| - 1], gain), rows[|rows| - 1].key.provider, gain(rows[|rows| - 1]))
  }

  function CreditOne(live: map<Provider, ProviderLive>, id: Provider, gain: ProviderLive): map<Provider, ProviderLive> {
    if gain == NONE then live else live[id := Plus(Of(live, id), gain)]
  }

  lemma CreditedOne(live: map<Provider, ProviderLive>, id: Provider, gain: ProviderLive, p: Provider)
    ensures Of(CreditOne(live, id, gain), p) == if p == id then Plus(Of(live, p), gain) else Of(live, p)
  {
    hide Plus, NONE;
    PlusNone(Of(live, p));
  }

  lemma PlusNone(a: ProviderLive)
    ensures Plus(a, NONE) == a
  {}

  function PresentGain(r: SetRow): ProviderLive { ProviderLive(1, 0, 0, 0) }

  function ValidGain(r: SetRow): ProviderLive { if Decoded(r) then ProviderLive(0, 1, 0, 0) else NONE }

  function RaceGain(winNs: Option<int>): SetRow -> ProviderLive {
    (r: SetRow) => if Decoded(r) then ProviderLive(0, 0, 1, if r.decodeNs == winNs then 1 else 0) else NONE
  }

  /** What scoring a group leaves. */
  function GroupCredit(live: map<Provider, ProviderLive>, group: seq<SetRow>): map<Provider, ProviderLive> {
    var valid := Credit(Credit(live, group, PresentGain), group, ValidGain);
    if Count(group, Decoded) < 2 then valid else Credit(valid, group, RaceGain(Best(group)))
  }

  lemma {:induction false} PresentCredited(live: map<Provider, ProviderLive>, rows: seq<SetRow>, p: Provider)
    ensures Of(Credit(live, rows, PresentGain), p) == Plus(Of(live, p), ProviderLive(Count(rows, IsOf(p)), 0, 0, 0))
  {
    hide Of, CreditOne;
    if rows != [] {
      var front, r := rows[..|rows| - 1], rows[|rows| - 1];
      PresentCredited(live, front, p);
      CreditedOne(Credit(live, front, PresentGain), r.key.provider, PresentGain(r), p);
    }
  }

  lemma {:induction false} ValidCredited(live: map<Provider, ProviderLive>, rows: seq<SetRow>, p: Provider)
    ensures Of(Credit(live, rows, ValidGain), p) == Plus(Of(live, p), ProviderLive(0, Count(rows, ValidOf(p)), 0, 0))
  {
    hide Of, CreditOne, Decoded;
    if rows != [] {
      var front, r := rows[..|rows| - 1], rows[|rows| - 1];
      ValidCredited(live, front, p);
      CreditedOne(Credit(live, front, ValidGain), r.key.provider, ValidGain(r), p);
    }
  }

  lemma {:induction false} RacesCredited(live: map<Provider, ProviderLive>, rows: seq<SetRow>, best: Option<int>, p: Provider)
    ensures Of(Credit(live, rows, RaceGain(best)), p) ==
            Plus(Of(live, p), ProviderLive(0, 0, Count(rows, ValidOf(p)), Count(rows, AtBest(p, best))))
  {
    hide Of, CreditOne, Decoded;
    if rows != [] {
      var front, r := rows[..|rows| - 1], rows[|rows| - 1];
      RacesCredited(live, front, best, p);
      CreditedOne(Credit(live, front, RaceGain(best)), r.key.provider, RaceGain(best)(r), p);
    }
  }

  lemma GroupCredited(live: map<Provider, ProviderLive>, group: seq<SetRow>, p: Provider)
    ensures Of(GroupCredit(live, group), p) == Plus(Of(live, p), GroupGain(group, p))
  {
    hide Count, Credit, Best, Of;
    var present := Credit(live, group, PresentGain);
    PresentCredited(live, group, p);
    ValidCredited(present, group, p);
    RacesCredited(Credit(present, group, ValidGain), group, Best(group), p);
  }

  class LiveStats {
    var perProvider: map<Provider, ProviderLive>
    var totalSets: nat
    var contestedSets: nat

    constructor ()
      ensures totalSets == 0 && contestedSets == 0 && forall p :: Provider(p) == NONE
    {
      perProvider, totalSets, contestedSets := map[], 0, 0;
    }

    function Provider(id: AggSpec.Provider): ProviderLive
      reads this
    {
      Of(perProvider, id)
    }

    method Add(id: AggSpec.Provider, gain: ProviderLive)
      modifies `perProvider
      ensures perProvider == old(perProvider)[id := Plus(old(Provider(id)), gain)]
    {
      perProvider := perProvider[id := Plus(Provider(id), gain)];
    }

    /**
     Score a batch. Every provider gains one presence per row, one valid set per decoded row,
     and one race, perhaps won, per decoded row of a contested set.
     */
    method Ingest(rows: seq<SetRow>)
      modifies this
      ensures totalSets == old(totalSets) + |RacesOf(rows)|
      ensures contestedSets == old(contestedSets) + |ContestedOf(rows)|
      ensures forall p :: Provider(p) == Plus(old(Provider(p)), Gain(rows, p))
    {
      hide Count, Group, Contested, GainIn, Gain, Plus;
      var groups := GroupRows(rows);
      FoldAll(rows, groups);
      forall p ensures GainIn(rows, RacesOf(rows), p) == Gain(rows, p) {
        AllGained(rows, p);
      }
    }

    method GroupRows(rows: seq<SetRow>) returns (groups: map<Race, seq<SetRow>>)
      ensures groups.Keys == RacesOf(rows)
      ensures forall race | race in groups :: groups[race] == Group(rows, race)
    {
      hide Group, RacesOf;
      groups := map[];
      assert RacesOf(rows[..0]) == {} by { NoRaces(rows[..0]); }
      for i := 0 to |rows|
        invariant groups.Keys == RacesOf(rows[..i])
        invariant forall race | race in groups :: groups[race] == Group(rows[..i], race)
      {
        var race := RaceOf(rows[i]);
        GroupsGrow(rows, i);
        groups := groups[race := (if race in groups then groups[race] else []) + [rows[i]]];
      }
      assert rows[..|rows|] == rows;
    }

    method FoldAll(rows: seq<SetRow>, groups: map<Race, seq<SetRow>>)
      requires groups.Keys == RacesOf(rows)
      requires forall race | race in groups :: groups[race] == Group(rows, race)
      modifies this
      ensures totalSets == old(totalSets) + |RacesOf(rows)|
      ensures contestedSets == old(contestedSets) + |ContestedIn(rows, RacesOf(rows))|
      ensures forall p :: Provider(p) == Plus(old(Provider(p)), GainIn(rows, RacesOf(rows), p))
    {
      hide Count, Group, GroupGain, Contested, GainIn, Plus, RacesOf;
      var todo := groups.Keys;
      ghost var done: set<Race> := {};
      forall p ensures Plus(Provider(p), GainIn(rows, {}, p)) == Provider(p) {
        NothingGained(rows, p, Provider(p));
      }
      while todo != {}
        invariant todo !! done && todo + done == RacesOf(rows)
        invariant totalSets == old(totalSets) + |done|
        invariant contestedSets == old(contestedSets) + |ContestedIn(rows, done)|
        invariant forall p :: Provider(p) == Plus(old(Provider(p)), GainIn(rows, done, p))
        decreases todo
      {
        var race :| race in todo;
        FoldSet(groups[race]);
        forall p ensures Provider(p) == Plus(old(Provider(p)), GainIn(rows, done + {race}, p)) {
          GroupAdds(rows, done, race, p);
          PlusAssociates(old(Provider(p)), GainIn(rows, done, p), GroupGain(Group(rows, race), p));
        }
        ContestedGrows(rows, done, race);
        todo, done := todo - {race}, done + {race};
      }
      assert done == RacesOf(rows);
    }

    /** Score one race: without two decoded rows nobody raced. */
    method FoldSet(group: seq<SetRow>)
      modifies this
      ensures totalSets == old(totalSets) + 1
      ensures contestedSets == old(contestedSets) + if Count(group, Decoded) >= 2 then 1 else 0
      ensures forall p :: Provider(p) == Plus(old(Provider(p)), GroupGain(group, p))
    {
      hide Count, Best, Decoded, Credit, Of, Plus, GroupGain;
      totalSets := totalSets + 1;
      ghost var before := perProvider;
      MarkPresent(group);
      var n, winNs := MarkValid(group);
      forall p ensures Of(GroupCredit(before, group), p) == Plus(Of(before, p), GroupGain(group, p)) {
        GroupCredited(before, group, p);
      }
      if n < 2 {
        return;
      }
      contestedSets := contestedSets + 1;
      MarkRaces(group, winNs);
    }

    method MarkPresent(group: seq<SetRow>)
      modifies `perProvider
      ensures perProvider == Credit(old(perProvider), group, PresentGain)
    {
      for i := 0 to |group|
        invariant perProvider == Credit(old(perProvider), group[..i], PresentGain)
      {
        assert group[..i + 1][..i] == group[..i];
        Add(group[i].key.provider, PresentGain(group[i]));
      }
      assert group[..|group|] == group;
    }

    /** Counts the decoded rows and finds the earliest. */
    method MarkValid(group: seq<SetRow>) returns (n: nat, winNs: Option<int>)
      modifies `perProvider
      ensures perProvider == Credit(old(perProvider), group, ValidGain)
      ensures n == Count(group, Decoded) && winNs == Best(group)
    {
      hide Plus, Of;
      n, winNs := 0, None;
      for i := 0 to |group|
        invariant n == Count(group[..i], Decoded) && winNs == Best(group[..i])
        invariant perProvider == Credit(old(perProvider), group[..i], ValidGain)
      {
        var r := group[i];
        assert group[..i + 1][..i] == group[..i];
        if Decoded(r) {
          n := n + 1;
          winNs := if winNs.Some? && winNs.value <= r.decodeNs.value then winNs else r.decodeNs;
          Add(r.key.provider, ProviderLive(0, 1, 0, 0));
        }
      }
      assert group[..|group|] == group;
    }

    /** One race for every decoded row, and a win for those that tie the earliest. */
    method MarkRaces(group: seq<SetRow>, winNs: Option<int>)
      modifies `perProvider
      ensures perProvider == Credit(old(perProvider), group, RaceGain(winNs))
    {
      hide Plus, Of;
      for i := 0 to |group|
        invariant perProvider == Credit(old(perProvider), group[..i], RaceGain(winNs))
      {
        var r := group[i];
        assert group[..i + 1][..i] == group[..i];
        if Decoded(r) {
          Add(r.key.provider, ProviderLive(0, 0, 1, if r.decodeNs == winNs then 1 else 0));
        }
      }
      assert group[..|group|] == group;
    }
  }

  lemma NoRaces(rows: seq<SetRow>)
    requires rows == []
    ensures RacesOf(rows) == {}
  {}

  lemma ContestedGrows(rows: seq<SetRow>, done: set<Race>, race: Race)
    requires race !in done
    ensures |ContestedIn(rows, done + {race})| ==
            |ContestedIn(rows, done)| + if Count(Group(rows, race), Decoded) >= 2 then 1 else 0
  {
    hide Count, Contested;
    GroupContested(rows, race);
    assert ContestedIn(rows, done + {race}) == ContestedIn(rows, done) + if Contested(rows, race) then {race} else {};
  }

  lemma GroupsGrow(rows: seq<SetRow>, i: nat)
    requires i < |rows|
    ensures RacesOf(rows[..i + 1]) == RacesOf(rows[..i]) + {RaceOf(rows[i])}
    ensures forall race :: Group(rows[..i + 1], race) ==
                           Group(rows[..i], race) + if RaceOf(rows[i]) == race then [rows[i]] else []
    ensures RaceOf(rows[i]) !in RacesOf(rows[..i]) ==> Group(rows[..i], RaceOf(rows[i])) == []
  {
    assert rows[..i + 1] == rows[..i] + [rows[i]];
    assert rows[..i + 1][..i] == rows[..i];
    GroupMembers(rows[..i], RaceOf(rows[i]));
    var g := Group(rows[..i], RaceOf(rows[i]));
    assert |g| > 0 ==> g[0] in g;
  }

  lemma NothingGained(rows: seq<SetRow>, p: Provider, q: ProviderLive)
    ensures Plus(q, GainIn(rows, {}, p)) == q
  {
    CountNone(rows, Within({}, IsOf(p)));
    CountNone(rows, Within({}, ValidOf(p)));
    CountNone(rows, Within({}, RacedOf(rows, p)));
    CountNone(rows, Within({}, WonOf(rows, p)));
  }

  lemma AllGained(rows: seq<SetRow>, p: Provider)
    ensures GainIn(rows, RacesOf(rows), p) == Gain(rows, p)
  {
    var races := RacesOf(rows);
    CountSame(rows, Within(races, IsOf(p)), IsOf(p));
    CountSame(rows, Within(races, ValidOf(p)), ValidOf(p));
    CountSame(rows, Within(races, RacedOf(rows, p)), RacedOf(rows, p));
    CountSame(rows, Within(races, WonOf(rows, p)), WonOf(rows, p));
  }

  lemma PlusAssociates(a: ProviderLive, b: ProviderLive, c: ProviderLive)
    ensures Plus(Plus(a, b), c) == Plus(a, Plus(b, c))
  {}
}
