/** FEC-set aggregation as values: one provider's set, the truth table, and a harvest. */
module AggSpec {
  import opened Common
  import opened Options
  import opened Positions

  type Provider = nat
  type Hash = nat

  datatype VerifiedShred = VerifiedShred(
    provider: Provider,
    rxNs: int,
    slot: nat,
    fec: nat,
    shredIndex: nat,
    isCode: bool,
    position: nat,
    lastInSlot: bool,
    dataComplete: bool,
    numData: Option<nat>,
    numCoding: Option<nat>,
    leader: Option<nat>,
    sigOk: Option<bool>,
    merkleOk: bool,
    payloadHash: nat,
    dataHash: Option<Hash>)
  {
    predicate Authentic() { merkleOk && sigOk.Some? && sigOk.value }

    predicate Invalid() { !merkleOk || (sigOk.Some? && !sigOk.value) }

    predicate Unverifiable() { merkleOk && sigOk.None? }
  }

  datatype SetKey = SetKey(provider: Provider, slot: nat, fec: nat)

  datatype TruthKey = TruthKey(slot: nat, fec: nat, isCode: bool, index: nat)

  datatype InvalidShred = InvalidShred(isCode: bool, index: nat, data: Option<Hash>)

  datatype SetState = SetState(
    leader: Option<nat>,
    seen: set<nat>,
    dataPos: Bitmap,
    codePos: Bitmap,
    numData: Option<nat>,
    numCoding: Option<nat>,
    createdNs: int,
    firstNs: Option<int>,
    lastNs: Option<int>,
    arrivals: seq<int>,
    invalidShreds: seq<InvalidShred>,
    duplicated: nat,
    unverifiable: nat,
    lastInSlot: bool)

  function NewSet(leader: Option<nat>, ns: int): SetState {
    SetState(leader, {}, Positions.Empty, Positions.Empty, None, None, ns, None, None, [], [], 0, 0, false)
  }

  function KeyOf(s: VerifiedShred): SetKey { SetKey(s.provider, s.slot, s.fec) }

  function TruthKeyOf(s: VerifiedShred): TruthKey { TruthKey(s.slot, s.fec, s.isCode, s.shredIndex) }

  /** The data count a shred's header reveals; the cast to u16 wraps. */
  function HeaderCount(s: VerifiedShred): Option<nat> {
    if s.isCode then s.numData
    else if s.dataComplete then Some((s.position + 1) % 0x1_0000)
    else None
  }

  /** A leader-signed shred with a payload not seen before. */
  function Accept(st: SetState, s: VerifiedShred): SetState {
    var known := st.numData.Some?;
    var (bits, isNew) := Mark(if s.isCode then st.codePos else st.dataPos, s.position);
    st.(numData := if known then st.numData else HeaderCount(s),
        numCoding := if known || !s.isCode then st.numCoding else s.numCoding,
        lastInSlot := st.lastInSlot || (!s.isCode && s.lastInSlot),
        codePos := if s.isCode then bits else st.codePos,
        dataPos := if s.isCode then st.dataPos else bits,
        arrivals := if isNew then st.arrivals + [s.rxNs] else st.arrivals,
        firstNs := Some(if st.firstNs.Some? then Min(st.firstNs.value, s.rxNs) else s.rxNs),
        lastNs := Some(if st.lastNs.Some? then Max(st.lastNs.value, s.rxNs) else s.rxNs))
  }

  function StepSet(st: SetState, s: VerifiedShred): SetState {
    if s.payloadHash in st.seen then st.(duplicated := st.duplicated + 1) else
    var t := st.(seen := st.seen + {s.payloadHash});
    if s.Invalid() then t.(invalidShreds := t.invalidShreds + [InvalidShred(s.isCode, s.shredIndex, s.dataHash)])
    else if s.Unverifiable() then t.(unverifiable := t.unverifiable + 1)
    else Accept(t, s)
  }

  datatype Verdict = BadSignature | BadData | Unknown

  /** How a shred that failed verification compares with the leader-signed copy. */
  function Classify(x: InvalidShred, slot: nat, fec: nat, truth: map<TruthKey, Hash>): Verdict {
    var key := TruthKey(slot, fec, x.isCode, x.index);
    if x.data == None || key !in truth then Unknown
    else if x.data.value == truth[key] then BadSignature
    else BadData
  }

  function CountVerdict(xs: seq<InvalidShred>, v: Verdict, slot: nat, fec: nat, truth: map<TruthKey, Hash>): nat {
    if xs == [] then 0 else
    CountVerdict(xs[..|xs| - 1], v, slot, fec, truth) +
    if Classify(xs[|xs| - 1], slot, fec, truth) == v then 1 else 0
  }

  function InsertSorted(xs: seq<int>, x: int): seq<int> {
    if xs == [] || xs[|xs| - 1] <= x then xs + [x]
    else InsertSorted(xs[..|xs| - 1], x) + [xs[|xs| - 1]]
  }

  /** The values in ascending order; `select_nth_unstable(k - 1)` puts the k-th of them in place. */
  function Sorted(xs: seq<int>): (r: seq<int>)
    ensures |r| == |xs|
  {
    if xs == [] then [] else
    var rest := Sorted(xs[..|xs| - 1]);
    InsertSortedLength(rest, xs[|xs| - 1]);
    InsertSorted(rest, xs[|xs| - 1])
  }

  lemma InsertSortedLength(xs: seq<int>, x: int)
    ensures |InsertSorted(xs, x)| == |xs| + 1
  {}

  datatype SetRow = SetRow(
    key: SetKey,
    leader: Option<nat>,
    firstNs: int,
    decodeNs: Option<int>,
    lastNs: int,
    nData: nat,
    nCode: nat,
    expectedTotal: Option<nat>,
    missed: nat,
    invalid: nat,
    invalidSig: nat,
    invalidData: nat,
    invalidUnknown: nat,
    duplicated: nat,
    sigUnverifiable: nat,
    isValid: bool,
    lastInSlot: bool)

  /** When the set became decodable: the arrival of its k-th position. */
  function DecodeNs(st: SetState): Option<int> {
    var k := st.numData.GetOr(0);
    if 0 < k <= |st.arrivals| then Some(Sorted(st.arrivals)[k - 1]) else None
  }

  function ExpectedTotal(st: SetState): Option<nat> {
    if st.numData.Some? && st.numCoding.Some? then Some(st.numData.value + st.numCoding.value) else None
  }

  function Finalize(key: SetKey, st: SetState, truth: map<TruthKey, Hash>): SetRow {
    var delivered := CountOnes(st.dataPos) + CountOnes(st.codePos);
    var expected := ExpectedTotal(st).GetOr(delivered);
    SetRow(
      key, st.leader,
      st.firstNs.GetOr(st.createdNs), DecodeNs(st), st.lastNs.GetOr(st.createdNs),
      CountOnes(st.dataPos), CountOnes(st.codePos),
      ExpectedTotal(st), if expected > delivered then expected - delivered else 0,
      |st.invalidShreds|,
      CountVerdict(st.invalidShreds, BadSignature, key.slot, key.fec, truth),
      CountVerdict(st.invalidShreds, BadData, key.slot, key.fec, truth),
      CountVerdict(st.invalidShreds, Unknown, key.slot, key.fec, truth),
      st.duplicated, st.unverifiable,
      |st.invalidShreds| == 0 && st.unverifiable == 0 && DecodeNs(st).Some?,
      st.lastInSlot)
  }

  // ----- the aggregator -----

  datatype Agg = Agg(
    sets: map<SetKey, SetState>,
    truth: map<TruthKey, Hash>,
    maxSlot: nat,
    latestSlot: map<Provider, nat>,
    maxWaitSlots: nat,
    evictedUpto: nat,
    shredsAfterWindow: nat)

  function NewAgg(maxWaitSlots: nat): Agg { Agg(map[], map[], 0, map[], maxWaitSlots, 0, 0) }

  /** The set a shred goes to, fresh if there is none. */
  function SetFor(a: Agg, s: VerifiedShred): SetState {
    if KeyOf(s) in a.sets then a.sets[KeyOf(s)] else NewSet(s.leader, s.rxNs)
  }

  /** A leader-signed shred with a new payload is the yardstick for its position. */
  predicate Teaches(st: SetState, s: VerifiedShred) {
    s.payloadHash !in st.seen && s.Authentic() && s.dataHash.Some?
  }

  function Ingest(a: Agg, s: VerifiedShred): Agg {
    var seen := a.(
      maxSlot := if s.slot > a.maxSlot then s.slot else a.maxSlot,
      latestSlot :=
        if !s.Authentic() then a.latestSlot
        else a.latestSlot[s.provider :=
          if s.provider in a.latestSlot && a.latestSlot[s.provider] > s.slot then a.latestSlot[s.provider] else s.slot]);
    if s.slot <= a.evictedUpto then seen.(shredsAfterWindow := a.shredsAfterWindow + 1)
    else seen.(
      sets := a.sets[KeyOf(s) := StepSet(SetFor(a, s), s)],
      truth := if Teaches(SetFor(a, s), s) then a.truth[TruthKeyOf(s) := s.dataHash.value] else a.truth)
  }

  function Cutoff(a: Agg): nat {
    if a.maxSlot > a.maxWaitSlots then a.maxSlot - a.maxWaitSlots else 0
  }

  predicate Ripe(a: Agg, drainAll: bool, key: SetKey) { drainAll || key.slot <= Cutoff(a) }

  /** The rows a harvest emits, by set. */
  function Rows(a: Agg, drainAll: bool): map<SetKey, SetRow> {
    map key | key in a.sets && Ripe(a, drainAll, key) :: Finalize(key, a.sets[key], a.truth)
  }

  function Harvest(a: Agg, drainAll: bool): Agg {
    var cutoff := Cutoff(a);
    var kept := a.(sets := map key | key in a.sets && !Ripe(a, drainAll, key) :: a.sets[key]);
    if drainAll then kept.(truth := map[], evictedUpto := cutoff)
    else if cutoff > a.evictedUpto then
      kept.(truth := map key | key in a.truth && key.slot > cutoff :: a.truth[key], evictedUpto := cutoff)
    else kept
  }
}
