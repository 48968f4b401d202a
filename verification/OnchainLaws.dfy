/**
 What the on-chain check compares: for each sampled slot exactly the distinct signatures
 delivered for it so far, and totals that add up.
 */
module OnchainLaws {
  import opened Common
  import opened Options
  import opened AuditSpec
  import opened OnchainSpec

  /** `distinct` sums up, per source, the distinct signatures of the slots compared so far. */
  datatype State = State(ix: Index, lastSampled: nat, audit: OnchainAudit, distinct: seq<nat>)

  datatype Event =
    | Recorded(sid: nat, slot: nat, sig: Signature)
    | Sampled(answer: Answer, skip: seq<bool>, cancelled: bool)

  function Start(sources: nat, lag: nat): State {
    State(NewIndex(sources, lag + RETAIN_MARGIN_SLOTS), 0,
          OnchainAudit(seq(sources, _ => SourceAudit(0, 0, 0, 0, 0, 0)), 0, 0, 0), seq(sources, _ => 0))
  }

  function Compared(distinct: seq<nat>, answer: Answer, sources: seq<SourceSlot>, skip: seq<bool>): seq<nat> {
    if !answer.Signatures? then distinct else
    seq(|distinct|, i requires 0 <= i < |distinct| =>
          distinct[i] + if i < |sources| && !(i < |skip| && skip[i]) then |sources[i].sigs| else 0)
  }

  function Step(s: State, lag: nat, e: Event): State
    requires Shaped(s.ix) && (e.Recorded? ==> e.sid < s.ix.sources)
  {
    match e
    case Recorded(sid, slot, sig) => s.(ix := Record(s.ix, sid, slot, sig))
    case Sampled(answer, skip, cancelled) =>
      var target := Target(s.ix, lag, s.lastSampled);
      if target.None? then s else
      var claimed := s.(lastSampled := target.value, ix := Taken(s.ix, target.value));
      if target.value !in s.ix.slots || cancelled then claimed
      else claimed.(audit := Answered(s.audit, answer, s.ix.slots[target.value], skip),
                    distinct := Compared(s.distinct, answer, s.ix.slots[target.value], skip))
  }

  ghost predicate Valid(es: seq<Event>, sources: nat) {
    forall k | 0 <= k < |es| && es[k].Recorded? :: es[k].sid < sources
  }

  ghost predicate IsRun(sources: nat, lag: nat, trace: seq<State>, es: seq<Event>) {
    && Valid(es, sources) && |trace| == |es| + 1 && trace[0] == Start(sources, lag)
    && forall k | 0 <= k < |es| ::
         Shaped(trace[k].ix) && trace[k].ix.sources == sources && trace[k + 1] == Step(trace[k], lag, es[k])
  }

  /** Everything a source delivered for a slot in the first `k` events. */
  function Heard(es: seq<Event>, k: nat, slot: nat, sid: nat): SourceSlot
    requires k <= |es|
  {
    if k == 0 then NOTHING else HeardStep(Heard(es, k - 1, slot, sid), es[k - 1], slot, sid)
  }

  function HeardStep(h: SourceSlot, e: Event, slot: nat, sid: nat): SourceSlot {
    if e.Recorded? && e.slot == slot && e.sid == sid then Add(h, e.sig) else h
  }

  function Deliveries(es: seq<Event>, k: nat, slot: nat, sid: nat): nat
    requires k <= |es|
  {
    if k == 0 then 0
    else Deliveries(es, k - 1, slot, sid) + if es[k - 1].Recorded? && es[k - 1].slot == slot && es[k - 1].sid == sid then 1 else 0
  }

  /** Every delivery is a new signature or a duplicate. */
  lemma {:induction false} DuplicatesAreRepeats(es: seq<Event>, k: nat, slot: nat, sid: nat)
    requires k <= |es|
    ensures Heard(es, k, slot, sid).duplicated + |Heard(es, k, slot, sid).sigs| == Deliveries(es, k, slot, sid)
  {
    if k > 0 {
      DuplicatesAreRepeats(es, k - 1, slot, sid);
    }
  }

  // ----- the index -----

  /** Only slots within `retain` of the tip are held. */
  ghost predicate Bounded(ix: Index) {
    && Shaped(ix)
    && forall s | s in ix.slots :: 0 < s <= ix.tip && s >= Monus(ix.tip, ix.retain)
  }

  /** What the index holds for a slot still to be sampled: all that source was heard for it. */
  ghost predicate Exact(s: State, h: SourceSlot, slot: nat, sid: nat) {
    && (slot > s.ix.tip ==> h == NOTHING)
    && (sid < s.ix.sources && slot > s.lastSampled && slot <= s.ix.tip && slot >= Monus(s.ix.tip, s.ix.retain) ==>
          |AtSlot(s.ix, slot)| == s.ix.sources && AtSlot(s.ix, slot)[sid] == h)
  }

  lemma StepBounded(s: State, lag: nat, e: Event)
    requires Bounded(s.ix) && (e.Recorded? ==> e.sid < s.ix.sources)
    ensures Bounded(Step(s, lag, e).ix)
    ensures s.lastSampled <= Step(s, lag, e).lastSampled
    ensures Step(s, lag, e).ix.sources == s.ix.sources && Step(s, lag, e).ix.retain == s.ix.retain
  {
    hide Answered, Compared, Add;
  }

  lemma StepExact(s: State, lag: nat, e: Event, h: SourceSlot, slot: nat, sid: nat)
    requires Bounded(s.ix) && (e.Recorded? ==> e.sid < s.ix.sources) && Exact(s, h, slot, sid) && slot > 0
    ensures Exact(Step(s, lag, e), HeardStep(h, e, slot, sid), slot, sid)
  {
    hide Answered, Compared, Add;
  }

  lemma {:induction false} RunExact(sources: nat, lag: nat, trace: seq<State>, es: seq<Event>, k: nat, slot: nat, sid: nat)
    requires IsRun(sources, lag, trace, es) && k < |trace| && slot > 0
    ensures Bounded(trace[k].ix) && trace[k].ix.sources == sources && trace[k].ix.retain == lag + RETAIN_MARGIN_SLOTS
    ensures Exact(trace[k], Heard(es, k, slot, sid), slot, sid)
  {
    if k > 0 {
      hide Exact, Bounded, Step, HeardStep;
      RunExact(sources, lag, trace, es, k - 1, slot, sid);
      StepBounded(trace[k - 1], lag, es[k - 1]);
      StepExact(trace[k - 1], lag, es[k - 1], Heard(es, k - 1, slot, sid), slot, sid);
    }
  }

  lemma HeldAtMost(ix: Index)
    requires Bounded(ix)
    ensures |ix.slots| <= ix.retain + 1
  {
    SubsetSize(ix.slots.Keys, Range(Monus(ix.tip, ix.retain), ix.retain + 1));
  }

  function Range(low: nat, n: nat): (r: set<nat>)
    ensures |r| == n && forall s :: s in r <==> low <= s < low + n
  {
    if n == 0 then {} else Range(low, n - 1) + {low + n - 1}
  }

  /**
   A sample compares, per source, exactly the distinct signatures delivered for its slot so far,
   with as many duplicates as there were repeats; the slot is always later than the ones before
   it, and at most retain + 1 slots are ever held.
   */
  lemma SamplesAreExact(sources: nat, lag: nat, trace: seq<State>, es: seq<Event>, k: nat, target: nat, sid: nat)
    requires IsRun(sources, lag, trace, es) && k < |es| && es[k].Sampled? && sid < sources
    requires Target(trace[k].ix, lag, trace[k].lastSampled) == Some(target)
    ensures trace[k].lastSampled < target == trace[k + 1].lastSampled
    ensures sid < |AtSlot(trace[k].ix, target)|
    ensures var compared := AtSlot(trace[k].ix, target)[sid];
      && compared == Heard(es, k, target, sid)
      && compared.duplicated == Deliveries(es, k, target, sid) - |compared.sigs|
    ensures |trace[k].ix.slots| <= lag + RETAIN_MARGIN_SLOTS + 1
  {
    RunExact(sources, lag, trace, es, k, target, sid);
    DuplicatesAreRepeats(es, k, target, sid);
    HeldAtMost(trace[k].ix);
    hide Heard, Deliveries, Record;
  }

  // ----- the totals -----

  ghost predicate Adds(a: SourceAudit, distinct: nat) {
    a.missed <= a.onchainTxns && a.corrupted <= distinct && a.onchainTxns - a.missed == distinct - a.corrupted
  }

  ghost predicate TotalsAdd(s: State) {
    |s.audit.sources| == |s.distinct| && forall i | 0 <= i < |s.distinct| :: Adds(s.audit.sources[i], s.distinct[i])
  }

  lemma CompareAdds(a: SourceAudit, distinct: nat, s: SourceSlot, onchain: set<Signature>)
    requires Adds(a, distinct)
    ensures Adds(CompareSource(a, s, onchain), distinct + |s.sigs|)
  {
    SubsetSize(s.sigs * onchain, onchain);
    SubsetSize(s.sigs * onchain, s.sigs);
  }

  lemma StepAdds(s: State, lag: nat, e: Event)
    requires Shaped(s.ix) && (e.Recorded? ==> e.sid < s.ix.sources) && TotalsAdd(s)
    ensures TotalsAdd(Step(s, lag, e))
  {
    hide CompareSource, Adds, Record;
    if e.Sampled? && e.answer.Signatures? {
      var target := Target(s.ix, lag, s.lastSampled);
      if target.Some? && target.value in s.ix.slots {
        var at := s.ix.slots[target.value];
        forall i | 0 <= i < |s.distinct| && i < |at| ensures Adds(CompareSource(s.audit.sources[i], at[i], e.answer.onchain), s.distinct[i] + |at[i].sigs|) {
          CompareAdds(s.audit.sources[i], s.distinct[i], at[i], e.answer.onchain);
        }
      }
    }
  }

  /** Over any run, the block transactions a source did not miss are the distinct signatures it did not corrupt. */
  lemma {:induction false} HitsAgree(sources: nat, lag: nat, trace: seq<State>, es: seq<Event>, k: nat)
    requires IsRun(sources, lag, trace, es) && k < |trace|
    ensures TotalsAdd(trace[k])
  {
    if k > 0 {
      hide TotalsAdd, Step, Shaped;
      HitsAgree(sources, lag, trace, es, k - 1);
      StepAdds(trace[k - 1], lag, es[k - 1]);
    }
  }
}
