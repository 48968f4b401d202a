/**
 The on-chain totals by the deliveries and the answers alone: which slot each sample compares, and
 for every source the sizes of what it missed, corrupted and repeated, slot by slot.
 */
module OnchainTotals {
  import opened Common
  import opened Options
  import opened AuditSpec
  import opened OnchainSpec
  import opened OnchainLaws

  // ----- which slot a sample is about -----

  /** The latest slot delivered in the first `k` events. */
  function TipOf(es: seq<Event>, k: nat): nat
    requires k <= |es|
  {
    if k == 0 then 0
    else if es[k - 1].Recorded? && es[k - 1].slot > TipOf(es, k - 1) then es[k - 1].slot
    else TipOf(es, k - 1)
  }

  /** The slot sampled last: a sample claims the slot `lag` behind the tip unless one as late was claimed. */
  function LastOf(es: seq<Event>, k: nat, lag: nat): nat
    requires k <= |es|
  {
    if k == 0 then 0
    else if es[k - 1].Sampled? && TipOf(es, k - 1) > LastOf(es, k - 1, lag) + lag then TipOf(es, k - 1) - lag
    else LastOf(es, k - 1, lag)
  }

  ghost predicate Told(es: seq<Event>, k: nat, slot: nat)
    requires k <= |es|
  {
    exists j :: 0 <= j < k && es[j].Recorded? && es[j].slot == slot
  }

  /** The slot event `k` asks the chain about: newly claimed, and delivered by some source. */
  ghost function AskedAt(es: seq<Event>, k: nat, lag: nat): Option<nat>
    requires k < |es|
  {
    if es[k].Sampled? && !es[k].cancelled && TipOf(es, k) > LastOf(es, k, lag) + lag && Told(es, k, TipOf(es, k) - lag)
    then Some(TipOf(es, k) - lag) else None
  }

  // ----- what a comparison adds -----

  datatype Count = Checked | Absent | Onchain | Missed | Corrupted | Duplicated

  function Get(a: SourceAudit, c: Count): nat {
    match c
    case Checked => a.slotsChecked
    case Absent => a.slotsAbsent
    case Onchain => a.onchainTxns
    case Missed => a.missed
    case Corrupted => a.corrupted
    case Duplicated => a.duplicated
  }

  /** One source and one block: absent if nothing was delivered, else the two differences and the repeats. */
  ghost function SizeOf(heard: SourceSlot, onchain: set<Signature>, c: Count): nat {
    if heard.sigs == {} then (if c == Absent then 1 else 0) else
    match c
    case Checked => 1
    case Absent => 0
    case Onchain => |onchain|
    case Missed => |onchain - heard.sigs|
    case Corrupted => |heard.sigs - onchain|
    case Duplicated => heard.duplicated
  }

  predicate Skips(skip: seq<bool>, sid: nat) { sid < |skip| && skip[sid] }

  /** What event `k` adds for a source: only a sample that got a block, and not for a source to be skipped. */
  ghost function Adds(es: seq<Event>, k: nat, lag: nat, sid: nat, c: Count): nat
    requires k < |es|
  {
    if AskedAt(es, k, lag).Some? && es[k].answer.Signatures? && !Skips(es[k].skip, sid)
    then SizeOf(Heard(es, k, AskedAt(es, k, lag).value, sid), es[k].answer.onchain, c) else 0
  }

  ghost function SumOf(es: seq<Event>, k: nat, lag: nat, sid: nat, c: Count): nat
    requires k <= |es|
  {
    if k == 0 then 0 else SumOf(es, k - 1, lag, sid, c) + Adds(es, k - 1, lag, sid, c)
  }

  /** The kinds of answers. */
  datatype Reply = GotBlock | GotNone | GotError

  function ReplyOf(a: Answer): Reply {
    match a
    case Signatures(_) => GotBlock
    case NoBlock => GotNone
    case Failed => GotError
  }

  function GetReplies(a: OnchainAudit, r: Reply): nat {
    match r
    case GotBlock => a.slotsChecked
    case GotNone => a.slotsUnavailable
    case GotError => a.rpcErrors
  }

  ghost function Replies(es: seq<Event>, k: nat, lag: nat, r: Reply): nat
    requires k <= |es|
  {
    if k == 0 then 0 else
    Replies(es, k - 1, lag, r) + if AskedAt(es, k - 1, lag).Some? && ReplyOf(es[k - 1].answer) == r then 1 else 0
  }

  // ----- one comparison -----

  /** Repeats are of signatures heard. */
  ghost predicate Plausible(h: SourceSlot) { h.sigs == {} ==> h.duplicated == 0 }

  lemma {:induction false} HeardPlausible(es: seq<Event>, k: nat, slot: nat, sid: nat)
    requires k <= |es|
    ensures Plausible(Heard(es, k, slot, sid))
  {
    if k > 0 {
      HeardPlausible(es, k - 1, slot, sid);
    }
  }

  lemma Parts(heard: set<Signature>, onchain: set<Signature>)
    ensures |onchain| - |heard * onchain| == |onchain - heard|
    ensures |heard| - |heard * onchain| == |heard - onchain|
  {
    assert onchain == (onchain - heard) + (heard * onchain);
    assert heard == (heard - onchain) + (heard * onchain);
  }

  lemma CompareMeans(a: SourceAudit, s: SourceSlot, onchain: set<Signature>, c: Count)
    requires Plausible(s)
    ensures Get(CompareSource(a, s, onchain), c) == Get(a, c) + SizeOf(s, onchain, c)
  {
    Parts(s.sigs, onchain);
    assert s == NOTHING <==> s.sigs == {};
  }

  // ----- the index -----

  /** The index by the events: its tip, what was claimed, and which slots still to come it holds. */
  ghost predicate IndexOk(s: State, es: seq<Event>, k: nat, lag: nat)
    requires k <= |es|
  {
    && s.ix.tip == TipOf(es, k)
    && s.lastSampled == LastOf(es, k, lag)
    && Bounded(s.ix)
    && forall slot: nat | slot > s.lastSampled && slot >= Monus(s.ix.tip, s.ix.retain) && slot > 0 ::
         slot in s.ix.slots <==> Told(es, k, slot)
  }

  lemma TargetMeans(s: State, es: seq<Event>, k: nat, lag: nat)
    requires k <= |es| && IndexOk(s, es, k, lag)
    ensures Target(s.ix, lag, s.lastSampled) == if TipOf(es, k) > LastOf(es, k, lag) + lag then Some(TipOf(es, k) - lag) else None
  {
    hide Bounded;
  }

  lemma ToldMore(es: seq<Event>, k: nat, next: nat)
    requires k < |es| && next == k + 1
    ensures forall slot: nat :: Told(es, next, slot) <==> Told(es, k, slot) || (es[k].Recorded? && es[k].slot == slot)
  {}

  lemma RecordedIndex(s: State, es: seq<Event>, k: nat, lag: nat)
    requires k < |es| && IndexOk(s, es, k, lag) && es[k].Recorded? && es[k].sid < s.ix.sources
    ensures IndexOk(Step(s, lag, es[k]), es, k + 1, lag)
  {
    ToldMore(es, k, k + 1);
    StepBounded(s, lag, es[k]);
    ToldBelowTip(es, k);
    hide Told, Bounded, Add;
    assert Shaped(s.ix) by { BoundedShaped(s.ix); }
  }

  lemma BoundedShaped(ix: Index)
    requires Bounded(ix)
    ensures Shaped(ix)
  {}

  lemma {:induction false} ToldBelowTip(es: seq<Event>, k: nat)
    requires k <= |es|
    ensures forall slot: nat | Told(es, k, slot) :: slot <= TipOf(es, k)
  {
    if k > 0 {
      ToldBelowTip(es, k - 1);
      ToldMore(es, k - 1, k);
    }
  }

  lemma SampledIndex(s: State, es: seq<Event>, k: nat, lag: nat)
    requires k < |es| && IndexOk(s, es, k, lag) && es[k].Sampled?
    ensures IndexOk(Step(s, lag, es[k]), es, k + 1, lag)
  {
    ToldMore(es, k, k + 1);
    StepBounded(s, lag, es[k]);
    TargetMeans(s, es, k, lag);
    hide Told, Bounded, Answered, Compared, Target;
  }

  lemma StartIndex(sources: nat, lag: nat, es: seq<Event>)
    ensures IndexOk(Start(sources, lag), es, 0, lag)
  {}

  lemma SidInRange(sources: nat, lag: nat, trace: seq<State>, es: seq<Event>, k: nat)
    requires IsRun(sources, lag, trace, es) && k < |es|
    ensures es[k].Recorded? ==> es[k].sid < sources
  {}

  lemma {:induction false} IndexMeans(sources: nat, lag: nat, trace: seq<State>, es: seq<Event>, k: nat)
    requires IsRun(sources, lag, trace, es) && k < |trace|
    ensures IndexOk(trace[k], es, k, lag)
    ensures trace[k].ix.sources == sources && trace[k].ix.retain == lag + RETAIN_MARGIN_SLOTS
  {
    hide IndexOk, Step, Bounded, Exact, Heard, Valid;
    RunExact(sources, lag, trace, es, k, 1, 0);
    if k == 0 {
      StartIndex(sources, lag, es);
    } else {
      SidInRange(sources, lag, trace, es, k - 1);
      IndexMeans(sources, lag, trace, es, k - 1);
      if es[k - 1].Recorded? {
        RecordedIndex(trace[k - 1], es, k - 1, lag);
      } else {
        SampledIndex(trace[k - 1], es, k - 1, lag);
      }
    }
  }

  /** What a sample asks about, and what it then compares: all that each source delivered for that slot. */
  lemma SampleMeans(sources: nat, lag: nat, trace: seq<State>, es: seq<Event>, k: nat)
    requires IsRun(sources, lag, trace, es) && k < |es| && es[k].Sampled?
    ensures var s, target := trace[k], Target(trace[k].ix, lag, trace[k].lastSampled);
      && (AskedAt(es, k, lag).Some? <==> target.Some? && target.value in s.ix.slots && !es[k].cancelled)
      && (AskedAt(es, k, lag).Some? ==>
            && target == AskedAt(es, k, lag)
            && |s.ix.slots[target.value]| == sources
            && forall sid: nat | sid < sources :: s.ix.slots[target.value][sid] == Heard(es, k, target.value, sid))
  {
    IndexMeans(sources, lag, trace, es, k);
    var s := trace[k];
    TargetMeans(s, es, k, lag);
    var target := Target(s.ix, lag, s.lastSampled);
    if target.Some? {
      RunExact(sources, lag, trace, es, k, target.value, 0);
      HeldShape(s.ix);
      forall sid: nat | sid < sources && target.value in s.ix.slots
        ensures s.ix.slots[target.value][sid] == Heard(es, k, target.value, sid)
      {
        RunExact(sources, lag, trace, es, k, target.value, sid);
      }
    }
    hide IsRun, Bounded, Told, Heard, TipOf, LastOf;
  }

  lemma HeldShape(ix: Index)
    requires Bounded(ix)
    ensures forall slot | slot in ix.slots :: |ix.slots[slot]| == ix.sources
  {}

  // ----- the totals -----

  ghost predicate TotalsAreSums(audit: OnchainAudit, es: seq<Event>, k: nat, lag: nat, sources: nat)
    requires k <= |es|
  {
    && |audit.sources| == sources
    && (forall sid: nat, c | sid < sources :: Get(audit.sources[sid], c) == SumOf(es, k, lag, sid, c))
    && forall r :: GetReplies(audit, r) == Replies(es, k, lag, r)
  }

  /** What an answer adds. */
  lemma AnsweredMeans(audit: OnchainAudit, answer: Answer, at: seq<SourceSlot>, skip: seq<bool>, sid: nat, c: Count)
    requires sid < |audit.sources| && sid < |at| && Plausible(at[sid])
    ensures var after := Answered(audit, answer, at, skip);
      && |after.sources| == |audit.sources|
      && Get(after.sources[sid], c) == Get(audit.sources[sid], c) +
           if answer.Signatures? && !Skips(skip, sid) then SizeOf(at[sid], answer.onchain, c) else 0
  {
    hide CompareSource, SizeOf;
    if answer.Signatures? {
      CompareMeans(audit.sources[sid], at[sid], answer.onchain, c);
    }
  }

  lemma AnsweredReplies(audit: OnchainAudit, answer: Answer, at: seq<SourceSlot>, skip: seq<bool>, r: Reply)
    ensures GetReplies(Answered(audit, answer, at, skip), r) == GetReplies(audit, r) + if ReplyOf(answer) == r then 1 else 0
    ensures |Answered(audit, answer, at, skip).sources| == |audit.sources|
  {
    hide CompareRow;
  }

  lemma StepAudit(s: State, lag: nat, e: Event)
    requires Shaped(s.ix) && (e.Recorded? ==> e.sid < s.ix.sources)
    ensures var target := Target(s.ix, lag, s.lastSampled);
      Step(s, lag, e).audit ==
        if e.Sampled? && target.Some? && target.value in s.ix.slots && !e.cancelled
        then Answered(s.audit, e.answer, s.ix.slots[target.value], e.skip) else s.audit
  {
    hide Answered, Record;
  }

  lemma StepSums(sources: nat, lag: nat, trace: seq<State>, es: seq<Event>, k: nat)
    requires IsRun(sources, lag, trace, es) && k < |es|
    requires TotalsAreSums(trace[k].audit, es, k, lag, sources)
    ensures TotalsAreSums(trace[k + 1].audit, es, k + 1, lag, sources)
  {
    var s, e, after := trace[k], es[k], trace[k + 1];
    StepAudit(s, lag, e);
    if e.Sampled? {
      SampleMeans(sources, lag, trace, es, k);
    }
    hide IsRun, Step, Target, Answered, Get, GetReplies, SizeOf, Heard, ReplyOf;
    var asked := AskedAt(es, k, lag);
    if asked.Some? {
      var at := s.ix.slots[asked.value];
      assert after.audit == Answered(s.audit, e.answer, at, e.skip);
      forall sid: nat, c | sid < sources ensures Get(after.audit.sources[sid], c) == SumOf(es, k + 1, lag, sid, c) {
        HeardPlausible(es, k, asked.value, sid);
        AnsweredMeans(s.audit, e.answer, at, e.skip, sid, c);
      }
      forall r ensures GetReplies(after.audit, r) == Replies(es, k + 1, lag, r) {
        AnsweredReplies(s.audit, e.answer, at, e.skip, r);
      }
      AnsweredReplies(s.audit, e.answer, at, e.skip, GotBlock);
    } else {
      assert after.audit == s.audit;
    }
  }

  /**
   Over any run, per source and summed over the slots it was compared on: `missed` is what the
   block has and the source did not deliver, `corrupted` what it delivered and the block does not
   have, `duplicated` its repeats, all of the deliveries before the sample; a slot it delivered
   nothing for is absent; a skipped source is left alone. The answers are counted by their kind.
   */
  lemma {:induction false} TotalsAreTheDifferences(sources: nat, lag: nat, trace: seq<State>, es: seq<Event>, k: nat)
    requires IsRun(sources, lag, trace, es) && k < |trace|
    ensures TotalsAreSums(trace[k].audit, es, k, lag, sources)
  {
    if k > 0 {
      TotalsAreTheDifferences(sources, lag, trace, es, k - 1);
      StepSums(sources, lag, trace, es, k - 1);
      hide IsRun, TotalsAreSums;
    }
  }

  /** A slot is claimed once: after the sample the index holds nothing for it, and no later sample asks about it. */
  lemma ClaimedOnce(sources: nat, lag: nat, trace: seq<State>, es: seq<Event>, j: nat, k: nat)
    requires IsRun(sources, lag, trace, es) && j < k < |es| && AskedAt(es, j, lag).Some?
    ensures AskedAt(es, j, lag).value !in trace[j + 1].ix.slots
    ensures AskedAt(es, k, lag).Some? ==> AskedAt(es, j, lag).value < AskedAt(es, k, lag).value
  {
    RunLength(sources, lag, trace, es);
    ClaimStep(sources, lag, trace, es, j);
    AskedInOrder(es, j, k, lag);
    hide IsRun, AskedAt, IndexOk, Target;
    IndexMeans(sources, lag, trace, es, j);
    AskedIsTarget(trace[j], es, j, lag);
  }

  lemma AskedIsTarget(s: State, es: seq<Event>, k: nat, lag: nat)
    requires k < |es| && IndexOk(s, es, k, lag) && AskedAt(es, k, lag).Some?
    ensures es[k].Sampled? && Target(s.ix, lag, s.lastSampled) == AskedAt(es, k, lag)
  {
    TargetMeans(s, es, k, lag);
    hide Told, Target, IndexOk;
  }

  lemma AskedInOrder(es: seq<Event>, j: nat, k: nat, lag: nat)
    requires j < k < |es| && AskedAt(es, j, lag).Some?
    ensures es[j].Sampled?
    ensures AskedAt(es, k, lag).Some? ==> AskedAt(es, j, lag).value < AskedAt(es, k, lag).value
  {
    LastGrows(es, j + 1, k, lag);
    hide Told;
  }

  lemma RunLength(sources: nat, lag: nat, trace: seq<State>, es: seq<Event>)
    requires IsRun(sources, lag, trace, es)
    ensures |trace| == |es| + 1
  {}

  lemma ClaimStep(sources: nat, lag: nat, trace: seq<State>, es: seq<Event>, j: nat)
    requires IsRun(sources, lag, trace, es) && j < |es| && es[j].Sampled?
    ensures var target := Target(trace[j].ix, lag, trace[j].lastSampled);
      target.Some? ==> target.value !in trace[j + 1].ix.slots
  {
    hide Answered, Compared, Target, Valid;
  }

  lemma {:induction false} LastGrows(es: seq<Event>, j: nat, k: nat, lag: nat)
    requires j <= k <= |es|
    ensures LastOf(es, j, lag) <= LastOf(es, k, lag)
  {
    if j < k {
      LastGrows(es, j, k - 1, lag);
    }
  }
}
