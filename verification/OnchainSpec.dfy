/** Signatures delivered per slot and source, and their comparison with the block, as values. */
module OnchainSpec {
  import opened Options
  import opened AuditSpec

  const RETAIN_MARGIN_SLOTS: nat := 16

  datatype SourceSlot = SourceSlot(sigs: set<Signature>, duplicated: nat)

  const NOTHING := SourceSlot({}, 0)

  datatype Index = Index(sources: nat, slots: map<nat, seq<SourceSlot>>, tip: nat, retain: nat)

  function NewIndex(sources: nat, retain: nat): Index { Index(sources, map[], 0, retain) }

  function Add(s: SourceSlot, sig: Signature): SourceSlot {
    if sig in s.sigs then s.(duplicated := s.duplicated + 1) else s.(sigs := s.sigs + {sig})
  }

  function Fresh(n: nat): seq<SourceSlot> { seq(n, _ => NOTHING) }

  function AtSlot(ix: Index, slot: nat): seq<SourceSlot> {
    if slot in ix.slots then ix.slots[slot] else Fresh(ix.sources)
  }

  /** A new tip drops what fell behind it. */
  function Advance(ix: Index, slot: nat): Index {
    if slot <= ix.tip then ix
    else ix.(tip := slot, slots := map s | s in ix.slots && s >= Monus(slot, ix.retain) :: ix.slots[s])
  }

  ghost predicate Shaped(ix: Index) {
    forall s | s in ix.slots :: |ix.slots[s]| == ix.sources
  }

  function Record(ix: Index, sid: nat, slot: nat, sig: Signature): Index
    requires Shaped(ix) && sid < ix.sources
  {
    if slot == 0 then ix else
    var at := Advance(ix, slot);
    if slot < Monus(at.tip, at.retain) then at
    else at.(slots := at.slots[slot := AtSlot(at, slot)[sid := Add(AtSlot(at, slot)[sid], sig)]])
  }

  datatype SourceAudit = SourceAudit(
    slotsChecked: nat, slotsAbsent: nat, onchainTxns: nat, missed: nat, corrupted: nat, duplicated: nat)

  datatype OnchainAudit = OnchainAudit(
    sources: seq<SourceAudit>, slotsChecked: nat, slotsUnavailable: nat, rpcErrors: nat)

  /** What `getBlock` tells about a slot. */
  datatype Answer = Signatures(onchain: set<Signature>) | NoBlock | Failed

  function CompareSource(a: SourceAudit, s: SourceSlot, onchain: set<Signature>): SourceAudit {
    if s == NOTHING then a.(slotsAbsent := a.slotsAbsent + 1) else
    var hit := |s.sigs * onchain|;
    a.(slotsChecked := a.slotsChecked + 1,
       onchainTxns := a.onchainTxns + |onchain|,
       missed := a.missed + Monus(|onchain|, hit),
       corrupted := a.corrupted + Monus(|s.sigs|, hit),
       duplicated := a.duplicated + s.duplicated)
  }

  /** Sources that are to be skipped are left alone. */
  function CompareRow(a: SourceAudit, i: nat, onchain: set<Signature>, sources: seq<SourceSlot>, skip: seq<bool>): SourceAudit {
    if i < |sources| && !(i < |skip| && skip[i]) then CompareSource(a, sources[i], onchain) else a
  }

  function CompareSlot(audit: OnchainAudit, onchain: set<Signature>, sources: seq<SourceSlot>, skip: seq<bool>): OnchainAudit {
    audit.(
      slotsChecked := audit.slotsChecked + 1,
      sources := seq(|audit.sources|, i requires 0 <= i < |audit.sources| =>
                       CompareRow(audit.sources[i], i, onchain, sources, skip)))
  }

  /** The slot to sample next, if the tip has moved on far enough. */
  function Target(ix: Index, lag: nat, lastSampled: nat): Option<nat> {
    var target := Monus(ix.tip, lag);
    if target == 0 || target <= lastSampled then None else Some(target)
  }

  function Taken(ix: Index, slot: nat): Index { ix.(slots := ix.slots - {slot}) }

  /** The comparison a sample makes, if its slot was delivered and the answer has signatures. */
  function Answered(audit: OnchainAudit, answer: Answer, sources: seq<SourceSlot>, skip: seq<bool>): OnchainAudit {
    match answer
    case Signatures(onchain) => CompareSlot(audit, onchain, sources, skip)
    case NoBlock => audit.(slotsUnavailable := audit.slotsUnavailable + 1)
    case Failed => audit.(rpcErrors := audit.rpcErrors + 1)
  }
}
