/** The slot index and the sampling worker, updated in place. */
module Sampling {
  import opened Options
  import opened AuditSpec
  import opened OnchainSpec

  class SlotSigIndex {
    const sources: nat
    const retain: nat
    var slots: map<nat, seq<SourceSlot>>
    var tip: nat

    ghost function View(): Index
      reads this
    {
      Index(sources, slots, tip, retain)
    }

    constructor (sources: nat, retain: nat)
      ensures View() == NewIndex(sources, retain) && Shaped(View())
    {
      this.sources, this.retain, slots, tip := sources, retain, map[], 0;
    }

    method Record(sid: nat, slot: nat, sig: Signature)
      requires Shaped(View()) && sid < sources
      modifies this
      ensures View() == OnchainSpec.Record(old(View()), sid, slot, sig) && Shaped(View())
    {
      if slot == 0 {
        return;
      }
      if slot > tip {
        tip := slot;
        var floor := Monus(tip, retain);
        slots := map s | s in slots && s >= floor :: slots[s];
      }
      if slot < Monus(tip, retain) {
        return;
      }
      var at := if slot in slots then slots[slot] else seq(sources, _ => NOTHING);
      var s := at[sid];
      if sig in s.sigs {
        s := s.(duplicated := s.duplicated + 1);
      } else {
        s := s.(sigs := s.sigs + {sig});
      }
      slots := slots[slot := at[sid := s]];
    }

    method Take(slot: nat) returns (taken: Option<seq<SourceSlot>>)
      requires Shaped(View())
      modifies this
      ensures taken == if slot in old(slots) then Some(old(slots)[slot]) else None
      ensures View() == Taken(old(View()), slot) && Shaped(View())
    {
      taken := if slot in slots then Some(slots[slot]) else None;
      slots := slots - {slot};
    }
  }

  class Worker {
    const index: SlotSigIndex
    const lag: nat
    var lastSampled: nat
    var audit: OnchainAudit

    constructor (index: SlotSigIndex, lag: nat)
      ensures this.index == index && this.lag == lag && lastSampled == 0
      ensures audit == OnchainAudit(seq(index.sources, _ => SourceAudit(0, 0, 0, 0, 0, 0)), 0, 0, 0)
    {
      this.index, this.lag, lastSampled := index, lag, 0;
      audit := OnchainAudit(seq(index.sources, _ => SourceAudit(0, 0, 0, 0, 0, 0)), 0, 0, 0);
    }

    /** Claims the slot `lag` behind the tip, once, and compares what was delivered for it with the block. */
    method Sample(answer: Answer, skip: seq<bool>, cancelled: bool)
      requires Shaped(index.View())
      modifies this, index
      ensures var target := Target(old(index.View()), lag, old(lastSampled));
        && lastSampled == target.GetOr(old(lastSampled))
        && index.View() == (if target.Some? then Taken(old(index.View()), target.value) else old(index.View()))
        && audit == (if target.Some? && target.value in old(index.slots) && !cancelled then
                       Answered(old(audit), answer, old(index.slots)[target.value], skip)
                     else old(audit))
    {
      var target := Monus(index.tip, lag);
      if target == 0 || target <= lastSampled {
        return;
      }
      lastSampled := target;
      var sources := index.Take(target);
      if sources.None? || cancelled {
        return;
      }
      match answer {
        case Signatures(onchain) => Compare(onchain, sources.value, skip);
        case NoBlock => audit := audit.(slotsUnavailable := audit.slotsUnavailable + 1);
        case Failed => audit := audit.(rpcErrors := audit.rpcErrors + 1);
      }
    }

    method Compare(onchain: set<Signature>, sources: seq<SourceSlot>, skip: seq<bool>)
      modifies this`audit
      ensures audit == CompareSlot(old(audit), onchain, sources, skip)
    {
      hide CompareRow;
      var rows := audit.sources;
      ghost var was := rows;
      for sid := 0 to |rows|
        invariant audit == old(audit) && |rows| == |was|
        invariant forall i: nat | i < |was| ::
          rows[i] == if i < sid then CompareRow(was[i], i, onchain, sources, skip) else was[i]
      {
        var row := CompareAt(rows[sid], sid, onchain, sources, skip);
        rows := rows[sid := row];
      }
      assert rows == CompareSlot(audit, onchain, sources, skip).sources;
      audit := audit.(slotsChecked := audit.slotsChecked + 1, sources := rows);
    }

    static method CompareAt(before: SourceAudit, sid: nat, onchain: set<Signature>, sources: seq<SourceSlot>, skip: seq<bool>)
      returns (a: SourceAudit)
      ensures a == CompareRow(before, sid, onchain, sources, skip)
    {
      a := before;
      if sid < |sources| && !(sid < |skip| && skip[sid]) {
        a := CompareOne(before, sources[sid], onchain);
      }
    }

    static method CompareOne(before: SourceAudit, s: SourceSlot, onchain: set<Signature>) returns (a: SourceAudit)
      ensures a == CompareSource(before, s, onchain)
    {
      a := before;
      if s.sigs == {} && s.duplicated == 0 {
        a := a.(slotsAbsent := a.slotsAbsent + 1);
        return;
      }
      var hits := set k | k in s.sigs && k in onchain;
      assert hits == s.sigs * onchain;
      a := a.(slotsChecked := a.slotsChecked + 1,
              onchainTxns := a.onchainTxns + |onchain|,
              missed := a.missed + Monus(|onchain|, |hits|),
              corrupted := a.corrupted + Monus(|s.sigs|, |hits|),
              duplicated := a.duplicated + s.duplicated);
    }
  }
}
