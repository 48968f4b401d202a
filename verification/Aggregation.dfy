/** The FEC-set aggregator, updated in place. */
module Aggregation {
  import opened Common
  import opened Options
  import opened Positions
  import opened AggSpec

  lemma FinalizeKeeps(key: SetKey, st: SetState, truth: map<TruthKey, Hash>)
    ensures Finalize(key, st, truth).key == key
  {}

  class Aggregator {
    var sets: map<SetKey, SetState>
    var truth: map<TruthKey, Hash>
    var maxSlot: nat
    var latestSlot: map<Provider, nat>
    const maxWaitSlots: nat
    var evictedUpto: nat
    var shredsAfterWindow: nat

    ghost function View(): Agg
      reads this
    {
      Agg(sets, truth, maxSlot, latestSlot, maxWaitSlots, evictedUpto, shredsAfterWindow)
    }

    constructor (maxWaitSlots: nat)
      ensures View() == NewAgg(maxWaitSlots)
    {
      sets := map[];
      truth := map[];
      maxSlot := 0;
      latestSlot := map[];
      this.maxWaitSlots := maxWaitSlots;
      evictedUpto := 0;
      shredsAfterWindow := 0;
    }

    method Ingest(s: VerifiedShred)
      modifies this
      ensures View() == AggSpec.Ingest(old(View()), s)
    {
      hide Accept;
      if s.slot > maxSlot {
        maxSlot := s.slot;
      }
      if s.Authentic() {
        var latest := if s.provider in latestSlot then latestSlot[s.provider] else 0;
        latestSlot := latestSlot[s.provider := if latest > s.slot then latest else s.slot];
      }
      if s.slot <= evictedUpto {
        shredsAfterWindow := shredsAfterWindow + 1;
        return;
      }
      var key := KeyOf(s);
      var st := if key in sets then sets[key] else NewSet(s.leader, s.rxNs);
      if s.payloadHash in st.seen {
        sets := sets[key := st.(duplicated := st.duplicated + 1)];
        return;
      }
      st := st.(seen := st.seen + {s.payloadHash});
      if s.Invalid() {
        st := st.(invalidShreds := st.invalidShreds + [InvalidShred(s.isCode, s.shredIndex, s.dataHash)]);
        sets := sets[key := st];
        return;
      }
      if s.sigOk.None? {
        sets := sets[key := st.(unverifiable := st.unverifiable + 1)];
        return;
      }
      if s.dataHash.Some? {
        truth := truth[TruthKeyOf(s) := s.dataHash.value];
      }
      st := AcceptShred(st, s);
      sets := sets[key := st];
    }

    method AcceptShred(before: SetState, s: VerifiedShred) returns (st: SetState)
      ensures st == Accept(before, s)
    {
      hide Mark;
      st := before;
      var isNew;
      if s.isCode {
        if st.numData == None {
          st := st.(numData := s.numData, numCoding := s.numCoding);
        }
        var (bits, new_) := Mark(st.codePos, s.position);
        st, isNew := st.(codePos := bits), new_;
      } else {
        st := st.(lastInSlot := st.lastInSlot || s.lastInSlot);
        if st.numData == None && s.dataComplete {
          st := st.(numData := Some((s.position + 1) % 0x1_0000));
        }
        var (bits, new_) := Mark(st.dataPos, s.position);
        st, isNew := st.(dataPos := bits), new_;
      }
      if isNew {
        st := st.(arrivals := st.arrivals + [s.rxNs]);
      }
      var first := if st.firstNs.Some? then Min(st.firstNs.value, s.rxNs) else s.rxNs;
      var last := if st.lastNs.Some? then Max(st.lastNs.value, s.rxNs) else s.rxNs;
      st := st.(firstNs := Some(first), lastNs := Some(last));
    }

    /** Classify the shreds that failed verification against what is known now, and sum the set up. */
    method FinalizeSet(key: SetKey, st: SetState) returns (row: SetRow)
      ensures row == Finalize(key, st, truth)
    {
      hide Classify, CountOnes, Sorted;
      var sig, data, unknown := 0, 0, 0;
      for i := 0 to |st.invalidShreds|
        invariant sig == CountVerdict(st.invalidShreds[..i], BadSignature, key.slot, key.fec, truth)
        invariant data == CountVerdict(st.invalidShreds[..i], BadData, key.slot, key.fec, truth)
        invariant unknown == CountVerdict(st.invalidShreds[..i], Unknown, key.slot, key.fec, truth)
      {
        assert st.invalidShreds[..i + 1][..i] == st.invalidShreds[..i];
        match Classify(st.invalidShreds[i], key.slot, key.fec, truth) {
          case BadSignature => sig := sig + 1;
          case BadData => data := data + 1;
          case Unknown => unknown := unknown + 1;
        }
      }
      assert st.invalidShreds[..|st.invalidShreds|] == st.invalidShreds;
      var invalid := |st.invalidShreds|;
      var nData, nCode := CountOnes(st.dataPos), CountOnes(st.codePos);
      var expected := ExpectedTotal(st);
      var delivered := nData + nCode;
      var missed := if expected.GetOr(delivered) > delivered then expected.GetOr(delivered) - delivered else 0;
      var decodeNs: Option<int> := None;
      var k := st.numData.GetOr(0);
      if k > 0 && |st.arrivals| >= k {
        decodeNs := Some(Sorted(st.arrivals)[k - 1]);
      }
      row := SetRow(
        key, st.leader,
        st.firstNs.GetOr(st.createdNs), decodeNs, st.lastNs.GetOr(st.createdNs),
        nData, nCode, expected, missed,
        invalid, sig, data, unknown,
        st.duplicated, st.unverifiable,
        invalid == 0 && st.unverifiable == 0 && decodeNs.Some?,
        st.lastInSlot);
    }

    /** Emit every set far enough behind the tip, each once, in no particular order. */
    method Harvest(drainAll: bool) returns (rows: seq<SetRow>)
      modifies this
      ensures View() == AggSpec.Harvest(old(View()), drainAll)
      ensures |rows| == |Rows(old(View()), drainAll)|
      ensures forall i | 0 <= i < |rows| ::
        rows[i].key in Rows(old(View()), drainAll) && rows[i] == Rows(old(View()), drainAll)[rows[i].key]
      ensures forall i, j | 0 <= i < j < |rows| :: rows[i].key != rows[j].key
    {
      hide Finalize;
      ghost var before := View();
      var cutoff := if maxSlot > maxWaitSlots then maxSlot - maxWaitSlots else 0;
      var ready := set key | key in sets && (drainAll || key.slot <= cutoff);
      RipeKeys(before, drainAll, ready);
      rows := EmitReady(ready);
      if drainAll {
        truth := map[];
        evictedUpto := cutoff;
      } else if cutoff > evictedUpto {
        truth := map key | key in truth && key.slot > cutoff :: truth[key];
        evictedUpto := cutoff;
      }
    }

    /** Remove and finalize the sets in `ready`. */
    method EmitReady(ready: set<SetKey>) returns (rows: seq<SetRow>)
      requires ready <= sets.Keys
      modifies `sets
      ensures sets == old(sets) - ready
      ensures |rows| == |ready|
      ensures forall i | 0 <= i < |rows| ::
        rows[i].key in ready && rows[i] == Finalize(rows[i].key, old(sets)[rows[i].key], truth)
      ensures forall i, j | 0 <= i < j < |rows| :: rows[i].key != rows[j].key
    {
      hide Finalize;
      var todo := ready;
      rows := [];
      while todo != {}
        invariant todo <= ready
        invariant sets == old(sets) - (ready - todo)
        invariant |rows| + |todo| == |ready|
        invariant forall i | 0 <= i < |rows| ::
          rows[i].key in ready - todo && rows[i] == Finalize(rows[i].key, old(sets)[rows[i].key], truth)
        invariant forall i, j | 0 <= i < j < |rows| :: rows[i].key != rows[j].key
        decreases todo
      {
        var key :| key in todo;
        assert Finalize(key, sets[key], truth).key == key by { FinalizeKeeps(key, sets[key], truth); }
        var row := FinalizeSet(key, sets[key]);
        rows := rows + [row];
        sets := sets - {key};
        todo := todo - {key};
      }
    }

  }

  lemma RipeKeys(a: Agg, drainAll: bool, ready: set<SetKey>)
    requires ready == set key | key in a.sets && Ripe(a, drainAll, key)
    ensures Rows(a, drainAll).Keys == ready
    ensures AggSpec.Harvest(a, drainAll).sets == a.sets - ready
    ensures |Rows(a, drainAll)| == |ready|
  {}
}
