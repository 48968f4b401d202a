/** One slot's reassembly state, updated in place. */
module Slots {
  import opened Options
  import opened Bitset
  import opened Shreds
  import opened SlotSpec

  datatype CompletedDataSet = CompletedDataSet(
    slot: nat,
    startShredIndex: nat,
    endShredIndex: nat,
    entries: seq<Entry>)

  /** The payloads in the order of the shreds. */
  function Payloads(shreds: seq<Shred>): (r: seq<Payload>)
    ensures |r| == |shreds| && forall i | 0 <= i < |r| :: r[i] == shreds[i].payload
  {
    seq(|shreds|, i requires 0 <= i < |shreds| => shreds[i].payload)
  }

  /** A data set whose payload does not decode is `None`. */
  function Decoded(t: Taken, decode: seq<Payload> -> Option<seq<Entry>>): Option<CompletedDataSet> {
    match decode(Payloads(t.shreds))
    case None => None
    case Some(entries) => Some(CompletedDataSet(t.slot, t.start, t.end, entries))
  }

  function DecodedAll(ts: seq<Taken>, decode: seq<Payload> -> Option<seq<Entry>>): seq<Option<CompletedDataSet>> {
    seq(|ts|, i requires 0 <= i < |ts| => Decoded(ts[i], decode))
  }

  lemma DecodedConcat(a: seq<Taken>, b: seq<Taken>, decode: seq<Payload> -> Option<seq<Entry>>)
    ensures DecodedAll(a + b, decode) == DecodedAll(a, decode) + DecodedAll(b, decode)
    ensures DecodedAll([], decode) == []
  {}

  class SlotState {
    var slot: nat
    var dataShreds: seq<DataShred>
    var dataSetEnds: seq<Word>
    var codingSets: seq<CodingSet>
    var lastShredIndex: Option<nat>
    var emittedShreds: nat
    var finished: bool

    ghost function View(): Slot
      reads this
    {
      Slot(slot, dataShreds, Members(dataSetEnds), codingSets, lastShredIndex, emittedShreds, finished)
    }

    constructor (slot: nat)
      ensures View() == NewSlot(slot)
    {
      this.slot := slot;
      dataShreds := [];
      dataSetEnds := [];
      codingSets := [];
      lastShredIndex := None;
      emittedShreds := 0;
      finished := false;
      new;
      assert Members([]) == {};
    }

    method MissingDataShreds(lo: nat, hi: nat) returns (n: nat)
      ensures n == CountMissing(dataShreds, lo, hi)
    {
      n := 0;
      var i := lo;
      while i < hi
        invariant lo <= i && (i <= hi || i == lo)
        invariant n == CountMissing(dataShreds, lo, i)
      {
        if i >= |dataShreds| || dataShreds[i].Missing? {
          n := n + 1;
        }
        i := i + 1;
      }
    }

    method HeldDataShreds(lo: nat, hi: nat) returns (n: nat, held: seq<Shred>)
      ensures n == CountHeld(dataShreds, lo, hi)
      ensures held == HeldShreds(dataShreds, lo, hi)
    {
      n, held := 0, [];
      var i := lo;
      while i < hi
        invariant lo <= i && (i <= hi || i == lo)
        invariant n == CountHeld(dataShreds, lo, i)
        invariant held == HeldShreds(dataShreds, lo, i)
      {
        if i < |dataShreds| && dataShreds[i].Held? {
          n := n + 1;
          held := held + [dataShreds[i].shred];
        }
        i := i + 1;
      }
    }

    method FindCodingSet(fec: nat) returns (p: nat)
      ensures p == Position(codingSets, fec)
    {
      p := 0;
      while p < |codingSets| && codingSets[p].fecSetIndex != fec
        invariant p <= |codingSets|
        invariant forall q | 0 <= q < p :: codingSets[q].fecSetIndex != fec
      {
        p := p + 1;
      }
    }

    method InsertDataShred(shred: Shred) returns (inserted: bool)
      modifies this
      ensures View() == InsertData(old(View()), shred)
      ensures inserted == Accepts(old(View()), shred)
    {
      ghost var before := dataShreds;
      var i := shred.index;
      if i >= |dataShreds| {
        dataShreds := dataShreds + seq(i + 1 - |dataShreds|, _ => Missing);
      }
      assert dataShreds == Grow(before, i);
      if !dataShreds[i].Missing? {
        return false;
      }
      if shred.dataComplete {
        dataSetEnds := SetBit(dataSetEnds, i);
      }
      if shred.lastInSlot {
        lastShredIndex := Some(i);
      }
      dataShreds := dataShreds[i := Held(shred)];
      return true;
    }

    method InsertCodingShred(shred: Shred)
      modifies this
      ensures View() == InsertCoding(old(View()), shred)
    {
      var fec := shred.fecSetIndex;
      var count := NumDataShreds(shred.payload);
      if count == None {
        return;
      }
      var missing := MissingDataShreds(fec, fec + count.value);
      if missing == 0 {
        return;
      }
      var p := FindCodingSet(fec);
      if p == |codingSets| {
        codingSets := codingSets + [CodingSet(fec, count.value, [], 0)];
      }
      var coding := codingSets[p].codingShreds;
      if !(exists i :: 0 <= i < |coding| && coding[i].index == shred.index) {
        codingSets := codingSets[p := codingSets[p].(codingShreds := coding + [shred])];
      }
    }

    method Recover(fec: nat, recover: seq<Shred> -> Rebuilt) returns (r: Option<Recovery>)
      modifies this
      ensures View() == SlotSpec.Recover(old(View()), fec, recover).0
      ensures r == SlotSpec.Recover(old(View()), fec, recover).1
    {
      hide Members, CountRebuilt, InsertRebuilt, Position, CountHeld, HeldShreds;
      ghost var s := View();
      var p := FindCodingSet(fec);
      if p == |codingSets| {
        return None;
      }
      var end := codingSets[p].End();
      var missing := MissingDataShreds(fec, end);
      if missing == 0 {
        codingSets := SwapRemove(codingSets, p);
        return None;
      }
      var held, input := HeldDataShreds(fec, end);
      if held + |codingSets[p].codingShreds| < codingSets[p].numDataShreds
         || codingSets[p].recoveryAttempts >= MAX_RECOVERY_ATTEMPTS {
        return None;
      }
      input := input + codingSets[p].codingShreds;
      codingSets := codingSets[p := codingSets[p].(recoveryAttempts := codingSets[p].recoveryAttempts + 1)];
      assert View() == Attempted(s, fec);
      var recovered, failed := 0, false;
      var rebuilt := recover(input);
      if rebuilt.Unrecoverable? {
        failed := true;
      } else {
        recovered, failed := InsertRecovered(rebuilt.shreds);
      }
      assert View() == Refilled(s, fec, recover);
      RefilledKeepsCoding(s, fec, recover);
      missing := MissingDataShreds(fec, end);
      if missing == 0 {
        codingSets := SwapRemove(codingSets, p);
      }
      return Some(Recovery(fec, end - 1, recovered, failed));
    }

    method InsertRecovered(shreds: seq<Option<Shred>>) returns (recovered: nat, failed: bool)
      modifies this
      ensures View() == InsertRebuilt(old(View()), shreds, |shreds|)
      ensures recovered == CountRebuilt(old(View()), shreds, |shreds|)
      ensures failed <==> exists i :: 0 <= i < |shreds| && shreds[i] == None
    {
      recovered, failed := 0, false;
      for i := 0 to |shreds|
        invariant View() == InsertRebuilt(old(View()), shreds, i)
        invariant recovered == CountRebuilt(old(View()), shreds, i)
        invariant failed <==> exists j :: 0 <= j < i && shreds[j] == None
      {
        match shreds[i] {
          case Some(shred) =>
            if shred.isData {
              var inserted := InsertDataShred(shred);
              if inserted {
                recovered := recovered + 1;
              }
            }
          case None =>
            failed := true;
        }
      }
    }

    method RangeHeld(lo: nat, hi: nat) returns (b: bool)
      ensures b == AllHeld(dataShreds, lo, hi)
    {
      var i := lo;
      while i < hi
        invariant lo <= i
        invariant AllHeld(dataShreds, lo, i)
      {
        if !(i < |dataShreds| && dataShreds[i].Held?) {
          assert !HeldAt(dataShreds, i);
          return false;
        }
        i := i + 1;
      }
      return true;
    }

    method DataSetStart(first: nat) returns (start: nat)
      ensures start == SegmentStart(View().ends, first)
    {
      var before := LastBitBefore(dataSetEnds, first);
      LastEndUnique(View().ends, first, before);
      start := if before.Some? then before.value + 1 else 0;
    }

    method NextDataSetEnd(from: nat) returns (end: Option<nat>)
      ensures end == NextEnd(View().ends, from)
    {
      end := NextBitFrom(dataSetEnds, from);
      NextEndUnique(View().ends, from, end);
    }

    method TakeCompletedDataSets(first: nat, last: nat, decode: seq<Payload> -> Option<seq<Entry>>)
      returns (sets: seq<Option<CompletedDataSet>>)
      requires first <= last
      modifies this
      ensures View() == TakeCompleted(old(View()), first, last).state
      ensures sets == DecodedAll(TakeCompleted(old(View()), first, last).taken, decode)
    {
      hide SlotSpec.TakeIfHeld, View, DecodedAll;
      ghost var all := TakeCompleted(View(), first, last);
      var start: nat := DataSetStart(first);
      var from := first;
      sets := [];
      ghost var taken := [];
      DecodedConcat([], [], decode);
      while true
        invariant start <= from <= last + 1
        invariant all.state == TakeFrom(View(), start, from, last).state
        invariant all.taken == taken + TakeFrom(View(), start, from, last).taken
        invariant sets == DecodedAll(taken, decode)
        decreases last + 1 - from
      {
        var next := NextDataSetEnd(from);
        if next == None {
          assert all.taken == taken;
          break;
        }
        var end := next.value;
        ghost var one := SlotSpec.TakeIfHeld(View(), start, end).taken;
        DecodedConcat(taken, one, decode);
        var more := TakeIfHeld(start, end, decode);
        sets := sets + more;
        taken := taken + one;
        if end > last {
          assert all.taken == taken;
          break;
        }
        start := end + 1;
        from := start;
      }
    }

    method TakeIfHeld(start: nat, end: nat, decode: seq<Payload> -> Option<seq<Entry>>)
      returns (sets: seq<Option<CompletedDataSet>>)
      requires start <= end
      modifies this
      ensures View() == SlotSpec.TakeIfHeld(old(View()), start, end).state
      ensures sets == DecodedAll(SlotSpec.TakeIfHeld(old(View()), start, end).taken, decode)
    {
      sets := [];
      var ready := RangeHeld(start, end + 1);
      if ready {
        assert HeldAt(dataShreds, end);
        var one := TakeDataSet(start, end, decode);
        sets := [one];
      }
    }

    method TakeDataSet(start: nat, end: nat, decode: seq<Payload> -> Option<seq<Entry>>)
      returns (r: Option<CompletedDataSet>)
      requires start <= end < |dataShreds|
      modifies this
      ensures View() == Take(old(View()), start, end)
      ensures r == Decoded(TakenSet(old(View()), start, end), decode)
    {
      var shreds := [];
      ghost var was := dataShreds;
      var i := start;
      while i <= end
        invariant start <= i <= end + 1
        invariant dataShreds == MarkEmitted(was, start, i)
        invariant shreds == HeldShreds(was, start, i)
        invariant View() == old(View()).(cells := dataShreds)
      {
        if dataShreds[i].Held? {
          shreds := shreds + [dataShreds[i].shred];
        }
        dataShreds := dataShreds[i := Emitted];
        i := i + 1;
      }
      emittedShreds := emittedShreds + (end - start + 1);
      RetainCodingSets(start, end);
      if lastShredIndex.Some? && emittedShreds == lastShredIndex.value + 1 {
        FinishSlot();
      }
      var decoded := decode(Payloads(shreds));
      if decoded == None {
        return None;
      }
      return Some(CompletedDataSet(slot, start, end, decoded.value));
    }

    method RetainCodingSets(start: nat, end: nat)
      modifies `codingSets
      ensures codingSets == Retain(old(codingSets), dataShreds, start, end)
    {
      var kept: seq<CodingSet> := [];
      for i := 0 to |codingSets|
        invariant codingSets == old(codingSets)
        invariant kept == Retain(codingSets[..i], dataShreds, start, end)
      {
        var c := codingSets[i];
        assert codingSets[..i + 1][..i] == codingSets[..i];
        var missing := MissingDataShreds(c.fecSetIndex, c.End());
        if !(c.fecSetIndex <= end && c.End() > start) || missing > 0 {
          kept := kept + [c];
        }
      }
      assert codingSets[..|codingSets|] == codingSets;
      codingSets := kept;
    }

    method FinishSlot()
      modifies this
      ensures View() == Finish(old(View()))
    {
      finished := true;
      dataShreds := [];
      dataSetEnds := [];
      codingSets := [];
      assert Members([]) == {};
    }
  }
}
