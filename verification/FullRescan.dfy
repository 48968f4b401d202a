/**
 The example client's decoder: on every data shred it rescans all known ends of the slot.
 */
module FullRescan {
  import opened Common
  import opened Options
  import opened Bitset
  import opened Shreds
  import opened SlotSpec
  import opened SlotLaws

  datatype Rescan = Rescan(shreds: map<nat, Shred>, complete: set<nat>, processed: set<nat>)

  datatype RescanOutcome = RescanOutcome(state: Rescan, taken: seq<Taken>)

  predicate AllPresent(shreds: map<nat, Shred>, lo: nat, hi: nat) {
    forall i | lo <= i < hi :: i in shreds
  }

  function Present(shreds: map<nat, Shred>, lo: nat, hi: nat): seq<Shred>
    requires AllPresent(shreds, lo, hi)
    decreases hi
  {
    if lo >= hi then [] else Present(shreds, lo, hi - 1) + [shreds[hi - 1]]
  }

  function Store(r: Rescan, shred: Shred): Rescan {
    r.(shreds := r.shreds[shred.index := shred],
       complete := if shred.dataComplete then r.complete + {shred.index} else r.complete)
  }

  /** Ends at `start` or later. */
  ghost function EndsFrom(ends: set<nat>, start: nat): set<nat> {
    set e | e in ends && e >= start
  }

  /** One known end: hand its segment out if it is new and wholly there. */
  function Visit(r: Rescan, slot: nat, start: nat, end: nat): RescanOutcome
    requires start <= end
  {
    if end !in r.processed && AllPresent(r.shreds, start, end + 1) then
      RescanOutcome(r.(processed := r.processed + {end}), [Taken(slot, start, end, Present(r.shreds, start, end + 1))])
    else RescanOutcome(r, [])
  }

  /** All known ends from `start` on, in ascending order. */
  ghost function VisitFrom(r: Rescan, slot: nat, start: nat): RescanOutcome
    decreases |EndsFrom(r.complete, start)|
  {
    match NextEnd(r.complete, start)
    case None => RescanOutcome(r, [])
    case Some(end) =>
      FewerEnds(r.complete, start, end);
      var one := Visit(r, slot, start, end);
      var rest := VisitFrom(one.state, slot, end + 1);
      RescanOutcome(rest.state, one.taken + rest.taken)
  }

  lemma FewerEnds(ends: set<nat>, start: nat, end: nat)
    requires end in ends && start <= end
    ensures |EndsFrom(ends, end + 1)| < |EndsFrom(ends, start)|
  {
    var a, b := EndsFrom(ends, end + 1), EndsFrom(ends, start);
    assert end in b && end !in a;
    SubsetSize(a, b - {end});
  }

  ghost function Ingest(r: Rescan, shred: Shred): RescanOutcome {
    if !shred.isData then RescanOutcome(r, []) else VisitFrom(Store(r, shred), shred.slot, 0)
  }

  class SlotDecoder {
    var dataShreds: map<nat, Shred>
    var completeIndices: set<nat>
    var processedEnds: set<nat>

    ghost function View(): Rescan
      reads this
    {
      Rescan(dataShreds, completeIndices, processedEnds)
    }

    constructor ()
      ensures View() == Rescan(map[], {}, {})
    {
      dataShreds := map[];
      completeIndices := {};
      processedEnds := {};
    }

    /** The payloads of `lo..hi`, or nothing if one is missing. */
    method Collect(lo: nat, hi: nat) returns (shreds: Option<seq<Shred>>)
      requires lo <= hi
      ensures shreds.Some? <==> AllPresent(dataShreds, lo, hi)
      ensures shreds.Some? ==> shreds.value == Present(dataShreds, lo, hi)
    {
      var got := [];
      for i := lo to hi
        invariant AllPresent(dataShreds, lo, i) && got == Present(dataShreds, lo, i)
      {
        if i !in dataShreds {
          return None;
        }
        got := got + [dataShreds[i]];
      }
      return Some(got);
    }

    method VisitEnd(slot: nat, start: nat, end: nat) returns (taken: seq<Taken>)
      requires start <= end
      modifies this`processedEnds
      ensures View() == Visit(old(View()), slot, start, end).state
      ensures taken == Visit(old(View()), slot, start, end).taken
    {
      taken := [];
      if end !in processedEnds {
        var payloads := Collect(start, end + 1);
        if payloads.Some? {
          processedEnds := processedEnds + {end};
          taken := [Taken(slot, start, end, payloads.value)];
        }
      }
    }

    method IngestShred(shred: Shred) returns (taken: seq<Taken>)
      modifies this
      ensures View() == Ingest(old(View()), shred).state
      ensures taken == Ingest(old(View()), shred).taken
    {
      taken := [];
      if !shred.isData {
        return;
      }
      if shred.dataComplete {
        completeIndices := completeIndices + {shred.index};
      }
      dataShreds := dataShreds[shred.index := shred];
      taken := VisitAll(shred.slot);
    }

    /** The ends are visited smallest first, as the ordered set yields them. */
    method VisitAll(slot: nat) returns (taken: seq<Taken>)
      modifies this`processedEnds
      ensures View() == VisitFrom(old(View()), slot, 0).state
      ensures taken == VisitFrom(old(View()), slot, 0).taken
    {
      hide VisitFrom, Visit, EndsFrom;
      taken := [];
      ghost var all := VisitFrom(View(), slot, 0);
      var start: nat, todo := 0, completeIndices;
      AllFromZero(completeIndices);
      assert [] + all.taken == all.taken;
      while todo != {}
        invariant todo == EndsFrom(completeIndices, start)
        invariant all.state == VisitFrom(View(), slot, start).state
        invariant all.taken == taken + VisitFrom(View(), slot, start).taken
        decreases todo
      {
        var end := Least(todo);
        VisitLeast(View(), slot, start, end);
        var more := VisitEnd(slot, start, end);
        taken := taken + more;
        start, todo := end + 1, todo - {end};
      }
      VisitNone(View(), slot, start);
    }

    method Least(ends: set<nat>) returns (least: nat)
      requires ends != {}
      ensures least in ends && forall e | e in ends :: least <= e
    {
      least :| least in ends;
      var rest := ends - {least};
      while rest != {}
        invariant least in ends && rest <= ends
        invariant forall e | e in ends :: e in rest || least <= e
        decreases rest
      {
        var e :| e in rest;
        if e < least {
          least := e;
        }
        rest := rest - {e};
      }
    }
  }

  lemma AllFromZero(ends: set<nat>)
    ensures EndsFrom(ends, 0) == ends
  {}

  /** The least end still to come is the next to be visited. */
  lemma VisitLeast(r: Rescan, slot: nat, start: nat, end: nat)
    requires end in EndsFrom(r.complete, start) && forall e | e in EndsFrom(r.complete, start) :: end <= e
    ensures start <= end
    ensures EndsFrom(r.complete, end + 1) == EndsFrom(r.complete, start) - {end}
    ensures var one := Visit(r, slot, start, end);
      var rest := VisitFrom(one.state, slot, end + 1);
      one.state.complete == r.complete && VisitFrom(r, slot, start) == RescanOutcome(rest.state, one.taken + rest.taken)
  {
    hide AllPresent;
    forall f | f in r.complete && f >= start ensures end <= f {
      assert f in EndsFrom(r.complete, start);
    }
    NextEndUnique(r.complete, start, Some(end));
  }

  lemma VisitNone(r: Rescan, slot: nat, start: nat)
    requires EndsFrom(r.complete, start) == {}
    ensures VisitFrom(r, slot, start) == RescanOutcome(r, [])
  {
    forall e | e in r.complete ensures e < start {
      assert e >= start ==> e in EndsFrom(r.complete, start);
    }
    NextEndUnique(r.complete, start, None);
  }
}
