/** The deshredder: a ring of slot states and its counters. */
module Deshredding {
  import opened Options
  import opened Shreds
  import opened SlotSpec
  import opened RingSpec
  import opened Slots
  import opened Decoding

  class Deshredder {
    const codec: Codec
    const slots: array<SlotState?>
    var recoveries: nat
    var recoveredShreds: nat
    var recoveryErrors: nat
    var decodeErrors: nat

    ghost function States(): set<object>
      reads slots
    {
      set i | 0 <= i < slots.Length && slots[i] != null :: slots[i]
    }

    ghost predicate Valid()
      reads this, slots
    {
      && slots.Length == SLOT_HISTORY_SIZE
      && forall i, j | 0 <= i < j < slots.Length && slots[i] != null :: slots[i] != slots[j]
    }

    ghost function View(): Ring
      requires Valid()
      reads this, slots, States()
    {
      seq(SLOT_HISTORY_SIZE, i requires 0 <= i < SLOT_HISTORY_SIZE reads slots, States() =>
        if slots[i] == null then None else Some(slots[i].View()))
    }

    constructor (codec: Codec)
      ensures Valid() && fresh(slots) && this.codec == codec
      ensures View() == EmptyRing()
      ensures recoveries == recoveredShreds == recoveryErrors == decodeErrors == 0
    {
      this.codec := codec;
      slots := new SlotState?[SLOT_HISTORY_SIZE](_ => null);
      recoveries, recoveredShreds, recoveryErrors, decodeErrors := 0, 0, 0, 0;
    }

    method StateOf(slot: nat) returns (state: SlotState?)
      requires Valid()
      modifies slots
      ensures Valid() && (state != null ==> state in States())
      ensures fresh(States() - old(States()))
      ensures state == null <==> Superseded(old(View()), slot)
      ensures state == null ==> View() == old(View())
      ensures state != null ==>
        && slots[slot % SLOT_HISTORY_SIZE] == state
        && View() == old(View())[slot % SLOT_HISTORY_SIZE := Some(StateFor(old(View()), slot))]
    {
      var k := slot % SLOT_HISTORY_SIZE;
      state := slots[k];
      if state != null {
        if state.slot > slot {
          return null;
        }
        if state.slot == slot {
          return;
        }
      }
      state := new SlotState(slot);
      slots[k] := state;
    }

    /** Insert one shred into its slot's state and try to recover its FEC set. */
    method TakeInShred(state: SlotState, shred: Shred)
      returns (recovery: Option<Recovery>, searched: Option<(nat, nat)>)
      modifies state, this`recoveries, this`recoveredShreds, this`recoveryErrors
      ensures Intake(state.View(), recovery, searched) == TakeIn(old(state.View()), shred, codec.recover)
      ensures recoveries == old(recoveries) + (if recovery.Some? then 1 else 0)
      ensures recoveredShreds == old(recoveredShreds) + (if recovery.Some? then recovery.value.recovered else 0)
      ensures recoveryErrors == old(recoveryErrors) + (if recovery.Some? && recovery.value.failed then 1 else 0)
    {
      hide SlotSpec.Recover, InsertData, InsertCoding;
      searched := None;
      if shred.isData {
        var inserted := state.InsertDataShred(shred);
        if inserted {
          searched := Some((shred.index, shred.index));
        }
      } else {
        state.InsertCodingShred(shred);
      }
      recovery := state.Recover(shred.fecSetIndex, codec.recover);
      if recovery.Some? {
        recoveries := recoveries + 1;
        recoveredShreds := recoveredShreds + recovery.value.recovered;
        if recovery.value.failed {
          recoveryErrors := recoveryErrors + 1;
        }
        if recovery.value.recovered > 0 {
          searched := Some((recovery.value.start, recovery.value.end));
        }
      }
    }

    /** Keep the data sets that decoded and count the ranges that did not. */
    method Collect(ghost taken: seq<Taken>, decoded: seq<Option<CompletedDataSet>>) returns (sets: seq<CompletedDataSet>)
      requires decoded == DecodedAll(taken, codec.decode)
      modifies this`decodeErrors
      ensures ComesBack(taken, codec.decode, sets)
      ensures decodeErrors == old(decodeErrors) + |Refused(taken, codec.decode)|
    {
      hide ComesBack, Refused, Decoded;
      sets := [];
      NothingBack(codec.decode);
      for i := 0 to |decoded|
        invariant ComesBack(taken[..i], codec.decode, sets)
        invariant decodeErrors == old(decodeErrors) + |Refused(taken[..i], codec.decode)|
      {
        OneMore(taken[..i], taken[i], codec.decode, sets);
        assert taken[..i + 1] == taken[..i] + [taken[i]];
        match decoded[i] {
          case Some(set_) => sets := sets + [set_];
          case None => decodeErrors := decodeErrors + 1;
        }
      }
      assert taken[..|decoded|] == taken;
    }

    /** Insert one shred into its slot's state, recover, and hand out what became complete. */
    method InsertInto(state: SlotState, shred: Shred) returns (sets: seq<CompletedDataSet>)
      modifies state, this
      ensures var o := Insert(old(state.View()), shred, codec.recover);
        && state.View() == o.state
        && ComesBack(o.taken, codec.decode, sets)
        && decodeErrors == old(decodeErrors) + |Refused(o.taken, codec.decode)|
        && recoveries == old(recoveries) + (if o.recovery.Some? then 1 else 0)
        && recoveredShreds == old(recoveredShreds) + (if o.recovery.Some? then o.recovery.value.recovered else 0)
        && recoveryErrors == old(recoveryErrors) + (if o.recovery.Some? && o.recovery.value.failed then 1 else 0)
    {
      hide TakeIn, TakeCompleted, ComesBack, Refused;
      NothingBack(codec.decode);
      if state.finished {
        return [];
      }
      var recovery, searched := TakeInShred(state, shred);
      if searched == None {
        return [];
      }
      ghost var intake := state.View();
      var decoded := state.TakeCompletedDataSets(searched.value.0, searched.value.1, codec.decode);
      sets := Collect(TakeCompleted(intake, searched.value.0, searched.value.1).taken, decoded);
    }

    method InsertShred(shred: Shred) returns (sets: seq<CompletedDataSet>)
      requires Valid()
      modifies this, slots, States()
      ensures Valid() && fresh(States() - old(States()))
      ensures var o := InsertRing(old(View()), shred, codec.recover);
        && View() == o.ring
        && ComesBack(o.taken, codec.decode, sets)
        && decodeErrors == old(decodeErrors) + |Refused(o.taken, codec.decode)|
        && recoveries == old(recoveries) + (if o.recovery.Some? then 1 else 0)
        && recoveredShreds == old(recoveredShreds) + (if o.recovery.Some? then o.recovery.value.recovered else 0)
        && recoveryErrors == old(recoveryErrors) + (if o.recovery.Some? && o.recovery.value.failed then 1 else 0)
    {
      hide Insert, SlotState.View, ComesBack, Refused;
      NothingBack(codec.decode);
      var state := StateOf(shred.slot);
      if state == null {
        return [];
      }
      ghost var ring := View();
      assert ring[shred.slot % SLOT_HISTORY_SIZE] == Some(state.View());
      sets := InsertInto(state, shred);
      assert View() == ring[shred.slot % SLOT_HISTORY_SIZE := Some(state.View())];
    }
  }
}
