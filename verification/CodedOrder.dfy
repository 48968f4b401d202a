/**
 Why the order matters once coding shreds take part: a data shred that was already handed out no
 longer counts for recovery, so the same two shreds finish a block in one order and not in the other.
 */
module CodedOrder {
  import opened Options
  import opened Shreds
  import opened SlotSpec
  import opened SlotLaws
  import opened SlotRun
  import opened Completeness
  import opened RecoveryBounds
  import opened AgreeingRuns
  import opened HonestBlock
  import opened HonestRuns
  import opened CodedRuns

  /** A block of two data sets of one shred each, one FEC set with one coding shred. */
  const FIRST := Shred(7, 0, 0, true, true, false, [])
  const SECOND := Shred(7, 1, 0, true, true, true, [])
  const CODE := Shred(7, 0, 0, false, false, false, PARITY_HEADER)
  const BLOCK := [FIRST, SECOND]
  const GEOMETRY: Geometry := map[0 := 2]

  // ----- a decoder that needs any `k` shreds -----

  function FirstCode(input: seq<Shred>): (r: Option<Shred>)
    ensures (exists i :: 0 <= i < |input| && !input[i].isData) ==> r.Some?
    ensures r.Some? ==> r.value in input && !r.value.isData
  {
    if input == [] then None else if !input[0].isData then Some(input[0]) else FirstCode(input[1..])
  }

  /** The data shred at `i`, of the FEC set `fec`. */
  function Original(fec: nat, i: nat): (x: Shred)
    ensures x.isData && x.index == i
  {
    if fec == 0 && i == 0 then FIRST else if fec == 0 && i == 1 then SECOND else Shred(7, i, fec, true, false, false, [])
  }

  function Originals(fec: nat, k: nat): (r: seq<Option<Shred>>)
    ensures |r| == k && forall j | 0 <= j < k :: r[j] == Some(Original(fec, fec + j))
  {
    if k == 0 then [] else Originals(fec, k - 1) + [Some(Original(fec, fec + k - 1))]
  }

  function IdealDecoder(input: seq<Shred>): Rebuilt {
    match FirstCode(input)
    case None => Unrecoverable
    case Some(code) =>
      match NumDataShreds(code.payload)
      case None => Unrecoverable
      case Some(k) => Rebuilt(Originals(code.fecSetIndex, k))
  }

  lemma CodeHeader()
    ensures NumDataShreds(CODE.payload) == Some(2)
  {}

  lemma FirstCodeOf(input: seq<Shred>, fec: nat, k: nat)
    requires InputOf(input, fec, k)
    ensures FirstCode(input).Some? && CodingOf(FirstCode(input).value, fec, k)
  {
    var c := FirstCode(input).value;
    var i :| 0 <= i < |input| && input[i] == c;
  }

  /** Of one FEC set's shreds the decoder gives back all its data shreds. */
  lemma Decoded(input: seq<Shred>, fec: nat, k: nat)
    requires InputOf(input, fec, k)
    ensures IdealDecoder(input).Rebuilt? && |IdealDecoder(input).shreds| == k
    ensures forall j: nat | j < k :: IsDataAt(IdealDecoder(input).shreds[j], fec + j)
  {
    FirstCodeOf(input, fec, k);
    CodeHeader();
    hide InputOf, FirstCode, NumDataShreds;
  }

  lemma DecoderKeepsToSet()
    ensures KeepsToSet(IdealDecoder)
  {
    forall input: seq<Shred>, fec: nat, k: nat, i: nat, x |
        InputOf(input, fec, k) && IdealDecoder(input).Rebuilt? && x in IdealDecoder(input).shreds && IsDataAt(x, i)
      ensures fec <= i < fec + k
    {
      Decoded(input, fec, k);
      hide InputOf, IdealDecoder;
    }
  }

  lemma DecoderNeedsAnyK()
    ensures AnyKSuffice(IdealDecoder)
  {
    hide InputOf, IdealDecoder, DistinctInput, NoDataAt, IsDataAt;
    forall input: seq<Shred>, fec: nat, k: nat | InputOf(input, fec, k)
      ensures IdealDecoder(input).Rebuilt?
      ensures forall i: nat | fec <= i < fec + k && NoDataAt(input, i) :: exists x :: x in IdealDecoder(input).shreds && IsDataAt(x, i)
    {
      Decoded(input, fec, k);
      forall i: nat | fec <= i < fec + k && NoDataAt(input, i)
        ensures exists x :: x in IdealDecoder(input).shreds && IsDataAt(x, i)
      {
        assert IsDataAt(IdealDecoder(input).shreds[i - fec], fec + (i - fec));
      }
    }
  }

  lemma DecoderIsTruthful()
    ensures Truthful(IdealDecoder, BLOCK, {CODE})
  {
    forall input: seq<Shred>, x |
        (forall y | y in input :: Genuine(BLOCK, {CODE}, y)) && IdealDecoder(input).Rebuilt? && x in IdealDecoder(input).shreds
      ensures x.Some? && Genuine(BLOCK, {CODE}, x.value)
    {
      var c := FirstCode(input).value;
      assert c in input && Genuine(BLOCK, {CODE}, c);
      CodeHeader();
      var j :| 0 <= j < |IdealDecoder(input).shreds| && IdealDecoder(input).shreds[j] == x;
    }
  }

  lemma BothCoded()
    ensures Coded([CODE, FIRST], IdealDecoder, BLOCK, {CODE}, GEOMETRY)
    ensures Coded([FIRST, CODE], IdealDecoder, BLOCK, {CODE}, GEOMETRY)
  {
    DecoderKeepsToSet();
    DecoderNeedsAnyK();
    DecoderIsTruthful();
    CodeHeader();
    hide KeepsToSet, AnyKSuffice, Truthful, NumDataShreds;
  }

  // ----- the two orders -----

  lemma Sets()
    ensures IsBlock(BLOCK)
    ensures SetStart(BLOCK, 0) == SetEnd(BLOCK, 0) == 0
    ensures SetStart(BLOCK, 1) == SetEnd(BLOCK, 1) == 1
  {
    assert BLOCK[0].dataComplete && BLOCK[1].dataComplete;
    assert 0 in BlockEnds(BLOCK) && 1 in BlockEnds(BLOCK);
  }

  lemma ReadySets(got: set<nat>)
    requires IsBlock(BLOCK)
    ensures Ready(BLOCK, got, 0) <==> 0 in got
    ensures Ready(BLOCK, got, 1) <==> 0 in got && 1 in got
  {
    Sets();
    hide SetStart, SetEnd;
  }

  lemma CodeFirst()
    requires IsBlock(BLOCK) && forall x | x in [CODE, FIRST] :: Agrees(GEOMETRY, x)
    ensures Gets(BLOCK, GEOMETRY, [CODE, FIRST], 2) == {0, 1}
  {
    var xs := [CODE, FIRST];
    CodeHeader();
    ReadySets({});
    hide Ready, NumDataShreds, Agrees;
    assert IsCodeOf(xs[0], 0) && !IsCodeOf(xs[1], 0);
    assert Codes(xs, 0, 0) == {};
    assert Codes(xs, 1, 0) == {0};
    assert Codes(xs, 2, 0) == {0};
    assert Waiting(BLOCK, {}, {}, 0, 2) == {};
    assert Gets(BLOCK, GEOMETRY, xs, 1) == {};
    assert Waiting(BLOCK, {}, {0}, 0, 2) == {0};
    assert With({}, FIRST) == {0} && 1 !in {0};
    assert DecodesAt(BLOCK, GEOMETRY, xs, 1, {});
    assert Range(0, 2) == {0, 1};
  }

  lemma CodeLast()
    requires IsBlock(BLOCK) && forall x | x in [FIRST, CODE] :: Agrees(GEOMETRY, x)
    ensures Gets(BLOCK, GEOMETRY, [FIRST, CODE], 1) == Gets(BLOCK, GEOMETRY, [FIRST, CODE], 2) == {0}
    ensures !DecodesAt(BLOCK, GEOMETRY, [FIRST, CODE], 1, {0})
  {
    var xs := [FIRST, CODE];
    CodeHeader();
    ReadySets({});
    ReadySets({0});
    hide Ready, NumDataShreds, Agrees;
    assert !IsCodeOf(xs[0], 0) && IsCodeOf(xs[1], 0);
    assert Codes(xs, 0, 0) == {};
    assert Codes(xs, 1, 0) == {};
    assert Codes(xs, 2, 0) == {0};
    assert Waiting(BLOCK, {}, {0}, 0, 2) == {0};
    assert With({}, FIRST) == {0} && With({0}, CODE) == {0};
    assert Gets(BLOCK, GEOMETRY, xs, 1) == {0};
    assert Waiting(BLOCK, {0}, {0}, 0, 2) == {};
    assert !DecodesAt(BLOCK, GEOMETRY, xs, 1, {0});
  }

  /**
   The coding shred and then the first data shred finish the block; the first data shred and then
   the coding shred try no recovery, and hand out the first data set alone.
   */
  lemma OrderMattersWithCoding()
    ensures Coded([CODE, FIRST], IdealDecoder, BLOCK, {CODE}, GEOMETRY)
    ensures Coded([FIRST, CODE], IdealDecoder, BLOCK, {CODE}, GEOMETRY)
    ensures RunSlot(7, [CODE, FIRST], 2, IdealDecoder).finished
    ensures !RunSlot(7, [FIRST, CODE], 2, IdealDecoder).finished
    ensures Insert(RunSlot(7, [FIRST, CODE], 1, IdealDecoder), CODE, IdealDecoder).recovery == None
    ensures Covers(LogSlot(7, [FIRST, CODE], 2, IdealDecoder), 0) && !Covers(LogSlot(7, [FIRST, CODE], 2, IdealDecoder), 1)
  {
    BothCoded();
    hide RunSlot, LogSlot, Covers, IdealDecoder, AnyKSuffice, KeepsToSet, Truthful, Insert, Agrees, Genuine, Ready, Gets, DecodesAt;
    var xs, ys := [CODE, FIRST], [FIRST, CODE];
    assert xs[0] == CODE && xs[1] == FIRST && ys[0] == FIRST && ys[1] == CODE;
    CodeFirst();
    CodeLast();
    assert Range(0, 2) == {0, 1};
    HandedOutFromStream(7, xs, IdealDecoder, BLOCK, {CODE}, GEOMETRY);
    HandedOutFromStream(7, ys, IdealDecoder, BLOCK, {CODE}, GEOMETRY);
    TriedFromStream(7, ys, 1, IdealDecoder, BLOCK, {CODE}, GEOMETRY);
    ReadySets({0});
  }
}
