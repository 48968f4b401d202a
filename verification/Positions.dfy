/** The 128-bit bitmap of shred positions a FEC set has seen. */
module Positions {
  const MAX_POSITION: nat := 128

  /** A `u128`, wrapped so that proofs can hide its operations. */
  datatype Bitmap = Bitmap(bits: bv128)

  const Empty := Bitmap(0)

  function And(a: Bitmap, b: Bitmap): Bitmap { Bitmap(a.bits & b.bits) }

  function Or(a: Bitmap, b: Bitmap): Bitmap { Bitmap(a.bits | b.bits) }

  /** `1 << pos` */
  function One(pos: nat): Bitmap
    requires pos < MAX_POSITION
  {
    Bitmap(1 << (pos as bv7))
  }

  predicate Has(b: Bitmap, pos: nat) {
    pos < MAX_POSITION && And(b, One(pos)) != Empty
  }

  /** `u128::count_ones` */
  function CountOnes(b: Bitmap): nat { CountBelow(b, MAX_POSITION) }

  function CountBelow(b: Bitmap, n: nat): nat {
    if n == 0 then 0 else CountBelow(b, n - 1) + if Has(b, n - 1) then 1 else 0
  }

  /** Sets bit `pos` and tells whether it was clear; positions the bitmap has no bit for are never new. */
  function Mark(b: Bitmap, pos: nat): (Bitmap, bool) {
    if pos >= MAX_POSITION then (b, false)
    else (Or(b, One(pos)), And(b, One(pos)) == Empty)
  }

  lemma OrApart(a: Bitmap, b: Bitmap, c: Bitmap)
    requires And(b, c) == Empty
    ensures And(Or(a, b), c) == And(a, c)
  {}

  lemma OrPart(a: Bitmap, b: Bitmap)
    ensures And(Or(a, b), b) == b
  {}

  lemma OneNonEmpty(pos: nat)
    requires pos < MAX_POSITION
    ensures One(pos) != Empty
  {}

  lemma RoundTrip(pos: nat)
    requires pos < MAX_POSITION
    ensures (pos as bv7) as int == pos
  {
    assert pos % 128 == pos;
  }

  lemma OneOne(i: nat, j: nat)
    requires i < MAX_POSITION && j < MAX_POSITION && i != j
    ensures And(One(i), One(j)) == Empty
  {
    RoundTrip(i);
    RoundTrip(j);
    assert (i as bv7) != (j as bv7);
  }

  lemma MarkHas(b: Bitmap, pos: nat, i: nat)
    ensures Has(Mark(b, pos).0, i) <==> Has(b, i) || (i == pos && pos < MAX_POSITION)
    ensures Mark(b, pos).1 <==> pos < MAX_POSITION && !Has(b, pos)
  {
    hide One, And, Or, Empty;
    if pos < MAX_POSITION && i < MAX_POSITION {
      if i == pos {
        OrPart(b, One(pos));
        OneNonEmpty(pos);
      } else {
        OneOne(pos, i);
        OrApart(b, One(pos), One(i));
      }
    }
  }

  lemma EmptyHasNone(i: nat)
    ensures !Has(Empty, i)
  {
    hide One;
  }

  /** The positions a bitmap holds. */
  ghost function Members(b: Bitmap): (s: set<nat>)
    ensures forall i: nat :: i in s <==> Has(b, i)
  {
    set i: nat | i < MAX_POSITION && Has(b, i)
  }

  ghost function MembersBelow(b: Bitmap, n: nat): set<nat> {
    set i: nat | i < n && Has(b, i)
  }

  lemma {:induction false} CountIsSize(b: Bitmap, n: nat)
    ensures CountBelow(b, n) == |MembersBelow(b, n)|
  {
    hide Has;
    if n > 0 {
      CountIsSize(b, n - 1);
      assert MembersBelow(b, n) == MembersBelow(b, n - 1) + if Has(b, n - 1) then {n - 1} else {};
    }
  }

  /** The population count is the number of positions held. */
  lemma OnesAreMembers(b: Bitmap)
    ensures CountOnes(b) == |Members(b)|
  {
    hide Has;
    CountIsSize(b, MAX_POSITION);
    HasBounded(b);
    assert Members(b) == MembersBelow(b, MAX_POSITION);
  }

  lemma HasBounded(b: Bitmap)
    ensures forall i: nat | Has(b, i) :: i < MAX_POSITION
  {}

  lemma MarkMembers(b: Bitmap, pos: nat)
    ensures Members(Mark(b, pos).0) == Members(b) + (if pos < MAX_POSITION then {pos} else {})
    ensures Mark(b, pos).1 <==> pos < MAX_POSITION && pos !in Members(b)
    ensures CountOnes(Mark(b, pos).0) == CountOnes(b) + if Mark(b, pos).1 then 1 else 0
  {
    hide Has, Mark, CountOnes;
    forall i: nat ensures i in Members(Mark(b, pos).0) <==> i in Members(b) || (i == pos && pos < MAX_POSITION) {
      MarkHas(b, pos, i);
    }
    MarkHas(b, pos, pos);
    OnesAreMembers(b);
    OnesAreMembers(Mark(b, pos).0);
    var before, after := Members(b), Members(Mark(b, pos).0);
    hide Members;
    assert after == before + if pos < MAX_POSITION then {pos} else {};
    assert pos < MAX_POSITION && pos !in before ==> |before + {pos}| == |before| + 1;
    assert pos < MAX_POSITION && pos in before ==> before + {pos} == before;
  }
}
