/**
 The data-set-end bitset of a slot: a growing vector of 64-bit words with the
 word-and-mask scans the deshredder runs over it.  `Members` is the set of indices
 the words stand for; every other module speaks of that set only.

 A word is wrapped in a datatype so that proofs which only need the bit laws below can
 hide the bit-vector operations.
 */
module Bitset {
  import opened Options

  // ----- one machine word -----

  datatype Word = Word(bits: bv64)

  const Zero := Word(0)

  function And(a: Word, b: Word): Word { Word(a.bits & b.bits) }

  function Or(a: Word, b: Word): Word { Word(a.bits | b.bits) }

  /** `1 << i` */
  function One(i: nat): Word
    requires i < 64
  {
    Word(1 << (i as bv6))
  }

  /** `(1 << i) - 1` */
  function Below(i: nat): Word
    requires i < 64
  {
    Word((1 << (i as bv6)) - 1)
  }

  /** `u64::MAX << i` */
  function From(i: nat): Word
    requires i < 64
  {
    Word(0xFFFF_FFFF_FFFF_FFFF << (i as bv6))
  }

  predicate Bit(w: Word, i: nat)
    requires i < 64
  {
    And(w, One(i)) != Zero
  }

  // ----- positions as shift amounts -----

  lemma PositionOrder(a: bv6, b: bv6)
    ensures a < b <==> a as int < b as int
  {}

  lemma PositionRoundTrip(i: nat)
    requires i < 64
    ensures (i as bv6) as int == i
  {
    assert i % 64 == i;
  }

  lemma Positions(i: nat, j: nat)
    requires i < 64 && j < 64
    ensures (i as bv6) < (j as bv6) <==> i < j
    ensures (i as bv6) == (j as bv6) <==> i == j
  {
    PositionRoundTrip(i);
    PositionRoundTrip(j);
    PositionOrder(i as bv6, j as bv6);
  }

  lemma NextPosition(a: bv6, b: bv6)
    requires a as int + 1 == b as int
    ensures a < 63 && a + 1 == b
  {}

  // ----- laws of the operations -----

  lemma AndAssoc(a: Word, b: Word, c: Word)
    ensures And(And(a, b), c) == And(a, And(b, c))
  {}

  lemma OrApart(a: Word, b: Word, c: Word)
    requires And(b, c) == Zero
    ensures And(Or(a, b), c) == And(a, c)
  {}

  lemma AndZero(a: Word)
    ensures And(a, Zero) == Zero
  {}

  lemma OrPart(a: Word, b: Word)
    ensures And(Or(a, b), b) == b
  {}

  lemma OneNonZero(i: nat)
    requires i < 64
    ensures One(i) != Zero
  {}

  lemma OneOne(i: nat, j: nat)
    requires i < 64 && j < 64 && i != j
    ensures And(One(i), One(j)) == Zero
  {
    Positions(i, j);
  }

  lemma BelowHit(i: nat, j: nat)
    requires j < i < 64
    ensures And(Below(i), One(j)) == One(j)
  {
    Positions(j, i);
  }

  lemma BelowMiss(i: nat, j: nat)
    requires i <= j < 64
    ensures And(Below(i), One(j)) == Zero
  {
    Positions(j, i);
  }

  lemma FromHit(i: nat, j: nat)
    requires i <= j < 64
    ensures And(From(i), One(j)) == One(j)
  {
    Positions(j, i);
  }

  lemma FromMiss(i: nat, j: nat)
    requires j < i < 64
    ensures And(From(i), One(j)) == Zero
  {
    Positions(j, i);
  }

  // ----- what the operations do to the bits -----

  lemma OrBit(w: Word, i: nat, j: nat)
    requires i < 64 && j < 64
    ensures Bit(Or(w, One(i)), j) <==> Bit(w, j) || i == j
  {
    hide One, And, Or, Zero;
    if i == j {
      OrPart(w, One(j));
      OneNonZero(j);
    } else {
      OneOne(i, j);
      OrApart(w, One(i), One(j));
    }
  }

  lemma BelowBit(w: Word, i: nat, j: nat)
    requires i < 64 && j < 64
    ensures Bit(And(w, Below(i)), j) <==> Bit(w, j) && j < i
  {
    hide One, And, Or, Below, Zero;
    AndAssoc(w, Below(i), One(j));
    if j < i {
      BelowHit(i, j);
    } else {
      BelowMiss(i, j);
      AndZero(w);
    }
  }

  lemma FromBit(w: Word, i: nat, j: nat)
    requires i < 64 && j < 64
    ensures Bit(And(w, From(i)), j) <==> Bit(w, j) && j >= i
  {
    hide One, And, Or, From, Zero;
    AndAssoc(w, From(i), One(j));
    if j < i {
      FromMiss(i, j);
      AndZero(w);
    } else {
      FromHit(i, j);
    }
  }

  lemma ZeroBits()
    ensures forall j: nat | j < 64 :: !Bit(Zero, j)
  {
    hide One;
  }

  lemma ClearBottom(w: Word)
    ensures And(w, Below(0)) == Zero
  {}

  lemma ClearStep(w: Word, i: nat)
    requires i < 63
    requires And(w, Below(i)) == Zero && And(w, One(i)) == Zero
    ensures And(w, Below(i + 1)) == Zero
  {
    PositionRoundTrip(i);
    PositionRoundTrip(i + 1);
    NextPosition(i as bv6, (i + 1) as bv6);
  }

  lemma ClearTop(w: Word)
    requires And(w, Below(63)) == Zero && And(w, One(63)) == Zero
    ensures w == Zero
  {}

  lemma {:induction false} ClearBelow(w: Word, i: nat)
    requires i < 64
    requires forall j: nat | j < 64 :: !Bit(w, j)
    ensures And(w, Below(i)) == Zero
  {
    hide One, And, Below, Zero;
    if i == 0 {
      ClearBottom(w);
    } else {
      ClearBelow(w, i - 1);
      assert !Bit(w, i - 1);
      ClearStep(w, i - 1);
    }
  }

  /** A word with no set bit is zero. */
  lemma NoBitsIsZero(w: Word)
    requires forall j: nat | j < 64 :: !Bit(w, j)
    ensures w == Zero
  {
    hide One, And, Below, Zero;
    ClearBelow(w, 63);
    assert !Bit(w, 63);
    ClearTop(w);
  }

  /** Number of clear bits from position `i` downwards before the first set one. */
  function ZerosDownFrom(w: Word, i: nat): (n: nat)
    requires i < 64
    ensures n <= i + 1
    ensures forall j: nat | i - n < j <= i :: !Bit(w, j)
    ensures n <= i ==> Bit(w, i - n)
  {
    if Bit(w, i) then 0 else if i == 0 then 1 else 1 + ZerosDownFrom(w, i - 1)
  }

  /** Number of clear bits from position `i` upwards before the first set one. */
  function ZerosUpFrom(w: Word, i: nat): (n: nat)
    requires i < 64
    ensures i + n <= 64
    ensures forall j: nat | i <= j < i + n :: !Bit(w, j)
    ensures i + n < 64 ==> Bit(w, i + n)
    decreases 64 - i
  {
    if Bit(w, i) then 0 else if i == 63 then 1 else 1 + ZerosUpFrom(w, i + 1)
  }

  function LeadingZeros(w: Word): nat { ZerosDownFrom(w, 63) }

  function TrailingZeros(w: Word): nat { ZerosUpFrom(w, 0) }

  /** The top and bottom set bits of a non-zero word. */
  lemma ExtremeBits(w: Word)
    requires w != Zero
    ensures LeadingZeros(w) <= 63 && Bit(w, 63 - LeadingZeros(w))
    ensures forall j: nat | j < 64 && Bit(w, j) :: j <= 63 - LeadingZeros(w)
    ensures TrailingZeros(w) <= 63 && Bit(w, TrailingZeros(w))
    ensures forall j: nat | j < 64 && Bit(w, j) :: TrailingZeros(w) <= j
  {
    hide Bit;
    if LeadingZeros(w) > 63 || TrailingZeros(w) > 63 {
      NoBitsIsZero(w);
    }
  }

  // ----- the vector of words -----

  predicate Has(words: seq<Word>, i: nat) {
    i / 64 < |words| && Bit(words[i / 64], i % 64)
  }

  ghost function Members(words: seq<Word>): (s: set<nat>)
    ensures forall i: nat :: i in s <==> Has(words, i)
  {
    set i: nat | i < 64 * |words| && Has(words, i)
  }

  /** The largest member below `index`. */
  ghost predicate IsLastBelow(ends: set<nat>, index: nat, r: Option<nat>) {
    match r
    case None => forall e | e in ends :: e >= index
    case Some(e) => e in ends && e < index && forall f | f in ends && f < index :: f <= e
  }

  /** The smallest member at or above `index`. */
  ghost predicate IsNextFrom(ends: set<nat>, index: nat, r: Option<nat>) {
    match r
    case None => forall e | e in ends :: e < index
    case Some(e) => e in ends && e >= index && forall f | f in ends && f >= index :: f >= e
  }

  method SetBit(words: seq<Word>, index: nat) returns (r: seq<Word>)
    ensures Members(r) == Members(words) + {index}
  {
    hide Bit, One, Or;
    var word := index / 64;
    r := words;
    if word >= |r| {
      r := r + seq(word + 1 - |r|, _ => Zero);
    }
    ZeroBits();
    ghost var was := r[word];
    r := r[word := Or(r[word], One(index % 64))];
    forall j: nat | j < 64 ensures Bit(r[word], j) <==> Bit(was, j) || index % 64 == j {
      OrBit(was, index % 64, j);
    }
    forall i: nat ensures Has(r, i) <==> Has(words, i) || i == index {
      if i / 64 == word {
        assert i == 64 * word + i % 64 && index == 64 * word + index % 64;
      }
    }
  }

  method LastBitBefore(words: seq<Word>, index: nat) returns (r: Option<nat>)
    ensures IsLastBelow(Members(words), index, r)
  {
    hide Bit, And, Below;
    var word, mask := |words|, Zero;
    ZeroBits();
    if index / 64 < |words| {
      word := index / 64;
      mask := And(words[word], Below(index % 64));
      forall j: nat | j < 64 ensures Bit(mask, j) <==> Bit(words[word], j) && j < index % 64 {
        BelowBit(words[word], index % 64, j);
      }
    }
    while true
      invariant 0 <= word <= |words| && 64 * word <= index
      invariant word == |words| ==> mask == Zero
      invariant forall j: nat | j < 64 && Bit(mask, j) ::
          word < |words| && Bit(words[word], j) && 64 * word + j < index
      invariant forall i: nat | Has(words, i) && i < index && i >= 64 * word ::
          i / 64 == word && Bit(mask, i % 64)
      decreases word
    {
      if mask != Zero {
        ExtremeBits(mask);
        var e := word * 64 + 63 - LeadingZeros(mask);
        assert e / 64 == word && e % 64 == 63 - LeadingZeros(mask);
        return Some(e);
      }
      if word == 0 {
        return None;
      }
      word := word - 1;
      mask := words[word];
    }
  }

  method NextBitFrom(words: seq<Word>, index: nat) returns (r: Option<nat>)
    ensures IsNextFrom(Members(words), index, r)
  {
    hide Bit, And, From;
    var word := index / 64;
    if word >= |words| {
      return None;
    }
    var mask := And(words[word], From(index % 64));
    forall j: nat | j < 64 ensures Bit(mask, j) <==> Bit(words[word], j) && j >= index % 64 {
      FromBit(words[word], index % 64, j);
    }
    ZeroBits();
    while true
      invariant index / 64 <= word < |words|
      invariant forall j: nat | j < 64 && Bit(mask, j) :: Bit(words[word], j) && 64 * word + j >= index
      invariant forall i: nat | Has(words, i) && i >= index ::
          i / 64 >= word && (i / 64 == word ==> Bit(mask, i % 64))
      decreases |words| - word
    {
      if mask != Zero {
        ExtremeBits(mask);
        var e := word * 64 + TrailingZeros(mask);
        assert e / 64 == word && e % 64 == TrailingZeros(mask);
        return Some(e);
      }
      word := word + 1;
      if word >= |words| {
        return None;
      }
      mask := words[word];
    }
  }
}
