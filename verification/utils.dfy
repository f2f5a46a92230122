/** Bit-field extraction and index conversion of the Rust engine
    (rust_implementation/src/utils.rs), for the `i32` instantiation of its macros. */
module Utils {
  import opened Bitwise

  /** `UnsignedBitSelection::bits`: bits left..right of v as an unsigned number,
      computed as the source does, `(v & (((1 << (left-right+1)) - 1) << right)) >> right`.
      The source asserts `left >= right`; a negative `right`, a field wider than
      30 bits or `left = 31` overflow the `i32` mask computation, so the
      precondition excludes them. */
  function Bits(v: int, left: int, right: int): (r: int)
    requires MaskFitsI32(left, right)
    ensures r == Field(v, left, right)
  {
    var numberOfOnes := (left - right) + 1;
    var mask := (Pow2(numberOfOnes) - 1) * Pow2(right);
    MaskAndShift(v, left, right);
    And(v, mask) / Pow2(right)
  }

  /** Reference reading of a signed selection as `bits_signed` makes it. A
      one-bit selection is never negative. Otherwise the sign is read from bit
      `(left-right)+1` of v, counted from bit 0 and not from `right`; when it is
      set the value is the field one bit narrower minus 2^(left-right). */
  function SignedField(v: int, left: nat, right: nat): int
    requires right <= left
  {
    if left == right || Bit(v, left - right + 1) == 0 then Field(v, left, right)
    else Field(v, left - 1, right) - Pow2(left - right)
  }

  /** `SignedBitSelection::bits_signed`: the complement of the narrower field of
      `!v`, negated, when the sign test finds its bit set. */
  function BitsSigned(v: int, left: int, right: int): (r: int)
    requires MaskFitsI32(left, right)
    ensures r == SignedField(v, left, right)
  {
    var selectionIsPositive :=
      if left == right then true
      else And(v, Pow2((left - right) + 1)) == 0;
    if selectionIsPositive then
      SignTest(v, left, right);
      Bits(v, left, right)
    else
      SignTest(v, left, right);
      NegativeSelection(v, left, right);
      -(Bits(Not(v), left - 1, right) + 1)
  }

  lemma SignTest(v: int, left: int, right: int)
    requires MaskFitsI32(left, right)
    ensures And(v, Pow2((left - right) + 1)) == 0 <==> Bit(v, left - right + 1) == 0
  {
    AndSingleBit(v, (left - right) + 1);
  }

  /** `SignedField` with its derived positions given as numbers, so that a
      caller with a fixed field needs no arithmetic on them. */
  lemma SignedFieldAt(v: int, left: nat, right: nat, signAt: nat, narrow: nat, width: nat)
    requires right < left && signAt == left - right + 1 && narrow == left - 1 && width == left - right
    ensures SignedField(v, left, right)
            == if Bit(v, signAt) == 0 then Field(v, left, right) else Field(v, narrow, right) - Pow2(width)
  {
  }

  /** A signed selection whose sign test fires is negative and at least
      -2^(left-right). */
  lemma SignedFieldNegative(v: int, left: nat, right: nat)
    requires right < left && Bit(v, left - right + 1) == 1
    ensures -(Pow2(left - right) as int) <= SignedField(v, left, right) < 0
  {
    FieldRange(v, left - 1, right);
  }

  /** The range of a signed selection wider than one bit. */
  lemma SignedFieldRange(v: int, left: nat, right: nat)
    requires right < left
    ensures -(Pow2(left - right) as int) <= SignedField(v, left, right) < Pow2(left - right + 1)
  {
    FieldRange(v, left, right);
    FieldRange(v, left - 1, right);
  }

  /** The negative branch: minus one more than the narrower field of `!v`. */
  lemma NegativeSelection(v: int, left: int, right: int)
    requires MaskFitsI32(left, right) && left > right
    ensures -(Field(Not(v), left - 1, right) + 1) == Field(v, left - 1, right) - Pow2(left - right)
    ensures -(Pow2(left - right) as int) <= Field(v, left - 1, right) - Pow2(left - right) < 0
  {
    FieldOfNot(v, left - 1, right);
    FieldRange(v, left - 1, right);
  }

  /** `Indexable::as_usize`: `i as usize` on a 64-bit target. A negative index
      becomes a number of at least 2^63, larger than any vector's length. */
  function AsUsize(i: int): (r: nat)
    requires -0x8000_0000_0000_0000 <= i < 0x8000_0000_0000_0000
    ensures 0 <= i ==> r == i
    ensures i < 0 ==> r >= 0x8000_0000_0000_0000
  {
    i % 0x1_0000_0000_0000_0000
  }

  /** The unsigned examples written above the selection functions. */
  lemma BitsExamples()
    ensures Bits(59, 4, 0) == 27 && Bits(50, 5, 1) == 25 && Bits(10, 5, 1) == 5
  {
    Powers();
    assert Field(59, 4, 0) == 27;
    assert Field(50, 5, 1) == 25;
    assert Field(10, 5, 1) == 5;
  }

  lemma BitsSmallExamples()
    ensures Bits(5, 5, 1) == 2 && Bits(1, 0, 0) == 1 && Bits(0, 0, 0) == 0
  {
    Powers();
    assert Field(5, 5, 1) == 2;
  }

  /** The signed examples written above the selection functions. The sign test
      looks one bit above the field, so 50 read at 4..1 is negative although its
      bit 4 field reads 1001. */
  lemma BitsSignedExamples()
    ensures BitsSigned(50, 4, 1) == -7 && BitsSigned(50, 5, 1) == -7
    ensures BitsSigned(59, 4, 0) == -5 && BitsSigned(10, 5, 1) == 5
    ensures BitsSigned(5, 5, 1) == 2 && BitsSigned(1, 0, 0) == 1
    ensures BitsSigned(0, 0, 0) == 0 && BitsSigned(3, 0, 0) == 1
  {
    NegativeExamples();
    NegativeExampleOf59();
    PositiveExamples();
    SingleBitExamples();
  }

  lemma NegativeExamples()
    ensures BitsSigned(50, 4, 1) == -7 && BitsSigned(50, 5, 1) == -7
  {
    Powers();
    assert Bit(50, 4) == 1;
    assert Field(50, 3, 1) == 1;
    assert Bit(50, 5) == 1;
    assert Field(50, 4, 1) == 9;
  }

  lemma NegativeExampleOf59()
    ensures BitsSigned(59, 4, 0) == -5
  {
    Powers();
    assert Bit(59, 5) == 1;
    assert Field(59, 3, 0) == 11;
  }

  lemma PositiveExamples()
    ensures BitsSigned(10, 5, 1) == 5 && BitsSigned(5, 5, 1) == 2
  {
    Powers();
    assert Bit(10, 5) == 0;
    assert Field(10, 5, 1) == 5;
    assert Bit(5, 5) == 0;
    assert Field(5, 5, 1) == 2;
  }

  lemma SingleBitExamples()
    ensures BitsSigned(1, 0, 0) == 1 && BitsSigned(0, 0, 0) == 0 && BitsSigned(3, 0, 0) == 1
  {
    Powers();
    assert Field(3, 0, 0) == 1;
  }

  /** A full 16-bit selection of a 16-bit value returns it unchanged, and the
      opcode field of any value is a 4-bit number. */
  lemma BitsOfWord(x: int)
    requires 0 <= x < 0x1_0000
    ensures Bits(x, 15, 0) == x
    ensures 0 <= Bits(x, 15, 12) <= 15
  {
    Powers();
    assert Field(x, 15, 0) == x;
  }

  /** A one-bit signed selection equals the unsigned one, so it is 0 or 1. */
  lemma SingleBitNeverNegative(v: int, k: int)
    requires MaskFitsI32(k, k)
    ensures BitsSigned(v, k, k) == Bits(v, k, k)
    ensures 0 <= BitsSigned(v, k, k) <= 1
  {
  }
}
