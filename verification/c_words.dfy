/** The 16-bit words of the C simulator (c_implementation/src/main.c) and its two
    bit selection helpers.

    A `Word` is a `short` and an `Address` an `unsigned short`. Arithmetic is done
    on `int` after the usual promotions, and storing an `int` into a `Word` or an
    `Address` keeps it modulo 2^16; for `Word` that is GCC's implementation-defined
    conversion, which these functions write out. */
module CWords {
  import opened Bitwise

  const WORD_MODULUS := 0x1_0000

  /** A value of type `short` (`Word`). */
  predicate IsShort(x: int) {
    -0x8000 <= x < 0x8000
  }

  /** A value of type `unsigned short` (`Address`). */
  predicate IsAddress(x: int) {
    0 <= x < 0x1_0000
  }

  /** A value of type `unsigned char`: what `%c` prints and `scanf("%c")` reads. */
  predicate IsByte(x: int) {
    0 <= x < 0x100
  }

  /** Conversion of an `int` to `Word`: the `short` congruent to x modulo 2^16. */
  function ToShort(x: int): (r: int)
    ensures IsShort(r) && (r - x) % WORD_MODULUS == 0
    ensures IsShort(x) ==> r == x
  {
    (x + 0x8000) % 0x1_0000 - 0x8000
  }

  /** Conversion of an `int` to `Address`: the `unsigned short` congruent to x
      modulo 2^16. */
  function ToAddress(x: int): (r: int)
    ensures IsAddress(r) && (r - x) % WORD_MODULUS == 0
    ensures IsAddress(x) ==> r == x
  {
    x % 0x1_0000
  }

  /** Conversion of an `int` to `unsigned char`, as `printf("%c", v)` does. */
  function ToByte(x: int): (r: int)
    ensures IsByte(r) && (r - x) % 0x100 == 0
    ensures IsByte(x) ==> r == x
  {
    x % 0x100
  }

  /** A byte read into a `char`, which is signed on the targets the program is
      built for. */
  function SignedChar(b: int): (r: int)
    requires IsByte(b)
    ensures -0x80 <= r < 0x80 && ToByte(r) == b
  {
    if b < 0x80 then b else b - 0x100
  }

  /** Each of the conversions lands on the one value of its range in the class
      of x modulo 2^16, so they are determined by their contracts. */
  lemma ConversionsUnique(x: int, y: int)
    requires (y - x) % WORD_MODULUS == 0
    ensures IsShort(y) ==> ToShort(x) == y
    ensures IsAddress(y) ==> ToAddress(x) == y
  {
    var t := (y - x) / WORD_MODULUS;
    assert y == x + WORD_MODULUS * t;
    ModAddMultiple(x + 0x8000, t, WORD_MODULUS);
    ModAddMultiple(x, t, WORD_MODULUS);
  }

  /** The increment of a `short` variable: one more, except that 0x7FFF becomes
      -0x8000. */
  lemma IncrementShort(x: int)
    requires IsShort(x)
    ensures ToShort(x + 1) == if x == 0x7FFF then -0x8000 else x + 1
  {
    if x == 0x7FFF {
      ConversionsUnique(x + 1, -0x8000);
    }
  }

  /** Reference reading of a field as a signed number: bits left..0 of v in two's
      complement, bit `left` being the sign. */
  function TwosComplementField(v: int, left: nat): int {
    if Bit(v, left) == 0 then Field(v, left, 0) else Field(v, left, 0) - Pow2(left + 1)
  }

  /** `bit_select_us` (main.c:698-704): the `Word` argument is widened to `int`
      with its sign, the field is cut out with an `int` mask, and the result is
      converted back to `Word`. The precondition keeps the mask computation free
      of shift overflow, as the unsigned `left - right` must not wrap either. */
  function BitSelectUs(value: int, left: int, right: int): (r: int)
    requires IsShort(value) && MaskFitsI32(left, right)
    ensures r == ToShort(Field(value, left, right))
    ensures left - right < 15 ==> r == Field(value, left, right)
  {
    var numberOfOnes := (left - right) + 1;
    var mask := (Pow2(numberOfOnes) - 1) * Pow2(right);
    MaskAndShift(value, left, right);
    NarrowFieldIsShort(value, left, right);
    ToShort(And(value, mask) / Pow2(right))
  }

  /** A field narrower than 16 bits is a nonnegative `short`. */
  lemma NarrowFieldIsShort(value: int, left: nat, right: nat)
    requires right <= left
    ensures left - right < 15 ==> 0 <= Field(value, left, right) < 0x8000
  {
    FieldRange(value, left, right);
    if left - right < 15 {
      Pow2Monotone(left - right + 1, 15);
      Pow2Value31();
    }
  }

  /** `bit_select_s` (main.c:708-715). The sign test reads bit `abs(right - left)`
      of the value, i.e. bit `left - right` counted from bit 0, not from `right`.
      When it is clear the result is the unsigned selection; when it is set the
      result is the negated field of `-value` (`~value + 1`). */
  function BitSelectS(value: int, left: int, right: int): (r: int)
    requires IsShort(value) && MaskFitsI32(left, right)
    ensures IsShort(r)
    ensures Bit(value, left - right) == 0 ==> r == ToShort(Field(value, left, right))
    ensures Bit(value, left - right) == 1 && left <= 15 && left - right < 15 ==> r == -Field(-value, left, right)
  {
    AndSingleBit(value, Abs(right - left));
    if And(value, Pow2(Abs(right - left))) != 0 then
      NegatedSelection(value, left, right);
      ToShort(-BitSelectUs(ToShort(Not(value) + 1), left, right))
    else
      BitSelectUs(value, left, right)
  }

  /** The complemented branch of `bit_select_s` when the field fits a `short`. */
  lemma NegatedSelection(value: int, left: int, right: int)
    requires IsShort(value) && MaskFitsI32(left, right)
    ensures left <= 15 && left - right < 15 ==>
              ToShort(-BitSelectUs(ToShort(Not(value) + 1), left, right)) == -Field(-value, left, right)
  {
    if left <= 15 && left - right < 15 {
      var n := ToShort(Not(value) + 1);
      FieldCongruent(n, -value, left, right);
      FieldRange(-value, left, right);
      Pow2Monotone(left - right + 1, 15);
      Pow2Value31();
    }
  }

  /** Two numbers congruent modulo 2^16 agree on every field within bits 15..0. */
  lemma FieldCongruent(x: int, y: int, left: nat, right: nat)
    requires right <= left <= 15 && (x - y) % WORD_MODULUS == 0
    ensures Field(x, left, right) == Field(y, left, right)
  {
    var t := (x - y) / WORD_MODULUS;
    var w := left - right + 1;
    var a, b, c := Pow2(right), Pow2(w), Pow2(15 - left);
    assert WORD_MODULUS == a * (b * c) by {
      Pow2Add(right, 16 - right);
      Pow2Add(w, 15 - left);
      Pow2Value31();
    }
    assert x == y + WORD_MODULUS * t;
    MulAssoc3(a, b, c, t);
    DivAddMultiple(y, a, b * (c * t));
    ModAddMultiple(y / a, c * t, b);
  }

  lemma MulAssoc3(a: int, b: int, c: int, t: int)
    ensures (a * (b * c)) * t == a * (b * (c * t))
  {
  }

  lemma DivAddMultiple(a: int, d: int, m: int)
    requires d > 0
    ensures (a + d * m) / d == a / d + m
  {
    DivModUnique(a + d * m, d, a / d + m, a % d);
  }

  /** For a field starting at bit 0 the sign test is bit `left`, so the signed
      selection is ordinary sign extension of bits left..0. */
  lemma SelectionIsSignExtension(v: int, left: nat)
    requires IsShort(v) && 0 < left <= 14
    ensures BitSelectS(v, left, 0) == TwosComplementField(v, left)
  {
    if Bit(v, left) == 1 {
      NegationComplementsField(v, left);
    } else {
      NarrowFieldIsShort(v, left, 0);
    }
  }

  /** When bit `left` of v is set, bits left..0 of `-v` are 2^(left+1) minus
      bits left..0 of v. */
  lemma NegationComplementsField(v: int, left: nat)
    requires 0 < left && Bit(v, left) == 1
    ensures Field(-v, left, 0) == Pow2(left + 1) - Field(v, left, 0)
  {
    assert Pow2(0) == 1;
    var m := Pow2(left + 1);
    var f := Field(v, left, 0);
    FieldRange(v, left, 0);
    FieldSplitTop(v, left, 0);
    FieldRange(v, left - 1, 0);
    assert f == v % m && 0 < f < m;
    ModNeg(v, m);
    DivModUnique(-f, m, -1, m - f);
  }

  /** The range of a two's-complement field. */
  lemma TwosComplementRange(v: int, left: nat)
    ensures -(Pow2(left) as int) <= TwosComplementField(v, left) < Pow2(left)
  {
    var f := Field(v, left, 0);
    if left == 0 {
      assert f == Bit(v, 0);
    } else {
      TopBitBound(v, left);
    }
  }

  /** Bits left..0 are at least 2^left exactly when bit `left` is set. */
  lemma TopBitBound(v: int, left: nat)
    requires 0 < left
    ensures Bit(v, left) == 0 ==> 0 <= Field(v, left, 0) < Pow2(left)
    ensures Bit(v, left) == 1 ==> Pow2(left) <= Field(v, left, 0) < Pow2(left + 1)
  {
    var p := Pow2(left);
    assert Pow2(left + 1) == 2 * p;
    var low := Field(v, left - 1, 0);
    FieldRange(v, left - 1, 0);
    assert left - 1 - 0 + 1 == left;
    assert 0 <= low < p;
    FieldSplitTop(v, left, 0);
    assert Field(v, left, 0) == Bit(v, left) * p + low;
  }

  /** The example written above `bit_select_us`. */
  lemma UnsignedExample()
    ensures BitSelectUs(50, 4, 1) == 9
  {
    Powers();
    assert Field(50, 4, 1) == 9;
  }

  /** The example written above `bit_select_s`: the comment there announces -9,
      but bit 3 of 50 is clear, so the code returns 9. */
  lemma SignedExample()
    ensures BitSelectS(50, 4, 1) == 9
  {
    Powers();
    assert Bit(50, 3) == 0;
    assert Field(50, 4, 1) == 9;
  }

  /** A negative immediate comes back as itself. */
  lemma SignExtensionExample(v: int)
    requires v == -3
    ensures BitSelectS(v, 4, 0) == -3
  {
    SelectionIsSignExtension(v, 4);
    MinusThreeField(v);
  }

  lemma MinusThreeField(v: int)
    requires v == -3
    ensures TwosComplementField(v, 4) == -3
  {
    Powers();
    assert Bit(v, 4) == 1;
    assert Field(v, 4, 0) == 29;
  }
}
