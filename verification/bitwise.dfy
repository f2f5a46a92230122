/** Integer arithmetic shared by both simulators: powers of two, two's-complement
    bit fields, bitwise AND and NOT on unbounded integers.

    An `int` is read as an infinite two's-complement bit string (negative numbers
    have infinitely many leading ones). Dafny's `/` and `%` by a positive divisor
    round toward negative infinity, so `x / Pow2(k)` is an arithmetic right shift
    and `x % Pow2(k)` keeps the low k bits, for negative `x` as well. */
module Bitwise {

  /** 2 raised to the power n. */
  function Pow2(n: nat): (r: nat)
    ensures r >= 1
  {
    if n == 0 then 1 else 2 * Pow2(n - 1)
  }

  /** A value of Rust's `i32` (and of C's `int` on the targets both programs run on). */
  predicate IsI32(x: int) {
    -0x8000_0000 <= x < 0x8000_0000
  }

  function Abs(x: int): nat {
    if x < 0 then -x else x
  }

  /** Bit k of x (0 or 1). */
  function Bit(x: int, k: nat): int {
    (x / Pow2(k)) % 2
  }

  /** Reference definition of a bit field: bits hi..lo of x read as an unsigned number. */
  function Field(x: int, hi: nat, lo: nat): int
    requires lo <= hi
  {
    (x / Pow2(lo)) % Pow2(hi - lo + 1)
  }

  /** Bitwise complement (`!x` in Rust, `~x` in C). */
  function Not(x: int): int {
    -x - 1
  }

  /** Bitwise AND (`&`), one bit at a time from the least significant end. */
  function And(a: int, b: int): int
    decreases Abs(a) + Abs(b)
  {
    if a == 0 || b == 0 then 0
    else if a == -1 then b
    else if b == -1 then a
    else 2 * And(a / 2, b / 2) + LowAnd(a, b)
  }

  /** The AND of the lowest bits of a and b. */
  function LowAnd(a: int, b: int): int {
    if a % 2 == 1 && b % 2 == 1 then 1 else 0
  }

  /** The mask `((1 << (left-right+1)) - 1) << right` and every intermediate value
      of its computation fit a 32-bit signed integer, so no shift or subtraction
      overflows. */
  predicate MaskFitsI32(left: int, right: int) {
    0 <= right <= left <= 30 && left - right <= 29
  }

  // ---------------------------------------------------------------------------
  // Division and remainder facts

  lemma DivModUnique(a: int, d: int, q: int, r: int)
    requires d > 0 && a == d * q + r && 0 <= r < d
    ensures a / d == q && a % d == r
  {
    var q', r' := a / d, a % d;
    assert a == d * q' + r';
    if q' > q {
      assert d * q' >= d * (q + 1) by { MulLe(d, q + 1, q'); }
    } else if q' < q {
      assert d * q >= d * (q' + 1) by { MulLe(d, q' + 1, q); }
    }
  }

  lemma MulLe(d: int, x: int, y: int)
    requires d > 0 && x <= y
    ensures d * x <= d * y
  {
  }

  lemma MulDivCancel(x: int, d: int)
    requires d > 0
    ensures (x * d) / d == x && (x * d) % d == 0
  {
    DivModUnique(x * d, d, x, 0);
  }

  lemma DivDiv(a: int, x: int, y: int)
    requires x > 0 && y > 0
    ensures a / x / y == a / (x * y)
  {
    var q1, r1 := a / x, a % x;
    var q2, r2 := q1 / y, q1 % y;
    MixedRadix(a, x, y, q1, r1, q2, r2);
    DivModUnique(a, x * y, q2, x * r2 + r1);
  }

  /** Two digits in radices x and y make one digit in radix x * y. */
  lemma MixedRadix(a: int, x: int, y: int, q1: int, r1: int, q2: int, r2: int)
    requires x > 0 && y > 0
    requires a == x * q1 + r1 && 0 <= r1 < x
    requires q1 == y * q2 + r2 && 0 <= r2 < y
    ensures a == (x * y) * q2 + (x * r2 + r1) && 0 <= x * r2 + r1 < x * y
  {
    assert x * q1 == (x * y) * q2 + x * r2;
    assert x * r2 <= x * (y - 1) by { MulLe(x, r2, y - 1); }
  }

  /** Shifting right by one then keeping m bits, back-filled with the dropped bit,
      keeps 2m bits. */
  lemma HalveMod(a: int, m: int)
    requires m > 0
    ensures 2 * ((a / 2) % m) + a % 2 == a % (2 * m)
  {
    var q, b := a / 2, a % 2;
    var k, s := q / m, q % m;
    assert a == 2 * q + b;
    assert q == m * k + s;
    assert a == (2 * m) * k + (2 * s + b);
    DivModUnique(a, 2 * m, k, 2 * s + b);
  }

  lemma Pow2Add(a: nat, b: nat)
    ensures Pow2(a + b) == Pow2(a) * Pow2(b)
  {
    if a > 0 {
      calc {
        Pow2(a + b);
        2 * Pow2((a - 1) + b);
        { Pow2Add(a - 1, b); }
        2 * (Pow2(a - 1) * Pow2(b));
        { MulAssoc2(Pow2(b), Pow2(a - 1)); }
        Pow2(a) * Pow2(b);
      }
    }
  }

  lemma Pow2Monotone(a: nat, b: nat)
    requires a <= b
    ensures Pow2(a) <= Pow2(b)
  {
    if a < b {
      Pow2Monotone(a, b - 1);
    }
  }

  /** Complement commutes with an arithmetic right shift. */
  lemma NotDiv(v: int, d: int)
    requires d > 0
    ensures Not(v) / d == Not(v / d)
  {
    var q, s := v / d, v % d;
    assert Not(v) == d * Not(q) + (d - 1 - s);
    DivModUnique(Not(v), d, Not(q), d - 1 - s);
  }

  /** Complement flips every kept bit. */
  lemma NotMod(q: int, m: int)
    requires m > 0
    ensures Not(q) % m == m - 1 - q % m
  {
    var t, u := q / m, q % m;
    assert Not(q) == m * Not(t) + (m - 1 - u);
    DivModUnique(Not(q), m, Not(t), m - 1 - u);
  }

  // ---------------------------------------------------------------------------
  // Bit fields

  lemma FieldRange(x: int, hi: nat, lo: nat)
    requires lo <= hi
    ensures 0 <= Field(x, hi, lo) < Pow2(hi - lo + 1)
  {
  }

  /** The bits of !x are those of x flipped: a field of !x is the all-ones field minus the same field of x. */
  lemma FieldOfNot(x: int, hi: nat, lo: nat)
    requires lo <= hi
    ensures Field(Not(x), hi, lo) == Pow2(hi - lo + 1) - 1 - Field(x, hi, lo)
  {
    NotDiv(x, Pow2(lo));
    NotMod(x / Pow2(lo), Pow2(hi - lo + 1));
  }

  /** A field is its top bit above the field one bit narrower. */
  lemma FieldSplitTop(x: int, hi: nat, lo: nat)
    requires lo < hi
    ensures Field(x, hi, lo) == Bit(x, hi) * Pow2(hi - lo) + Field(x, hi - 1, lo)
  {
    var q := x / Pow2(lo);
    var n := hi - lo;
    var m := Pow2(n);
    assert Pow2(n + 1) == 2 * m;
    // q % 2m == (q / m % 2) * m + q % m
    var t, u := q / m, q % m;
    assert q == m * t + u;
    var t2, b := t / 2, t % 2;
    assert t == 2 * t2 + b;
    assert q == (2 * m) * t2 + (b * m + u);
    DivModUnique(q, 2 * m, t2, b * m + u);
    DivDiv(x, Pow2(lo), m);
    Pow2Add(lo, n);
  }

  // ---------------------------------------------------------------------------
  // Bitwise AND

  lemma AndZeroOrMinusOne(x: int)
    ensures And(0, x) == 0 && And(x, 0) == 0
    ensures And(-1, x) == x && And(x, -1) == x
  {
  }

  /** The recursion of `And` holds for every pair of arguments, not only the ones that reach its last case. */
  lemma AndUnfold(a: int, b: int)
    ensures And(a, b) == 2 * And(a / 2, b / 2) + LowAnd(a, b)
  {
    if a == 0 || b == 0 {
      AndZeroOrMinusOne(a / 2);
      AndZeroOrMinusOne(b / 2);
    } else if a == -1 {
      AndZeroOrMinusOne(b / 2);
    } else if b == -1 {
      AndZeroOrMinusOne(a / 2);
    }
  }

  /** AND with n low ones keeps the low n bits. */
  lemma {:induction false} AndLowOnes(a: int, n: nat)
    ensures And(a, Pow2(n) - 1) == a % Pow2(n)
    decreases n
  {
    if n == 0 {
      AndZeroOrMinusOne(a);
    } else {
      var m := Pow2(n - 1);
      assert Pow2(n) - 1 == 2 * m - 1;
      AndOddMask(a, m);
      AndLowOnes(a / 2, n - 1);
      HalveMod(a, m);
    }
  }

  /** AND with an odd mask keeps the low bit and ANDs the halves. */
  lemma AndOddMask(a: int, m: int)
    ensures And(a, 2 * m - 1) == 2 * And(a / 2, m - 1) + a % 2
  {
    assert (2 * m - 1) / 2 == m - 1 && (2 * m - 1) % 2 == 1;
    AndUnfold(a, 2 * m - 1);
  }

  /** AND with an even mask: the low bit is cleared and the rest is the AND of the halves. */
  lemma AndEven(a: int, h: int)
    ensures And(a, 2 * h) == 2 * And(a / 2, h)
  {
    assert (2 * h) / 2 == h && (2 * h) % 2 == 0;
    AndUnfold(a, 2 * h);
  }

  /** AND with a mask shifted left by r is the AND of the shifted-right value, shifted back. */
  lemma {:induction false} AndShifted(a: int, m: int, r: nat)
    ensures And(a, m * Pow2(r)) == And(a / Pow2(r), m) * Pow2(r)
    decreases r, 1
  {
    if r == 0 {
      assert a / 1 == a;
    } else {
      AndShiftedStep(a, m, r);
    }
  }

  /** The inductive step of `AndShifted`: the claim for a / 2 and r - 1 gives
      the claim for a and r. */
  lemma {:induction false} AndShiftedStep(a: int, m: int, r: nat)
    requires r > 0
    ensures And(a, m * Pow2(r)) == And(a / Pow2(r), m) * Pow2(r)
    decreases r, 0
  {
    var p := Pow2(r - 1);
    var big := Pow2(r);
    assert big == 2 * p;
    AndShifted(a / 2, m, r - 1);
    var mp := m * p;
    var half := And(a / 2, mp);
    assert m * big == 2 * mp by { MulAssoc2(m, p); }
    assert And(a, m * big) == 2 * half by { AndEven(a, mp); }
    assert a / 2 / p == a / big by { DivDiv(a, 2, p); }
    DoubleShift(And(a, m * big), half, And(a / big, m), p, big);
  }

  /** Twice a value shifted by p is the value shifted by 2p. */
  lemma DoubleShift(whole: int, half: int, x: int, p: int, big: int)
    requires big == 2 * p && whole == 2 * half && half == x * p
    ensures whole == x * big
  {
    MulAssoc2(x, p);
  }

  lemma MulAssoc2(m: int, p: int)
    ensures m * (2 * p) == 2 * (m * p)
  {
  }

  /** The source's extraction formula `(v & (((1 << n) - 1) << lo)) >> lo` computes the field hi..lo. */
  lemma MaskAndShift(v: int, hi: nat, lo: nat)
    requires lo <= hi
    ensures And(v, (Pow2(hi - lo + 1) - 1) * Pow2(lo)) / Pow2(lo) == Field(v, hi, lo)
  {
    AndShifted(v, Pow2(hi - lo + 1) - 1, lo);
    AndLowOnes(v / Pow2(lo), hi - lo + 1);
    MulDivCancel(Field(v, hi, lo), Pow2(lo));
  }

  /** `v & (1 << k)` is non-zero exactly when bit k of v is set. */
  lemma AndSingleBit(v: int, k: nat)
    ensures And(v, Pow2(k)) == Bit(v, k) * Pow2(k)
    ensures And(v, Pow2(k)) != 0 <==> Bit(v, k) == 1
  {
    AndShifted(v, 1, k);
    AndLowOnes(v / Pow2(k), 1);
  }

  /** AND of two numbers representable in k+1 bits of two's complement is representable too. */
  lemma {:induction false} AndBounded(a: int, b: int, k: nat)
    requires -(Pow2(k) as int) <= a < Pow2(k) && -(Pow2(k) as int) <= b < Pow2(k)
    ensures -(Pow2(k) as int) <= And(a, b) < Pow2(k)
    decreases k
  {
    if k == 0 {
      AndZeroOrMinusOne(a);
      AndZeroOrMinusOne(b);
    } else {
      AndUnfold(a, b);
      AndBounded(a / 2, b / 2, k - 1);
    }
  }

  lemma AndI32(a: int, b: int)
    requires IsI32(a) && IsI32(b)
    ensures IsI32(And(a, b))
  {
    assert Pow2(31) == 0x8000_0000 by { Pow2Value31(); }
    AndBounded(a, b, 31);
  }

  /** The powers of two up to 2^16 as numbers. A power whose exponent is
      computed (`Pow2(hi - lo + 1)` inside `Field`) is not unfolded on its own;
      with these facts in scope every field of a 16-bit word reads as a division
      and a remainder by constants. */
  lemma Powers()
    ensures Pow2(0) == 1 && Pow2(1) == 2 && Pow2(2) == 4 && Pow2(3) == 8
    ensures Pow2(4) == 16 && Pow2(5) == 32 && Pow2(6) == 64 && Pow2(7) == 128
    ensures Pow2(8) == 256 && Pow2(9) == 512 && Pow2(10) == 1024 && Pow2(11) == 2048
    ensures Pow2(12) == 4096 && Pow2(13) == 8192 && Pow2(14) == 16384 && Pow2(15) == 32768
    ensures Pow2(16) == 65536
  {
  }

  lemma Pow2Value31()
    ensures Pow2(15) == 0x8000 && Pow2(16) == 0x1_0000 && Pow2(31) == 0x8000_0000
  {
    assert Pow2(8) == 256;
    Pow2Add(8, 7);
    Pow2Add(8, 8);
    Pow2Add(16, 15);
  }

  // ---------------------------------------------------------------------------
  // Modular address arithmetic

  /** Reducing before adding does not change the residue. */
  lemma ModAddMod(x: int, j: int, m: int)
    requires m > 0
    ensures (x % m + j) % m == (x + j) % m
  {
    var q, s := x / m, x % m;
    var q2, s2 := (s + j) / m, (s + j) % m;
    assert x + j == m * (q + q2) + s2;
    DivModUnique(x + j, m, q + q2, s2);
  }

  /** The distance from the successor of a is one less than the distance from a, unless it wraps. */
  lemma ModDistanceStep(i: int, a: int, m: int)
    requires m > 0 && (i - a) % m >= 1
    ensures (i - (a + 1) % m) % m == (i - a) % m - 1
  {
    ModAddMod(a + 1, 0, m);
    var d := (i - a) % m;
    var q := (i - a) / m;
    var t := (a + 1) / m;
    assert (a + 1) % m == a + 1 - m * t;
    assert i - (a + 1) % m == m * (q + t) + (d - 1);
    DivModUnique(i - (a + 1) % m, m, q + t, d - 1);
  }

  /** Walking d steps from a reaches i exactly when d is the distance from a to i. */
  lemma ModDistance(i: int, a: int, m: int)
    requires m > 0 && 0 <= i < m
    ensures (a + (i - a) % m) % m == i
  {
    var d := (i - a) % m;
    var q := (i - a) / m;
    assert a + d == i + m * (-q);
    DivModUnique(a + d, m, -q, i);
  }

  /** Distinct steps of fewer than m reach distinct residues. */
  lemma ModDistanceOf(a: int, k: int, m: int)
    requires m > 0 && 0 <= k < m
    ensures ((a + k) % m - a) % m == k
  {
    var q := (a + k) / m;
    assert (a + k) % m - a == m * (-q) + k;
    DivModUnique((a + k) % m - a, m, -q, k);
  }

  /** Bit j of a field is bit lo + j of the whole value. */
  lemma BitOfField(x: int, hi: nat, lo: nat, j: nat)
    requires lo <= hi && j <= hi - lo
    ensures Bit(Field(x, hi, lo), j) == Bit(x, lo + j)
  {
    DivDiv(x, Pow2(lo), Pow2(j));
    Pow2Add(lo, j);
    BitOfMod(x / Pow2(lo), hi - lo + 1, j);
  }

  /** Keeping the low n bits does not change bit j below n. */
  lemma BitOfMod(y: int, n: nat, j: nat)
    requires j < n
    ensures Bit(y % Pow2(n), j) == Bit(y, j)
  {
    Pow2Add(j, n - j);
    BitOfModCore(y, Pow2(j), Pow2(n - j), Pow2(n - j - 1), Pow2(n));
  }

  lemma BitOfModCore(y: int, a: int, b: int, h: int, m: int)
    requires a > 0 && m > 0 && m == a * b && b == 2 * h
    ensures ((y % m) / a) % 2 == (y / a) % 2
  {
    var s := y % m;
    LowerDigits(y, a, b, h, m, y / m, s, s / a, s % a);
  }

  lemma LowerDigits(y: int, a: int, b: int, h: int, m: int, q: int, s: int, sq: int, sr: int)
    requires a > 0 && m == a * b && b == 2 * h
    requires y == m * q + s && s == a * sq + sr && 0 <= sr < a
    ensures (y / a) % 2 == sq % 2
  {
    assert y == a * (b * q + sq) + sr;
    DivModUnique(y, a, b * q + sq, sr);
    assert b * q + sq == 2 * (h * q) + sq;
    EvenPlus(h * q, sq);
  }

  lemma EvenPlus(h: int, e: int)
    ensures (2 * h + e) % 2 == e % 2
  {
    DivModUnique(2 * h + e, 2, h + e / 2, e % 2);
  }

  /** Negation commutes with reduction. */
  lemma ModNeg(x: int, m: int)
    requires m > 0
    ensures (-(x % m)) % m == (-x) % m
  {
    var q := x / m;
    assert -(x % m) == -x + m * q;
    ModAddMod(-x, m * q, m);
    MulDivCancel(q, m);
    ModAddMod(m * q, -x, m);
  }

  /** Adding a multiple of m does not change the residue. */
  lemma ModAddMultiple(x: int, t: int, m: int)
    requires m > 0
    ensures (x + m * t) % m == x % m
  {
    DivModUnique(x + m * t, m, x / m + t, x % m);
  }
}
