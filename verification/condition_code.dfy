/** The three-valued condition code of the Rust engine
    (rust_implementation/src/condition_code.rs). */
module ConditionCodes {

  /** Negative, zero or positive: the sign of the last value written to a destination register. */
  datatype ConditionCode = N | Z | P

  /** The flag the branch instruction tests against its `nzp` field: n is bit 2, z bit 1, p bit 0. */
  function Bit(cc: ConditionCode): (r: int)
    ensures r == 1 || r == 2 || r == 4
    ensures (r == 4 <==> cc == N) && (r == 2 <==> cc == Z) && (r == 1 <==> cc == P)
  {
    match cc
    case N => 4
    case Z => 2
    case P => 1
  }

  /** The condition code of a value: its sign. */
  function FromValue(v: int): (r: ConditionCode)
    ensures r == N <==> v < 0
    ensures r == Z <==> v == 0
    ensures r == P <==> v > 0
  {
    if v < 0 then N else if v == 0 then Z else P
  }

  /** Distinct codes have distinct flags. */
  lemma BitInjective(a: ConditionCode, b: ConditionCode)
    ensures Bit(a) == Bit(b) <==> a == b
  {
  }

  /** Two values get the same condition code exactly when they have the same sign. */
  lemma FromValueSameSign(a: int, b: int)
    ensures FromValue(a) == FromValue(b) <==> ((a < 0 <==> b < 0) && (a == 0 <==> b == 0))
  {
  }
}
