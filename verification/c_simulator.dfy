/** The engine of the C simulator (c_implementation/src/main.c): the machine
    state, the condition code helpers, the sixteen instruction handlers and the
    traps.

    Memory cells, registers and `ir` are `short`; `pc` is an `unsigned short`, so
    every `pc` is a memory address and moving it wraps modulo 2^16. An array
    index computed as an `int` outside the array is undefined behaviour in C;
    the handlers return `None` for it instead of guessing a result. */
module CSimulator {
  import opened Bitwise
  import opened Optional
  import opened CWords
  import CC = ConditionCodes

  const MEMLEN := 65536
  const NREG := 8

  /** The condition code, a `char` the program only ever sets to 'N', 'Z' or 'P'. */
  datatype CondCode = N | Z | P

  /** `CPU`. `running` is an `int` that only ever holds 0 or 1. */
  datatype Cpu = Cpu(mem: seq<int>, reg: seq<int>, pc: int, running: bool, ir: int, cc: CondCode)

  /** Standard input as the bytes still unread, and the bytes the traps printed. */
  datatype Io = Io(input: seq<int>, output: seq<int>)

  /** The end of a step: the next state, or undefined behaviour (an array index
      outside its array, or a read of the variable a failed `scanf` left unset). */
  datatype Outcome = Next(cpu: Cpu, io: Io) | Undefined

  /** The values a `CPU` can hold: full-size arrays of `short`, an `unsigned short`
      `pc` and a `short` `ir`. */
  predicate Valid(c: Cpu) {
    && |c.mem| == MEMLEN && |c.reg| == NREG
    && (forall i | 0 <= i < MEMLEN :: IsShort(c.mem[i]))
    && (forall i | 0 <= i < NREG :: IsShort(c.reg[i]))
    && IsAddress(c.pc) && IsShort(c.ir)
  }

  /** Standard input and output carry bytes. */
  predicate ValidIo(io: Io) {
    && (forall i | 0 <= i < |io.input| :: IsByte(io.input[i]))
    && (forall i | 0 <= i < |io.output| :: IsByte(io.output[i]))
  }

  /** An `int` index of `cpu->mem` that is inside the array. */
  predicate InMemory(i: int) {
    0 <= i < MEMLEN
  }

  // ---------------------------------------------------------------------------
  // Condition code

  /** `update_condition_code`: the code becomes the sign of the value. */
  function UpdateConditionCode(c: Cpu, value: int): (d: Cpu)
    ensures d == c.(cc := d.cc)
    ensures d.cc == N <==> value < 0
    ensures d.cc == Z <==> value == 0
    ensures d.cc == P <==> value > 0
  {
    c.(cc := if value < 0 then N else if value == 0 then Z else P)
  }

  /** The bit of a branch's `nzp` field (bits 11..9 read as a number) that a
      code selects: N the lowest. */
  function FlagIndex(cc: CondCode): nat {
    match cc
    case N => 0
    case Z => 1
    case P => 2
  }

  /** `get_condition_num`: one bit per code. Its `default` case would return 0;
      no code reaches it, since the code is only ever 'N', 'Z' or 'P'. */
  function GetConditionNum(cc: CondCode): (r: int)
    ensures r == Pow2(FlagIndex(cc))
  {
    match cc
    case N => 1
    case Z => 2
    case P => 4
  }

  /** The C numbering is the Rust engine's reversed: the two flags of a code
      multiply to 4, so N and P trade places and Z stays. */
  lemma ConditionNumReversesRust(cc: CondCode)
    ensures GetConditionNum(cc) * CC.Bit(AsRust(cc)) == 4
  {
  }

  function AsRust(cc: CondCode): CC.ConditionCode {
    match cc
    case N => CC.N
    case Z => CC.Z
    case P => CC.P
  }

  // ---------------------------------------------------------------------------
  // Writes

  /** `d` is `c` with register `dr` set to `v` and the code set to the sign of
      `v`; memory, `pc`, `ir` and `running` are as in `c`. */
  predicate WroteDr(c: Cpu, d: Cpu, dr: int, v: int)
    requires 0 <= dr < |c.reg|
  {
    && d.mem == c.mem && d.pc == c.pc && d.ir == c.ir && d.running == c.running
    && d.reg == c.reg[dr := v]
    && (d.cc == N <==> v < 0) && (d.cc == Z <==> v == 0) && (d.cc == P <==> v > 0)
  }

  /** `d` is `c` with memory cell `a` set to `v` and nothing else changed. */
  predicate WroteMem(c: Cpu, d: Cpu, a: int, v: int)
    requires 0 <= a < |c.mem|
  {
    && d.reg == c.reg && d.pc == c.pc && d.ir == c.ir && d.running == c.running && d.cc == c.cc
    && |d.mem| == |c.mem| && d.mem[a] == v
    && (forall i | 0 <= i < |c.mem| && i != a :: d.mem[i] == c.mem[i])
  }

  /** `cpu->reg[dr] = value;` then `update_condition_code(cpu, cpu->reg[dr])`: the
      code follows the value as stored, after the conversion to `Word`. */
  function SetDr(c: Cpu, dr: int, value: int): (d: Cpu)
    requires Valid(c) && 0 <= dr < NREG
    ensures Valid(d) && WroteDr(c, d, dr, ToShort(value))
  {
    var stored := ToShort(value);
    UpdateConditionCode(c.(reg := c.reg[dr := stored]), stored)
  }

  /** `cpu->mem[a] = value` for an index inside the array. */
  function StoreAt(c: Cpu, a: int, value: int): (d: Cpu)
    requires Valid(c) && InMemory(a) && IsShort(value)
    ensures Valid(d) && WroteMem(c, d, a, value)
  {
    c.(mem := c.mem[a := value])
  }

  // ---------------------------------------------------------------------------
  // Instruction fields

  /** A three-bit register field starting at bit lo. */
  function RegAt(ir: int, lo: nat): (r: int)
    ensures 0 <= r < NREG
  {
    FieldRange(ir, lo + 2, lo);
    assert Pow2(3) == 8;
    Field(ir, lo + 2, lo)
  }

  /** The signed offsets: two's-complement fields starting at bit 0. */
  function PcOffset9(ir: int): int {
    TwosComplementField(ir, 8)
  }

  function Offset6(ir: int): int {
    TwosComplementField(ir, 5)
  }

  function Imm5(ir: int): int {
    TwosComplementField(ir, 4)
  }

  function PcOffset11(ir: int): int {
    TwosComplementField(ir, 10)
  }

  /** `bit_select_us` on a three-bit field reads the register number. */
  lemma RegSelect(ir: int, hi: int, lo: nat)
    requires IsShort(ir) && hi == lo + 2 && lo <= 13
    ensures BitSelectUs(ir, hi, lo) == RegAt(ir, lo)
  {
  }

  /** `bit_select_us` on one bit reads that bit. */
  lemma BitSelect(ir: int, k: nat)
    requires IsShort(ir) && k <= 15
    ensures BitSelectUs(ir, k, k) == Bit(ir, k)
  {
    assert Pow2(1) == 2;
  }

  // ---------------------------------------------------------------------------
  // Instructions. Each `Instr*` reads its fields from `ir` as the source does and
  // hands them to a step function; the matching `*Fields` lemma restates the
  // fields by their reference definitions.

  /** BR: the `pc` moves by the offset, modulo 2^16, iff the branch field and the
      code's number share a bit. */
  function BrStep(c: Cpu, nzp: int, pcOffset: int): (d: Cpu)
    requires Valid(c)
    ensures Valid(d) && d == c.(pc := d.pc)
  {
    if And(nzp, GetConditionNum(c.cc)) != 0 then c.(pc := ToAddress(c.pc + pcOffset)) else c
  }

  function InstrBr(c: Cpu): (d: Cpu)
    requires Valid(c)
    ensures Valid(d)
  {
    var branchType := BitSelectUs(c.ir, 11, 9);
    var pcOffset := BitSelectS(c.ir, 8, 0);
    BrStep(c, branchType, pcOffset)
  }

  /** The branch is taken iff the bit of the branch field selected by the code
      is set: bit 9 for N, 10 for Z, 11 for P. */
  predicate BranchTaken(cc: CondCode, ir: int) {
    Bit(ir, 9 + FlagIndex(cc)) == 1
  }

  /** BR as a whole: `pc` plus the sign-extended offset when taken, else nothing. */
  function BranchResult(c: Cpu): Cpu {
    if BranchTaken(c.cc, c.ir) then c.(pc := ToAddress(c.pc + PcOffset9(c.ir))) else c
  }

  lemma BranchSemantics(c: Cpu)
    requires Valid(c)
    ensures InstrBr(c) == BranchResult(c)
  {
    InstrBrFields(c);
    BranchStepTaken(c);
  }

  /** The step on the fields: the test of the source is `BranchTaken`. */
  lemma BranchStepTaken(c: Cpu)
    requires Valid(c)
    ensures BrStep(c, BitSelectUs(c.ir, 11, 9), PcOffset9(c.ir)) == BranchResult(c)
  {
    BranchFlags(c.ir, c.cc);
  }

  lemma InstrBrFields(c: Cpu)
    requires Valid(c)
    ensures InstrBr(c) == BrStep(c, BitSelectUs(c.ir, 11, 9), PcOffset9(c.ir))
  {
    SelectionIsSignExtension(c.ir, 8);
  }

  lemma BranchFlags(ir: int, cc: CondCode)
    requires IsShort(ir)
    ensures And(BitSelectUs(ir, 11, 9), GetConditionNum(cc)) != 0 <==> BranchTaken(cc, ir)
  {
    AndSingleBit(Field(ir, 11, 9), FlagIndex(cc));
    BitOfField(ir, 11, 9, FlagIndex(cc));
  }

  /** The operand of ADD and AND: register `bits[2:0]` in register mode, the
      sign-extended `bits[4:0]` in immediate mode. */
  function Operand2(c: Cpu): (r: int)
    requires Valid(c)
    ensures IsShort(r)
  {
    TwosComplementRange(c.ir, 4);
    assert Pow2(4) == 16;
    if Bit(c.ir, 5) == 0 then c.reg[RegAt(c.ir, 0)] else Imm5(c.ir)
  }

  function SourceOperand(c: Cpu): int
    requires Valid(c)
  {
    if BitSelectUs(c.ir, 5, 5) == 0 then
      RegSelect(c.ir, 2, 0);
      c.reg[BitSelectUs(c.ir, 2, 0)]
    else
      BitSelectS(c.ir, 4, 0)
  }

  lemma SourceOperandField(c: Cpu)
    requires Valid(c)
    ensures SourceOperand(c) == Operand2(c)
  {
    BitSelect(c.ir, 5);
    SelectionIsSignExtension(c.ir, 4);
  }

  /** ADD: the sum, converted to `short`, into `dr`. */
  function AddStep(c: Cpu, dr: int, sr1: int, operand: int): (d: Cpu)
    requires Valid(c) && 0 <= dr < NREG && 0 <= sr1 < NREG
    ensures Valid(d) && WroteDr(c, d, dr, ToShort(c.reg[sr1] + operand))
  {
    SetDr(c, dr, c.reg[sr1] + operand)
  }

  function InstrAdd(c: Cpu): (d: Cpu)
    requires Valid(c)
    ensures Valid(d)
  {
    var dr := BitSelectUs(c.ir, 11, 9);
    RegSelect(c.ir, 11, 9);
    var src1 := BitSelectUs(c.ir, 8, 6);
    RegSelect(c.ir, 8, 6);
    AddStep(c, dr, src1, SourceOperand(c))
  }

  lemma InstrAddFields(c: Cpu)
    requires Valid(c)
    ensures InstrAdd(c) == AddStep(c, RegAt(c.ir, 9), RegAt(c.ir, 6), Operand2(c))
  {
    RegSelect(c.ir, 11, 9);
    RegSelect(c.ir, 8, 6);
    SourceOperandField(c);
  }

  /** AND: the bitwise AND of two `short`s is a `short`, stored unchanged. */
  function AndStep(c: Cpu, dr: int, sr1: int, operand: int): (d: Cpu)
    requires Valid(c) && 0 <= dr < NREG && 0 <= sr1 < NREG && IsShort(operand)
    ensures Valid(d) && WroteDr(c, d, dr, And(c.reg[sr1], operand))
  {
    AndShort(c.reg[sr1], operand);
    SetDr(c, dr, And(c.reg[sr1], operand))
  }

  lemma AndShort(a: int, b: int)
    requires IsShort(a) && IsShort(b)
    ensures IsShort(And(a, b))
  {
    Pow2Value31();
    AndBounded(a, b, 15);
  }

  function InstrAnd(c: Cpu): (d: Cpu)
    requires Valid(c)
    ensures Valid(d)
  {
    var dr := BitSelectUs(c.ir, 11, 9);
    RegSelect(c.ir, 11, 9);
    var src1 := BitSelectUs(c.ir, 8, 6);
    RegSelect(c.ir, 8, 6);
    AndStep(c, dr, src1, SourceOperand(c))
  }

  lemma InstrAndFields(c: Cpu)
    requires Valid(c)
    ensures InstrAnd(c) == AndStep(c, RegAt(c.ir, 9), RegAt(c.ir, 6), Operand2(c))
  {
    RegSelect(c.ir, 11, 9);
    RegSelect(c.ir, 8, 6);
    SourceOperandField(c);
  }

  /** LD: `reg[dr] = mem[pc + offset]`, defined only when the sum indexes memory
      (there is no wrap: the sum is an `int`). */
  function LdStep(c: Cpu, dr: int, pcOffset: int): (r: Option<Cpu>)
    requires Valid(c) && 0 <= dr < NREG
    ensures r.Some? <==> InMemory(c.pc + pcOffset)
    ensures r.Some? ==> Valid(r.value) && WroteDr(c, r.value, dr, c.mem[c.pc + pcOffset])
  {
    var a := c.pc + pcOffset;
    if InMemory(a) then Some(SetDr(c, dr, c.mem[a])) else None
  }

  function InstrLd(c: Cpu): (r: Option<Cpu>)
    requires Valid(c)
    ensures r.Some? ==> Valid(r.value)
  {
    var dr := BitSelectUs(c.ir, 11, 9);
    RegSelect(c.ir, 11, 9);
    LdStep(c, dr, BitSelectS(c.ir, 8, 0))
  }

  lemma InstrLdFields(c: Cpu)
    requires Valid(c)
    ensures InstrLd(c) == LdStep(c, RegAt(c.ir, 9), PcOffset9(c.ir))
  {
    SelectionIsSignExtension(c.ir, 8);
  }

  /** ST: `mem[pc + offset] = reg[sr]`, defined only inside memory. */
  function StStep(c: Cpu, sr: int, pcOffset: int): (r: Option<Cpu>)
    requires Valid(c) && 0 <= sr < NREG
    ensures r.Some? <==> InMemory(c.pc + pcOffset)
    ensures r.Some? ==> Valid(r.value) && WroteMem(c, r.value, c.pc + pcOffset, c.reg[sr])
  {
    var a := c.pc + pcOffset;
    if InMemory(a) then Some(StoreAt(c, a, c.reg[sr])) else None
  }

  function InstrSt(c: Cpu): (r: Option<Cpu>)
    requires Valid(c)
    ensures r.Some? ==> Valid(r.value)
  {
    var src := BitSelectUs(c.ir, 11, 9);
    RegSelect(c.ir, 11, 9);
    StStep(c, src, BitSelectS(c.ir, 8, 0))
  }

  lemma InstrStFields(c: Cpu)
    requires Valid(c)
    ensures InstrSt(c) == StStep(c, RegAt(c.ir, 9), PcOffset9(c.ir))
  {
    SelectionIsSignExtension(c.ir, 8);
  }

  /** JSR and JSRR: R7 receives `pc` (converted to `short`) first; then `pc`
      moves by the offset, or takes the base register, which for R7 is the `pc`
      just saved, so `JSRR R7` does not move. */
  function JsrStep(c: Cpu, mode: int, pcOffset: int, base: int): (d: Cpu)
    requires Valid(c) && 0 <= base < NREG
    ensures Valid(d)
    ensures d.mem == c.mem && d.ir == c.ir && d.running == c.running && d.cc == c.cc
    ensures d.reg == c.reg[7 := ToShort(c.pc)]
    ensures mode == 1 ==> d.pc == ToAddress(c.pc + pcOffset)
    ensures mode != 1 && base != 7 ==> d.pc == ToAddress(c.reg[base])
    ensures mode != 1 && base == 7 ==> d.pc == c.pc
  {
    var linked := c.(reg := c.reg[7 := ToShort(c.pc)]);
    ShortAddressRoundTrip(c.pc);
    if mode == 1 then linked.(pc := ToAddress(c.pc + pcOffset))
    else linked.(pc := ToAddress(linked.reg[base]))
  }

  /** An `unsigned short` stored in a `short` and read back as an `unsigned
      short` is unchanged. */
  lemma ShortAddressRoundTrip(a: int)
    requires IsAddress(a)
    ensures ToAddress(ToShort(a)) == a
  {
    if a >= 0x8000 {
      ConversionsUnique(a, a - 0x1_0000);
    }
  }

  function InstrJsr(c: Cpu): (d: Cpu)
    requires Valid(c)
    ensures Valid(d)
  {
    var mode := BitSelectUs(c.ir, 11, 11);
    var regNum := BitSelectUs(c.ir, 8, 6);
    RegSelect(c.ir, 8, 6);
    JsrStep(c, mode, BitSelectS(c.ir, 10, 0), regNum)
  }

  lemma InstrJsrFields(c: Cpu)
    requires Valid(c)
    ensures InstrJsr(c) == JsrStep(c, Bit(c.ir, 11), PcOffset11(c.ir), RegAt(c.ir, 6))
  {
    BitSelect(c.ir, 11);
    SelectionIsSignExtension(c.ir, 10);
  }

  /** LDR: `reg[dr] = mem[reg[base] + offset]`, defined only inside memory. */
  function LdrStep(c: Cpu, dr: int, base: int, offset: int): (r: Option<Cpu>)
    requires Valid(c) && 0 <= dr < NREG && 0 <= base < NREG
    ensures r.Some? <==> InMemory(c.reg[base] + offset)
    ensures r.Some? ==> Valid(r.value) && WroteDr(c, r.value, dr, c.mem[c.reg[base] + offset])
  {
    var a := c.reg[base] + offset;
    if InMemory(a) then Some(SetDr(c, dr, c.mem[a])) else None
  }

  function InstrLdr(c: Cpu): (r: Option<Cpu>)
    requires Valid(c)
    ensures r.Some? ==> Valid(r.value)
  {
    var dr := BitSelectUs(c.ir, 11, 9);
    RegSelect(c.ir, 11, 9);
    var base := BitSelectUs(c.ir, 8, 6);
    RegSelect(c.ir, 8, 6);
    LdrStep(c, dr, base, BitSelectS(c.ir, 5, 0))
  }

  lemma InstrLdrFields(c: Cpu)
    requires Valid(c)
    ensures InstrLdr(c) == LdrStep(c, RegAt(c.ir, 9), RegAt(c.ir, 6), Offset6(c.ir))
  {
    SelectionIsSignExtension(c.ir, 5);
  }

  /** STR: `mem[base + offset] = reg[sr]`, where `base` is the register number
      from the instruction and not the register's contents; defined only when
      that sum indexes memory. */
  function StrStep(c: Cpu, sr: int, base: int, offset: int): (r: Option<Cpu>)
    requires Valid(c) && 0 <= sr < NREG
    ensures r.Some? <==> InMemory(base + offset)
    ensures r.Some? ==> Valid(r.value) && WroteMem(c, r.value, base + offset, c.reg[sr])
  {
    var a := base + offset;
    if InMemory(a) then Some(StoreAt(c, a, c.reg[sr])) else None
  }

  function InstrStr(c: Cpu): (r: Option<Cpu>)
    requires Valid(c)
    ensures r.Some? ==> Valid(r.value)
  {
    var dr := BitSelectUs(c.ir, 11, 9);
    RegSelect(c.ir, 11, 9);
    var base := BitSelectUs(c.ir, 8, 6);
    StrStep(c, dr, base, BitSelectS(c.ir, 5, 0))
  }

  lemma InstrStrFields(c: Cpu)
    requires Valid(c)
    ensures InstrStr(c) == StrStep(c, RegAt(c.ir, 9), RegAt(c.ir, 6), Offset6(c.ir))
  {
    RegSelect(c.ir, 8, 6);
    SelectionIsSignExtension(c.ir, 5);
  }

  /** NOT: the complement of a `short` is a `short`, stored unchanged. */
  function NotStep(c: Cpu, dr: int, sr: int): (d: Cpu)
    requires Valid(c) && 0 <= dr < NREG && 0 <= sr < NREG
    ensures Valid(d) && WroteDr(c, d, dr, -c.reg[sr] - 1)
  {
    SetDr(c, dr, Not(c.reg[sr]))
  }

  function InstrNot(c: Cpu): (d: Cpu)
    requires Valid(c)
    ensures Valid(d)
  {
    var dr := BitSelectUs(c.ir, 11, 9);
    RegSelect(c.ir, 11, 9);
    var src := BitSelectUs(c.ir, 8, 6);
    RegSelect(c.ir, 8, 6);
    NotStep(c, dr, src)
  }

  lemma InstrNotFields(c: Cpu)
    requires Valid(c)
    ensures InstrNot(c) == NotStep(c, RegAt(c.ir, 9), RegAt(c.ir, 6))
  {
  }

  /** LDI: `reg[dr] = mem[mem[pc + offset]]`. The inner index is an `int`; the
      outer one is a `short`, so a negative cell is outside memory. */
  function LdiStep(c: Cpu, dr: int, pcOffset: int): (r: Option<Cpu>)
    requires Valid(c) && 0 <= dr < NREG
    ensures r.Some? <==> InMemory(c.pc + pcOffset) && c.mem[c.pc + pcOffset] >= 0
    ensures r.Some? ==> Valid(r.value) && WroteDr(c, r.value, dr, c.mem[c.mem[c.pc + pcOffset]])
  {
    var a := c.pc + pcOffset;
    if !InMemory(a) then None
    else
      var b := c.mem[a];
      if InMemory(b) then Some(SetDr(c, dr, c.mem[b])) else None
  }

  function InstrLdi(c: Cpu): (r: Option<Cpu>)
    requires Valid(c)
    ensures r.Some? ==> Valid(r.value)
  {
    var dr := BitSelectUs(c.ir, 11, 9);
    RegSelect(c.ir, 11, 9);
    LdiStep(c, dr, BitSelectS(c.ir, 8, 0))
  }

  lemma InstrLdiFields(c: Cpu)
    requires Valid(c)
    ensures InstrLdi(c) == LdiStep(c, RegAt(c.ir, 9), PcOffset9(c.ir))
  {
    SelectionIsSignExtension(c.ir, 8);
  }

  /** STI: `mem[mem[pc + offset]] = reg[sr]`, defined when both indices are. */
  function StiStep(c: Cpu, sr: int, pcOffset: int): (r: Option<Cpu>)
    requires Valid(c) && 0 <= sr < NREG
    ensures r.Some? <==> InMemory(c.pc + pcOffset) && c.mem[c.pc + pcOffset] >= 0
    ensures r.Some? ==> Valid(r.value) && WroteMem(c, r.value, c.mem[c.pc + pcOffset], c.reg[sr])
  {
    var a := c.pc + pcOffset;
    if !InMemory(a) then None
    else
      var b := c.mem[a];
      if InMemory(b) then Some(StoreAt(c, b, c.reg[sr])) else None
  }

  function InstrSti(c: Cpu): (r: Option<Cpu>)
    requires Valid(c)
    ensures r.Some? ==> Valid(r.value)
  {
    var src := BitSelectUs(c.ir, 11, 9);
    RegSelect(c.ir, 11, 9);
    StiStep(c, src, BitSelectS(c.ir, 8, 0))
  }

  lemma InstrStiFields(c: Cpu)
    requires Valid(c)
    ensures InstrSti(c) == StiStep(c, RegAt(c.ir, 9), PcOffset9(c.ir))
  {
    SelectionIsSignExtension(c.ir, 8);
  }

  /** JMP: `pc` takes the base register, read as an `unsigned short`. */
  function JmpStep(c: Cpu, base: int): (d: Cpu)
    requires Valid(c) && 0 <= base < NREG
    ensures Valid(d) && d == c.(pc := d.pc)
    ensures (d.pc - c.reg[base]) % WORD_MODULUS == 0
  {
    c.(pc := ToAddress(c.reg[base]))
  }

  function InstrJmp(c: Cpu): (d: Cpu)
    requires Valid(c)
    ensures Valid(d)
  {
    var base := BitSelectUs(c.ir, 8, 6);
    RegSelect(c.ir, 8, 6);
    JmpStep(c, base)
  }

  lemma InstrJmpFields(c: Cpu)
    requires Valid(c)
    ensures InstrJmp(c) == JmpStep(c, RegAt(c.ir, 6))
  {
  }

  /** LEA: `pc + offset`, converted to `short`, into `dr`. */
  function LeaStep(c: Cpu, dr: int, pcOffset: int): (d: Cpu)
    requires Valid(c) && 0 <= dr < NREG
    ensures Valid(d) && WroteDr(c, d, dr, ToShort(c.pc + pcOffset))
  {
    SetDr(c, dr, c.pc + pcOffset)
  }

  function InstrLea(c: Cpu): (d: Cpu)
    requires Valid(c)
    ensures Valid(d)
  {
    var dr := BitSelectUs(c.ir, 11, 9);
    RegSelect(c.ir, 11, 9);
    LeaStep(c, dr, BitSelectS(c.ir, 8, 0))
  }

  lemma InstrLeaFields(c: Cpu)
    requires Valid(c)
    ensures InstrLea(c) == LeaStep(c, RegAt(c.ir, 9), PcOffset9(c.ir))
  {
    SelectionIsSignExtension(c.ir, 8);
  }

  // ---------------------------------------------------------------------------
  // Traps

  /** GETC (`trap_getchar`): R0 receives the next input byte as a signed `char`;
      the code is not touched. With no input left `scanf` assigns nothing and
      the uninitialised `char` is read. */
  function TrapGetchar(c: Cpu, io: Io): (r: Outcome)
    requires Valid(c) && ValidIo(io)
    ensures r.Undefined? <==> |io.input| == 0
    ensures r.Next? ==> && Valid(r.cpu) && ValidIo(r.io)
                        && r.io == io.(input := io.input[1..])
                        && r.cpu.reg[0] == SignedChar(io.input[0])
                        && -0x80 <= r.cpu.reg[0] < 0x80
                        && ToByte(r.cpu.reg[0]) == io.input[0]
                        && r.cpu == c.(reg := r.cpu.reg)
                        && r.cpu.reg[1..] == c.reg[1..]
  {
    if |io.input| == 0 then Undefined
    else Next(c.(reg := c.reg[0 := SignedChar(io.input[0])]), io.(input := io.input[1..]))
  }

  /** OUT (`trap_out`): prints R0 as a character, i.e. its low eight bits. */
  function TrapOut(c: Cpu, io: Io): (r: Outcome)
    requires Valid(c) && ValidIo(io)
    ensures r.Next? && r.cpu == c && r.io.input == io.input
    ensures |r.io.output| == |io.output| + 1 && r.io.output[..|io.output|] == io.output
    ensures (r.io.output[|io.output|] - c.reg[0]) % 0x100 == 0 && ValidIo(r.io)
  {
    Next(c, io.(output := io.output + [ToByte(c.reg[0])]))
  }

  /** The scan of `trap_puts` from the `short` index `loc`: the bytes of the
      cells before the first zero, or `None` when an index is negative. The
      index is a `short`, so after 0x7FFF it becomes -0x8000 and the next read is
      outside memory: the scan never wraps and always ends. */
  function PutsFrom(mem: seq<int>, loc: int): (r: Option<seq<int>>)
    requires |mem| == MEMLEN && IsShort(loc)
    ensures r.Some? <==> 0 <= loc && ZeroFrom(mem, loc)
    ensures r.Some? ==> UpToZero(mem, loc, r.value)
    decreases 0x8000 - loc
  {
    if loc < 0 then None
    else if mem[loc] == 0 then Some([])
    else
      var next := ToShort(loc + 1);
      IncrementShort(loc);
      if next < 0 then None
      else
        match PutsFrom(mem, next)
        case None => None
        case Some(rest) => Some([ToByte(mem[loc])] + rest)
  }

  /** Some cell from `loc` up to 0x7FFF holds zero. */
  predicate ZeroFrom(mem: seq<int>, loc: int)
    requires |mem| == MEMLEN && 0 <= loc
  {
    exists k | loc <= k < 0x8000 :: mem[k] == 0
  }

  /** `out` is the bytes of the cells from `loc` up to the first zero cell. */
  predicate UpToZero(mem: seq<int>, loc: int, out: seq<int>)
    requires |mem| == MEMLEN
  {
    && 0 <= loc && loc + |out| < 0x8000
    && mem[loc + |out|] == 0
    && (forall j | 0 <= j < |out| :: mem[loc + j] != 0 && out[j] == ToByte(mem[loc + j]))
  }

  /** PUTS (`trap_puts`): prints the string that R0 points at. */
  function TrapPuts(c: Cpu, io: Io): (r: Outcome)
    requires Valid(c) && ValidIo(io)
    ensures r.Undefined? <==> !(0 <= c.reg[0] && ZeroFrom(c.mem, c.reg[0]))
    ensures r.Next? ==> && r.cpu == c && r.io.input == io.input && ValidIo(r.io)
                        && |io.output| <= |r.io.output| && r.io.output[..|io.output|] == io.output
                        && UpToZero(c.mem, c.reg[0], r.io.output[|io.output|..])
  {
    match PutsFrom(c.mem, c.reg[0])
    case None => Undefined
    case Some(bytes) =>
      var out := io.output + bytes;
      assert out[|io.output|..] == bytes;
      Next(c, io.(output := out))
  }

  /** HALT (`trap_halt`): the code becomes 'P' and the machine stops. */
  function TrapHalt(c: Cpu, io: Io): (r: Outcome)
    requires Valid(c)
    ensures r.Next? && r.io == io && r.cpu == c.(cc := P, running := false)
  {
    Next(c.(cc := P, running := false), io)
  }

  /** TRAP: dispatch on `bits[7:0]`. IN (`trap_input`) only adds a prompt to
      GETC. An unknown code stops the machine and changes nothing else. */
  function InstrTrap(c: Cpu, io: Io): (r: Outcome)
    requires Valid(c) && ValidIo(io)
    ensures r.Next? ==> Valid(r.cpu) && ValidIo(r.io)
  {
    var trapVector := BitSelectUs(c.ir, 7, 0);
    if trapVector == 0x20 then TrapGetchar(c, io)
    else if trapVector == 0x21 then TrapOut(c, io)
    else if trapVector == 0x22 then TrapPuts(c, io)
    else if trapVector == 0x23 then TrapGetchar(c, io)
    else if trapVector == 0x25 then TrapHalt(c, io)
    else Next(c.(running := false), io)
  }

  /** Known traps run their routine; any other code only clears `running`. */
  lemma TrapDispatch(c: Cpu, io: Io)
    requires Valid(c) && ValidIo(io)
    ensures var code := Field(c.ir, 7, 0);
            && (code == 0x20 || code == 0x23 ==> InstrTrap(c, io) == TrapGetchar(c, io))
            && (code == 0x21 ==> InstrTrap(c, io) == TrapOut(c, io))
            && (code == 0x22 ==> InstrTrap(c, io) == TrapPuts(c, io))
            && (code == 0x25 ==> InstrTrap(c, io) == TrapHalt(c, io))
            && (code !in {0x20, 0x21, 0x22, 0x23, 0x25} ==>
                  InstrTrap(c, io) == Next(c.(running := false), io))
  {
  }
}
