/** The opcode table and the instruction semantics of the Rust engine
    (rust_implementation/src/operation.rs). Every handler runs on the state the
    fetch step leaves: `ir` holds the instruction and `pc` already points past it.

    The handlers read their fields with `bits` and `bits_signed` as the source
    does; their contracts state the result with plain bit fields (`Field`,
    `Bit`), so the sign-test quirks of `bits_signed` show up as written. */
module Operations {
  import opened Bitwise
  import opened Optional
  import opened Errors
  import Utils
  import CC = ConditionCodes
  import NiceVector
  import opened Machine

  /** `Operation`, in opcode order. */
  datatype Operation = BR | ADD | LD | ST | JSR | AND | LDR | STR | RTI | NOT | LDI | STI | JMP | ERR | LEA | TRAP

  /** The opcode of each operation: its position in the table. */
  function Code(op: Operation): int {
    match op
    case BR => 0 case ADD => 1 case LD => 2 case ST => 3
    case JSR => 4 case AND => 5 case LDR => 6 case STR => 7
    case RTI => 8 case NOT => 9 case LDI => 10 case STI => 11
    case JMP => 12 case ERR => 13 case LEA => 14 case TRAP => 15
  }

  /** `Operation::from_code` on a `u8`. */
  function FromCode(opCode: int): (r: Failable<Operation>)
    requires 0 <= opCode < 256
    ensures !r.Panic?
    ensures r.Ok? <==> opCode < 16
    ensures r.Ok? ==> Code(r.value) == opCode
    ensures r.Err? ==> r.error == UnrecognizedOpCode(opCode)
  {
    if opCode == 0 then Ok(BR)
    else if opCode == 1 then Ok(ADD)
    else if opCode == 2 then Ok(LD)
    else if opCode == 3 then Ok(ST)
    else if opCode == 4 then Ok(JSR)
    else if opCode == 5 then Ok(AND)
    else if opCode == 6 then Ok(LDR)
    else if opCode == 7 then Ok(STR)
    else if opCode == 8 then Ok(RTI)
    else if opCode == 9 then Ok(NOT)
    else if opCode == 10 then Ok(LDI)
    else if opCode == 11 then Ok(STI)
    else if opCode == 12 then Ok(JMP)
    else if opCode == 13 then Ok(ERR)
    else if opCode == 14 then Ok(LEA)
    else if opCode == 15 then Ok(TRAP)
    else Err(UnrecognizedOpCode(opCode))
  }

  /** Decoding the opcode of an operation gives the operation back. */
  lemma FromCodeRoundTrip(op: Operation)
    ensures 0 <= Code(op) < 16 && FromCode(Code(op)) == Ok(op)
  {
  }

  // ---------------------------------------------------------------------------
  // Instruction fields

  /** The register number in bits lo+2..lo (DR/SR at 9, SR1/BaseR at 6, SR2 at 0). */
  function RegAt(ir: int, lo: nat): (r: int)
    ensures 0 <= r < NUM_REGISTERS
  {
    Powers();
    Field(ir, lo + 2, lo)
  }

  /** `bits(lo + 2, lo)` reads the register number at lo. */
  lemma RegField(ir: int, lo: nat)
    requires lo <= 9
    ensures Utils.Bits(ir, lo + 2, lo) == RegAt(ir, lo)
  {
  }

  /** The nine-bit offset of BR, LD, ST, LDI, STI and LEA as `bits_signed(8, 0)`
      reads it: the sign is taken from bit 9, not bit 8. */
  function PcOffset9(ir: int): (r: int)
    ensures -256 <= r < 512
  {
    Powers();
    if Bit(ir, 9) == 1 then Field(ir, 7, 0) - 256 else Field(ir, 8, 0)
  }

  /** The six-bit offset of LDR as `bits_signed(5, 0)` reads it: the sign is
      taken from bit 6, the low bit of the base register. */
  function Offset6(ir: int): (r: int)
    ensures -32 <= r < 64
  {
    Powers();
    if Bit(ir, 6) == 1 then Field(ir, 4, 0) - 32 else Field(ir, 5, 0)
  }

  /** The immediate operand of ADD and AND. `bits_signed(4, 0)` takes its sign
      from bit 5, the mode bit, which is set whenever the immediate is used: the
      operand is always the low four bits minus 16. */
  function Imm5(ir: int): (r: int)
    ensures -16 <= r < 0
  {
    Powers();
    Field(ir, 3, 0) - 16
  }

  /** The offset of JSR. `bits_signed(10, 0)` takes its sign from bit 11, the
      mode bit, which is set whenever the offset is used: the offset is always
      the low ten bits minus 1024. */
  function PcOffset11(ir: int): (r: int)
    ensures -1024 <= r < 0
  {
    Powers();
    Field(ir, 9, 0) - 1024
  }

  /** `bits_signed(8, 0)` reads the nine-bit offset with its sign at bit 9. */
  lemma Offset9Field(ir: int)
    ensures Utils.BitsSigned(ir, 8, 0) == PcOffset9(ir)
  {
    Offset9Signed(ir);
  }

  lemma Offset9Signed(ir: int)
    ensures Utils.SignedField(ir, 8, 0) == PcOffset9(ir)
  {
    Utils.SignedFieldAt(ir, 8, 0, 9, 7, 8);
    Powers();
  }

  /** `bits_signed(5, 0)` reads the six-bit offset with its sign at bit 6. */
  lemma Offset6Field(ir: int)
    ensures Utils.BitsSigned(ir, 5, 0) == Offset6(ir)
  {
    Offset6Signed(ir);
  }

  lemma Offset6Signed(ir: int)
    ensures Utils.SignedField(ir, 5, 0) == Offset6(ir)
  {
    Utils.SignedFieldAt(ir, 5, 0, 6, 4, 5);
    Powers();
  }

  /** In immediate mode (bit 5 set) `bits_signed(4, 0)` is never non-negative. */
  lemma Imm5Field(ir: int)
    requires Bit(ir, 5) == 1
    ensures Utils.BitsSigned(ir, 4, 0) == Imm5(ir)
  {
    Imm5Signed(ir);
  }

  lemma Imm5Signed(ir: int)
    requires Bit(ir, 5) == 1
    ensures Utils.SignedField(ir, 4, 0) == Imm5(ir)
  {
    Utils.SignedFieldAt(ir, 4, 0, 5, 3, 4);
    Powers();
  }

  /** In JSR mode (bit 11 set) `bits_signed(10, 0)` is never non-negative. */
  lemma Offset11Field(ir: int)
    requires Bit(ir, 11) == 1
    ensures Utils.BitsSigned(ir, 10, 0) == PcOffset11(ir)
  {
    Offset11Signed(ir);
  }

  lemma Offset11Signed(ir: int)
    requires Bit(ir, 11) == 1
    ensures Utils.SignedField(ir, 10, 0) == PcOffset11(ir)
  {
    Utils.SignedFieldAt(ir, 10, 0, 11, 9, 10);
    Powers();
  }

  /** `bits(l, l)` is bit l. */
  lemma SingleBits(ir: int)
    ensures Utils.Bits(ir, 5, 5) == Bit(ir, 5) && Utils.Bits(ir, 11, 11) == Bit(ir, 11)
  {
    Powers();
  }

  /** The ranges of the reads the handlers make, stated on the reads themselves
      so that a handler needs no arithmetic of its own. */
  lemma DrRange(ir: int)
    ensures 0 <= Utils.Bits(ir, 11, 9) < NUM_REGISTERS
  {
    RegField(ir, 9);
  }

  lemma BaseRange(ir: int)
    ensures 0 <= Utils.Bits(ir, 8, 6) < NUM_REGISTERS
  {
    RegField(ir, 6);
  }

  lemma Offset9Range(ir: int)
    ensures -256 <= Utils.BitsSigned(ir, 8, 0) < 512
  {
    Offset9Field(ir);
  }

  lemma Offset6Range(ir: int)
    ensures -32 <= Utils.BitsSigned(ir, 5, 0) < 64
  {
    Offset6Field(ir);
  }

  lemma UnsignedOffset6Range(ir: int)
    ensures 0 <= Utils.Bits(ir, 5, 0) < 64
  {
    Powers();
    FieldRange(ir, 5, 0);
  }

  lemma Offset11Range(ir: int)
    ensures -1024 <= Utils.BitsSigned(ir, 10, 0) < 2048
  {
    Powers();
    Utils.SignedFieldRange(ir, 10, 0);
  }

  /** Reference rule of the branch: taken when the flag of the current condition
      code is among the n (bit 11), z (bit 10) and p (bit 9) bits. */
  predicate BranchTaken(cc: CC.ConditionCode, ir: int) {
    || (cc == CC.N && Bit(ir, 11) == 1)
    || (cc == CC.Z && Bit(ir, 10) == 1)
    || (cc == CC.P && Bit(ir, 9) == 1)
  }

  /** The same rule on the three-bit nzp field: n is its bit 2, z bit 1, p bit 0. */
  predicate Selects(nzp: int, cc: CC.ConditionCode) {
    || (cc == CC.N && Bit(nzp, 2) == 1)
    || (cc == CC.Z && Bit(nzp, 1) == 1)
    || (cc == CC.P && Bit(nzp, 0) == 1)
  }

  /** `nzp & cc.bit() != 0` tests the flag of the condition code. */
  lemma FlagTest(nzp: int, cc: CC.ConditionCode)
    ensures And(nzp, CC.Bit(cc)) != 0 <==> Selects(nzp, cc)
  {
    Powers();
    match cc
    case N => AndSingleBit(nzp, 2);
    case Z => AndSingleBit(nzp, 1);
    case P => AndSingleBit(nzp, 0);
  }

  /** The flags of the nzp field are bits 11, 10 and 9 of the instruction. */
  lemma NzpFlags(ir: int, cc: CC.ConditionCode)
    ensures Selects(Field(ir, 11, 9), cc) <==> BranchTaken(cc, ir)
  {
    BitOfField(ir, 11, 9, 2);
    BitOfField(ir, 11, 9, 1);
    BitOfField(ir, 11, 9, 0);
  }

  // ---------------------------------------------------------------------------
  // Memory access as the handlers use it: `cpu.mem[a]` on either side of an
  // assignment panics when `a` is outside memory.

  /** `cpu.mem[a]` read. */
  function ReadMem(c: Cpu, a: int): (r: Failable<int>)
    requires Valid(c) && IsI32(a)
    ensures 0 <= a < NUM_MEMORY_ADDRESSES ==> r == Ok(c.mem.vals[a])
    ensures !(0 <= a < NUM_MEMORY_ADDRESSES) ==> r == Failable.Panic(IndexOutOfBounds)
  {
    match NiceVector.Index(c.mem, a)
    case None => Failable.Panic(IndexOutOfBounds)
    case Some(v) => Ok(v)
  }

  /** `cpu.mem[a] = v`. */
  function WriteMem(c: Cpu, a: int, v: int): (r: Failable<Cpu>)
    requires Valid(c) && IsI32(a) && IsI32(v)
    ensures 0 <= a < NUM_MEMORY_ADDRESSES ==> r.Ok? && WroteMem(c, r.value, a, v) && Valid(r.value)
    ensures !(0 <= a < NUM_MEMORY_ADDRESSES) ==> r == Failable.Panic(IndexOutOfBounds)
  {
    match NiceVector.IndexMut(c.mem, a, v)
    case None => Failable.Panic(IndexOutOfBounds)
    case Some(mem) => Ok(c.(mem := mem))
  }

  /** `cpu.set_dr(dr, cpu.mem[a])`. */
  function LoadDr(c: Cpu, dr: int, a: int): (r: Failable<Cpu>)
    requires Valid(c) && 0 <= dr < NUM_REGISTERS && IsI32(a)
    ensures 0 <= a < NUM_MEMORY_ADDRESSES ==> r.Ok? && WroteDr(c, r.value, dr, c.mem.vals[a]) && Valid(r.value)
    ensures !(0 <= a < NUM_MEMORY_ADDRESSES) ==> r == Failable.Panic(IndexOutOfBounds)
  {
    match ReadMem(c, a)
    case Ok(result) => Ok(SetDr(c, dr, result))
    case Err(e) => Err(e)
    case Panic(k) => Failable.Panic(k)
  }

  /** `cpu.reg[7] = cpu.pc`, the link write of JSR; the condition code is not set. */
  function LinkPc(c: Cpu): (d: Cpu)
    requires Valid(c)
    ensures Valid(d) && d.reg.vals == c.reg.vals[7 := c.pc]
    ensures d.mem == c.mem && d.pc == c.pc && d.ir == c.ir && d.cc == c.cc && d.running == c.running
  {
    c.(reg := NiceVector.IndexMut(c.reg, 7, c.pc).value)
  }

  // ---------------------------------------------------------------------------
  // Instructions that do not touch the console. Each handler is split in two:
  // `Instr…` reads the fields of `ir` with `bits` and `bits_signed` as the
  // source does and states which fields those are; `…Step` does the rest of the
  // handler on the field values. `Ok` carries the new state; on `Err` and
  // `Panic` the state is the one the handler started from.

  /** BR on its nzp field and offset: `pc` moves by the offset when the branch
      is taken, with no wrap-around. */
  function BrStep(c: Cpu, nzp: int, pcOffset: int): (r: Failable<Cpu>)
    requires Fetched(c) && -256 <= pcOffset < 512
    ensures r.Ok? && Valid(r.value)
    ensures Selects(nzp, c.cc) ==> r.value == c.(pc := c.pc + pcOffset)
    ensures !Selects(nzp, c.cc) ==> r.value == c
  {
    FlagTest(nzp, c.cc);
    if And(nzp, CC.Bit(c.cc)) != 0 then Ok(c.(pc := c.pc + pcOffset)) else Ok(c)
  }

  /** `instr_br`: nzp is bits 11..9, the offset `bits_signed(8, 0)`. */
  function InstrBr(c: Cpu): (r: Failable<Cpu>)
    requires Fetched(c)
    ensures !r.Err? && (r.Ok? ==> Valid(r.value))
  {
    var nzp := Utils.Bits(c.ir, 11, 9);
    var pcOffset := Utils.BitsSigned(c.ir, 8, 0);
    Offset9Range(c.ir);
    BrStep(c, nzp, pcOffset)
  }

  /** The fields `instr_br` reads. */
  lemma InstrBrFields(c: Cpu)
    requires Fetched(c)
    ensures InstrBr(c) == BrStep(c, Field(c.ir, 11, 9), PcOffset9(c.ir))
  {
    Powers();
    Offset9Field(c.ir);
  }

  /** Reference semantics of BR: `pc` moves by the nine-bit offset when the
      reference rule says the branch is taken, and nothing else changes. */
  function BranchResult(c: Cpu): Failable<Cpu>
    requires Fetched(c)
  {
    if BranchTaken(c.cc, c.ir) then Ok(c.(pc := c.pc + PcOffset9(c.ir))) else Ok(c)
  }

  /** `instr_br` agrees with the reference semantics on every fetched state. */
  lemma BranchSemantics(c: Cpu)
    requires Fetched(c)
    ensures InstrBr(c) == BranchResult(c)
  {
    InstrBrFields(c);
    BranchStep(c);
  }

  /** BR on the fields it reads follows the reference rule. */
  lemma BranchStep(c: Cpu)
    requires Fetched(c)
    ensures BrStep(c, Field(c.ir, 11, 9), PcOffset9(c.ir)) == BranchResult(c)
  {
    NzpFlags(c.ir, c.cc);
  }

  /** The second operand of ADD and AND: SR2, or the immediate when bit 5 is set. */
  function Operand2(c: Cpu): (r: int)
    requires Valid(c)
    ensures IsI32(r)
  {
    if Bit(c.ir, 5) == 0 then c.reg.vals[RegAt(c.ir, 0)] else Imm5(c.ir)
  }

  /** The second operand as `instr_add` and `instr_and` read it. */
  function SourceOperand(c: Cpu): (r: int)
    requires Valid(c)
    ensures r == Operand2(c)
  {
    var encoding := Utils.Bits(c.ir, 5, 5);
    assert encoding == Bit(c.ir, 5) by { SingleBits(c.ir); }
    if encoding == 0 then
      var src2 := Utils.Bits(c.ir, 2, 0);
      assert src2 == RegAt(c.ir, 0) by { RegField(c.ir, 0); }
      c.reg.vals[src2]
    else
      Imm5Field(c.ir);
      Utils.BitsSigned(c.ir, 4, 0)
  }

  /** ADD on its fields: the sum goes to DR through `set_dr`; a sum outside
      `i32` panics. */
  function AddStep(c: Cpu, dr: int, sr1: int, operand: int): (r: Failable<Cpu>)
    requires Fetched(c) && 0 <= dr < NUM_REGISTERS && 0 <= sr1 < NUM_REGISTERS && IsI32(operand)
    ensures !r.Err? && (r.Ok? ==> Valid(r.value))
    ensures var sum := c.reg.vals[sr1] + operand;
            && (IsI32(sum) ==> r.Ok? && WroteDr(c, r.value, dr, sum) && Valid(r.value))
            && (!IsI32(sum) ==> r == Failable.Panic(ArithmeticOverflow))
  {
    var result := c.reg.vals[sr1] + operand;
    if IsI32(result) then Ok(SetDr(c, dr, result)) else Failable.Panic(ArithmeticOverflow)
  }

  /** `instr_add`: DR is bits 11..9, SR1 bits 8..6, then the second operand. */
  function InstrAdd(c: Cpu): (r: Failable<Cpu>)
    requires Fetched(c)
    ensures !r.Err? && (r.Ok? ==> Valid(r.value))
  {
    var dr := Utils.Bits(c.ir, 11, 9);
    DrRange(c.ir);
    var src1 := Utils.Bits(c.ir, 8, 6);
    BaseRange(c.ir);
    AddStep(c, dr, src1, SourceOperand(c))
  }

  /** The fields `instr_add` reads. */
  lemma InstrAddFields(c: Cpu)
    requires Fetched(c)
    ensures InstrAdd(c) == AddStep(c, RegAt(c.ir, 9), RegAt(c.ir, 6), Operand2(c))
  {
    Powers();
    RegField(c.ir, 9);
    RegField(c.ir, 6);
  }

  /** LD on its fields: DR := mem[pc + offset]. */
  function LdStep(c: Cpu, dr: int, pcOffset: int): (r: Failable<Cpu>)
    requires Fetched(c) && 0 <= dr < NUM_REGISTERS && -256 <= pcOffset < 512
    ensures !r.Err? && (r.Ok? ==> Valid(r.value))
    ensures var a := c.pc + pcOffset;
            && (0 <= a < NUM_MEMORY_ADDRESSES ==> r.Ok? && WroteDr(c, r.value, dr, c.mem.vals[a]) && Valid(r.value))
            && (!(0 <= a < NUM_MEMORY_ADDRESSES) ==> r == Failable.Panic(IndexOutOfBounds))
  {
    LoadDr(c, dr, c.pc + pcOffset)
  }

  /** `instr_ld`: DR is bits 11..9, the offset `bits_signed(8, 0)`. */
  function InstrLd(c: Cpu): (r: Failable<Cpu>)
    requires Fetched(c)
    ensures !r.Err? && (r.Ok? ==> Valid(r.value))
  {
    var dr := Utils.Bits(c.ir, 11, 9);
    DrRange(c.ir);
    var pcOffset := Utils.BitsSigned(c.ir, 8, 0);
    Offset9Range(c.ir);
    LdStep(c, dr, pcOffset)
  }

  /** The fields `instr_ld` reads. */
  lemma InstrLdFields(c: Cpu)
    requires Fetched(c)
    ensures InstrLd(c) == LdStep(c, RegAt(c.ir, 9), PcOffset9(c.ir))
  {
    Powers();
    RegField(c.ir, 9);
    Offset9Field(c.ir);
  }

  /** ST on its fields: mem[pc + offset] := SR. */
  function StStep(c: Cpu, sr: int, pcOffset: int): (r: Failable<Cpu>)
    requires Fetched(c) && 0 <= sr < NUM_REGISTERS && -256 <= pcOffset < 512
    ensures !r.Err? && (r.Ok? ==> Valid(r.value))
    ensures var a := c.pc + pcOffset;
            && (0 <= a < NUM_MEMORY_ADDRESSES ==> r.Ok? && WroteMem(c, r.value, a, c.reg.vals[sr]) && Valid(r.value))
            && (!(0 <= a < NUM_MEMORY_ADDRESSES) ==> r == Failable.Panic(IndexOutOfBounds))
  {
    WriteMem(c, c.pc + pcOffset, c.reg.vals[sr])
  }

  /** `instr_st`: SR is bits 11..9, the offset `bits_signed(8, 0)`. */
  function InstrSt(c: Cpu): (r: Failable<Cpu>)
    requires Fetched(c)
    ensures !r.Err? && (r.Ok? ==> Valid(r.value))
  {
    var src := Utils.Bits(c.ir, 11, 9);
    DrRange(c.ir);
    var pcOffset := Utils.BitsSigned(c.ir, 8, 0);
    Offset9Range(c.ir);
    StStep(c, src, pcOffset)
  }

  /** The fields `instr_st` reads. */
  lemma InstrStFields(c: Cpu)
    requires Fetched(c)
    ensures InstrSt(c) == StStep(c, RegAt(c.ir, 9), PcOffset9(c.ir))
  {
    Powers();
    RegField(c.ir, 9);
    Offset9Field(c.ir);
  }

  /** JSR on its fields: R7 := pc first, then the jump; in JSRR mode the base
      register is read after that write, so JSRR R7 leaves `pc` where it was. */
  function JsrStep(c: Cpu, mode: int, pcOffset: int, base: int): (r: Failable<Cpu>)
    requires Fetched(c) && 0 <= base < NUM_REGISTERS && -1024 <= pcOffset < 2048
    ensures r.Ok? && Valid(r.value)
    ensures r.value.reg.vals == c.reg.vals[7 := c.pc]
    ensures r.value.mem == c.mem && r.value.cc == c.cc && r.value.ir == c.ir && r.value.running == c.running
    ensures mode == 1 ==> r.value.pc == c.pc + pcOffset
    ensures mode != 1 ==> r.value.pc == c.reg.vals[7 := c.pc][base]
  {
    var c1 := LinkPc(c);
    if mode == 1 then Ok(c1.(pc := c1.pc + pcOffset))
    else Ok(c1.(pc := c1.reg.vals[base]))
  }

  /** `instr_jsr`: the mode is bit 11, the offset `bits_signed(10, 0)` and the
      base register bits 8..6. */
  function InstrJsr(c: Cpu): (r: Failable<Cpu>)
    requires Fetched(c)
    ensures !r.Err? && (r.Ok? ==> Valid(r.value))
  {
    var mode := Utils.Bits(c.ir, 11, 11);
    var pcOffset := Utils.BitsSigned(c.ir, 10, 0);
    var base := Utils.Bits(c.ir, 8, 6);
    Offset11Range(c.ir);
    BaseRange(c.ir);
    JsrStep(c, mode, pcOffset, base)
  }

  /** The fields `instr_jsr` reads. */
  lemma InstrJsrFields(c: Cpu)
    requires Fetched(c)
    ensures InstrJsr(c) == JsrStep(c, Bit(c.ir, 11), PcOffset11(c.ir), RegAt(c.ir, 6))
  {
    Powers();
    SingleBits(c.ir);
    RegField(c.ir, 6);
    if Bit(c.ir, 11) == 1 {
      Offset11Field(c.ir);
    }
  }

  /** AND on its fields: the bitwise AND goes to DR through `set_dr`. */
  function AndStep(c: Cpu, dr: int, sr1: int, operand: int): (r: Failable<Cpu>)
    requires Fetched(c) && 0 <= dr < NUM_REGISTERS && 0 <= sr1 < NUM_REGISTERS && IsI32(operand)
    ensures r.Ok? && Valid(r.value)
    ensures WroteDr(c, r.value, dr, And(c.reg.vals[sr1], operand))
  {
    AndI32(c.reg.vals[sr1], operand);
    Ok(SetDr(c, dr, And(c.reg.vals[sr1], operand)))
  }

  /** `instr_and`: DR is bits 11..9, SR1 bits 8..6, then the second operand. */
  function InstrAnd(c: Cpu): (r: Failable<Cpu>)
    requires Fetched(c)
    ensures !r.Err? && (r.Ok? ==> Valid(r.value))
  {
    var dr := Utils.Bits(c.ir, 11, 9);
    DrRange(c.ir);
    var src1 := Utils.Bits(c.ir, 8, 6);
    BaseRange(c.ir);
    AndStep(c, dr, src1, SourceOperand(c))
  }

  /** The fields `instr_and` reads. */
  lemma InstrAndFields(c: Cpu)
    requires Fetched(c)
    ensures InstrAnd(c) == AndStep(c, RegAt(c.ir, 9), RegAt(c.ir, 6), Operand2(c))
  {
    Powers();
    RegField(c.ir, 9);
    RegField(c.ir, 6);
  }

  /** LDR on its fields: DR := mem[BaseR + offset]; the addition panics
      outside `i32`. */
  function LdrStep(c: Cpu, dr: int, base: int, offset: int): (r: Failable<Cpu>)
    requires Fetched(c) && 0 <= dr < NUM_REGISTERS && 0 <= base < NUM_REGISTERS && -32 <= offset < 64
    ensures !r.Err? && (r.Ok? ==> Valid(r.value))
    ensures var a := c.reg.vals[base] + offset;
            && (!IsI32(a) ==> r == Failable.Panic(ArithmeticOverflow))
            && (IsI32(a) && !(0 <= a < NUM_MEMORY_ADDRESSES) ==> r == Failable.Panic(IndexOutOfBounds))
            && (0 <= a < NUM_MEMORY_ADDRESSES ==> r.Ok? && WroteDr(c, r.value, dr, c.mem.vals[a]) && Valid(r.value))
  {
    var address := c.reg.vals[base] + offset;
    if !IsI32(address) then Failable.Panic(ArithmeticOverflow)
    else LoadDr(c, dr, address)
  }

  /** `instr_ldr`: DR is bits 11..9, BaseR bits 8..6, the offset `bits_signed(5, 0)`. */
  function InstrLdr(c: Cpu): (r: Failable<Cpu>)
    requires Fetched(c)
    ensures !r.Err? && (r.Ok? ==> Valid(r.value))
  {
    var dr := Utils.Bits(c.ir, 11, 9);
    DrRange(c.ir);
    var base := Utils.Bits(c.ir, 8, 6);
    BaseRange(c.ir);
    var offset := Utils.BitsSigned(c.ir, 5, 0);
    Offset6Range(c.ir);
    LdrStep(c, dr, base, offset)
  }

  /** The fields `instr_ldr` reads. */
  lemma InstrLdrFields(c: Cpu)
    requires Fetched(c)
    ensures InstrLdr(c) == LdrStep(c, RegAt(c.ir, 9), RegAt(c.ir, 6), Offset6(c.ir))
  {
    Powers();
    RegField(c.ir, 9);
    RegField(c.ir, 6);
    Offset6Field(c.ir);
  }

  /** STR on its fields. The address is the base register's NUMBER plus the
      unsigned offset; register contents do not enter it, so it lies in 0..70. */
  function StrStep(c: Cpu, sr: int, base: int, offset: int): (r: Failable<Cpu>)
    requires Fetched(c) && 0 <= sr < NUM_REGISTERS && 0 <= base < NUM_REGISTERS && 0 <= offset < 64
    ensures 0 <= base + offset <= 70
    ensures r.Ok? && WroteMem(c, r.value, base + offset, c.reg.vals[sr]) && Valid(r.value)
  {
    WriteMem(c, base + offset, c.reg.vals[sr])
  }

  /** `instr_str`: SR is bits 11..9, the base number bits 8..6, the offset
      `bits(5, 0)`, unsigned. */
  function InstrStr(c: Cpu): (r: Failable<Cpu>)
    requires Fetched(c)
    ensures !r.Err? && (r.Ok? ==> Valid(r.value))
  {
    var dr := Utils.Bits(c.ir, 11, 9);
    DrRange(c.ir);
    var base := Utils.Bits(c.ir, 8, 6);
    BaseRange(c.ir);
    var offset := Utils.Bits(c.ir, 5, 0);
    UnsignedOffset6Range(c.ir);
    StrStep(c, dr, base, offset)
  }

  /** The fields `instr_str` reads. */
  lemma InstrStrFields(c: Cpu)
    requires Fetched(c)
    ensures InstrStr(c) == StrStep(c, RegAt(c.ir, 9), RegAt(c.ir, 6), Field(c.ir, 5, 0))
  {
    Powers();
    RegField(c.ir, 9);
    RegField(c.ir, 6);
  }

  /** NOT on its fields: DR := !SR, which is -SR - 1. */
  function NotStep(c: Cpu, dr: int, sr: int): (r: Failable<Cpu>)
    requires Fetched(c) && 0 <= dr < NUM_REGISTERS && 0 <= sr < NUM_REGISTERS
    ensures r.Ok? && Valid(r.value)
    ensures WroteDr(c, r.value, dr, -c.reg.vals[sr] - 1)
  {
    Ok(SetDr(c, dr, Not(c.reg.vals[sr])))
  }

  /** `instr_not`: DR is bits 11..9, SR bits 8..6. */
  function InstrNot(c: Cpu): (r: Failable<Cpu>)
    requires Fetched(c)
    ensures !r.Err? && (r.Ok? ==> Valid(r.value))
  {
    var dr := Utils.Bits(c.ir, 11, 9);
    DrRange(c.ir);
    var src := Utils.Bits(c.ir, 8, 6);
    BaseRange(c.ir);
    NotStep(c, dr, src)
  }

  /** The fields `instr_not` reads. */
  lemma InstrNotFields(c: Cpu)
    requires Fetched(c)
    ensures InstrNot(c) == NotStep(c, RegAt(c.ir, 9), RegAt(c.ir, 6))
  {
    Powers();
    RegField(c.ir, 9);
    RegField(c.ir, 6);
  }

  /** LDI on its fields: DR := mem[mem[pc + offset]]; either index may be out
      of range. */
  function LdiStep(c: Cpu, dr: int, pcOffset: int): (r: Failable<Cpu>)
    requires Fetched(c) && 0 <= dr < NUM_REGISTERS && -256 <= pcOffset < 512
    ensures !r.Err? && (r.Ok? ==> Valid(r.value))
    ensures var a := c.pc + pcOffset;
            && (!(0 <= a < NUM_MEMORY_ADDRESSES) ==> r == Failable.Panic(IndexOutOfBounds))
            && (0 <= a < NUM_MEMORY_ADDRESSES && !(0 <= c.mem.vals[a] < NUM_MEMORY_ADDRESSES) ==>
                  r == Failable.Panic(IndexOutOfBounds))
            && (0 <= a < NUM_MEMORY_ADDRESSES && 0 <= c.mem.vals[a] < NUM_MEMORY_ADDRESSES ==>
                  r.Ok? && WroteDr(c, r.value, dr, c.mem.vals[c.mem.vals[a]]) && Valid(r.value))
  {
    match ReadMem(c, c.pc + pcOffset)
    case Ok(target) => LoadDr(c, dr, target)
    case Err(e) => Err(e)
    case Panic(k) => Failable.Panic(k)
  }

  /** `instr_ldi`: DR is bits 11..9, the offset `bits_signed(8, 0)`. */
  function InstrLdi(c: Cpu): (r: Failable<Cpu>)
    requires Fetched(c)
    ensures !r.Err? && (r.Ok? ==> Valid(r.value))
  {
    var dr := Utils.Bits(c.ir, 11, 9);
    DrRange(c.ir);
    var pcOffset := Utils.BitsSigned(c.ir, 8, 0);
    Offset9Range(c.ir);
    LdiStep(c, dr, pcOffset)
  }

  /** The fields `instr_ldi` reads. */
  lemma InstrLdiFields(c: Cpu)
    requires Fetched(c)
    ensures InstrLdi(c) == LdiStep(c, RegAt(c.ir, 9), PcOffset9(c.ir))
  {
    Powers();
    RegField(c.ir, 9);
    Offset9Field(c.ir);
  }

  /** STI on its fields: mem[mem[pc + offset]] := SR. */
  function StiStep(c: Cpu, sr: int, pcOffset: int): (r: Failable<Cpu>)
    requires Fetched(c) && 0 <= sr < NUM_REGISTERS && -256 <= pcOffset < 512
    ensures !r.Err? && (r.Ok? ==> Valid(r.value))
    ensures var a := c.pc + pcOffset;
            && (!(0 <= a < NUM_MEMORY_ADDRESSES) ==> r == Failable.Panic(IndexOutOfBounds))
            && (0 <= a < NUM_MEMORY_ADDRESSES && !(0 <= c.mem.vals[a] < NUM_MEMORY_ADDRESSES) ==>
                  r == Failable.Panic(IndexOutOfBounds))
            && (0 <= a < NUM_MEMORY_ADDRESSES && 0 <= c.mem.vals[a] < NUM_MEMORY_ADDRESSES ==>
                  r.Ok? && WroteMem(c, r.value, c.mem.vals[a], c.reg.vals[sr]) && Valid(r.value))
  {
    match ReadMem(c, c.pc + pcOffset)
    case Ok(dest) => WriteMem(c, dest, c.reg.vals[sr])
    case Err(e) => Err(e)
    case Panic(k) => Failable.Panic(k)
  }

  /** `instr_sti`: SR is bits 11..9, the offset `bits_signed(8, 0)`. */
  function InstrSti(c: Cpu): (r: Failable<Cpu>)
    requires Fetched(c)
    ensures !r.Err? && (r.Ok? ==> Valid(r.value))
  {
    var src := Utils.Bits(c.ir, 11, 9);
    DrRange(c.ir);
    var pcOffset := Utils.BitsSigned(c.ir, 8, 0);
    Offset9Range(c.ir);
    StiStep(c, src, pcOffset)
  }

  /** The fields `instr_sti` reads. */
  lemma InstrStiFields(c: Cpu)
    requires Fetched(c)
    ensures InstrSti(c) == StiStep(c, RegAt(c.ir, 9), PcOffset9(c.ir))
  {
    Powers();
    RegField(c.ir, 9);
    Offset9Field(c.ir);
  }

  /** JMP on its field: pc := BaseR; nothing else changes. */
  function JmpStep(c: Cpu, base: int): (r: Failable<Cpu>)
    requires Fetched(c) && 0 <= base < NUM_REGISTERS
    ensures r.Ok? && Valid(r.value)
    ensures r.value.pc == c.reg.vals[base]
    ensures r.value.mem == c.mem && r.value.reg == c.reg && r.value.cc == c.cc
    ensures r.value.ir == c.ir && r.value.running == c.running
  {
    Ok(c.(pc := c.reg.vals[base]))
  }

  /** `instr_jmp`: BaseR is bits 8..6. */
  function InstrJmp(c: Cpu): (r: Failable<Cpu>)
    requires Fetched(c)
    ensures !r.Err? && (r.Ok? ==> Valid(r.value))
  {
    var base := Utils.Bits(c.ir, 8, 6);
    BaseRange(c.ir);
    JmpStep(c, base)
  }

  /** The fields `instr_jmp` reads. */
  lemma InstrJmpFields(c: Cpu)
    requires Fetched(c)
    ensures InstrJmp(c) == JmpStep(c, RegAt(c.ir, 6))
  {
    Powers();
    RegField(c.ir, 6);
  }

  /** LEA on its fields: DR := pc + offset, with the condition code set from it. */
  function LeaStep(c: Cpu, dr: int, pcOffset: int): (r: Failable<Cpu>)
    requires Fetched(c) && 0 <= dr < NUM_REGISTERS && -256 <= pcOffset < 512
    ensures r.Ok? && Valid(r.value)
    ensures WroteDr(c, r.value, dr, c.pc + pcOffset)
  {
    Ok(SetDr(c, dr, c.pc + pcOffset))
  }

  /** `instr_lea`: DR is bits 11..9, the offset `bits_signed(8, 0)`. */
  function InstrLea(c: Cpu): (r: Failable<Cpu>)
    requires Fetched(c)
    ensures !r.Err? && (r.Ok? ==> Valid(r.value))
  {
    var dr := Utils.Bits(c.ir, 11, 9);
    DrRange(c.ir);
    var pcOffset := Utils.BitsSigned(c.ir, 8, 0);
    Offset9Range(c.ir);
    LeaStep(c, dr, pcOffset)
  }

  /** The fields `instr_lea` reads. */
  lemma InstrLeaFields(c: Cpu)
    requires Fetched(c)
    ensures InstrLea(c) == LeaStep(c, RegAt(c.ir, 9), PcOffset9(c.ir))
  {
    Powers();
    RegField(c.ir, 9);
    Offset9Field(c.ir);
  }

  // ---------------------------------------------------------------------------
  // Traps

  /** The trap codes `instr_trap` serves: GETC, OUT, PUTS, IN and HALT. */
  predicate KnownTrap(code: int) {
    code == 0x20 || code == 0x21 || code == 0x22 || code == 0x23 || code == 0x25
  }

  /** `trap_getchar`: R0 := the next input byte, without touching the condition
      code. At the end of input the `unwrap` panics. */
  function TrapGetchar(c: Cpu, io: Console): (r: Run)
    requires Valid(c) && ValidConsole(io)
    ensures io.input == [] ==> r == Run(c, io, Panicked(UnwrapFailed))
    ensures io.input != [] ==> r.status == Done && Valid(r.cpu) && ValidConsole(r.console)
    ensures io.input != [] ==> r.cpu.reg.vals == c.reg.vals[0 := io.input[0]]
    ensures io.input != [] ==> r.cpu.mem == c.mem && r.cpu.cc == c.cc && r.cpu.pc == c.pc
                               && r.cpu.ir == c.ir && r.cpu.running == c.running
    ensures io.input != [] ==> r.console.input == io.input[1..] && r.console.output == io.output
  {
    if io.input == [] then Run(c, io, Panicked(UnwrapFailed))
    else
      var inputChar := io.input[0];
      Run(c.(reg := NiceVector.IndexMut(c.reg, 0, inputChar).value), io.(input := io.input[1..]), Done)
  }

  /** `trap_out`: prints R0 cast to `u8`, its low eight bits. */
  function TrapOut(c: Cpu, io: Console): (r: Run)
    requires Valid(c)
    ensures r.cpu == c && r.status == Done && r.console.input == io.input
    ensures r.console.output == io.output + [Char(Field(c.reg.vals[0], 7, 0))]
  {
    Powers();
    Run(c, io.(output := io.output + [Char(c.reg.vals[0] % 256)]), Done)
  }

  /** The cells `trap_puts` prints, from `addr` on, wrapping after 0xFFFF, up to
      the first zero cell; `None` when none of the next `steps` cells is zero. */
  function PutsScan(mem: seq<int>, addr: int, steps: nat): (r: Option<seq<int>>)
    requires |mem| == NUM_MEMORY_ADDRESSES && 0 <= addr < NUM_MEMORY_ADDRESSES
    ensures r.None? <==> forall j | 0 <= j < steps :: At(mem, addr, j) != 0
    ensures r.Some? ==> |r.value| < steps && At(mem, addr, |r.value|) == 0
    ensures r.Some? ==> forall j | 0 <= j < |r.value| :: r.value[j] == At(mem, addr, j) && r.value[j] != 0
    decreases steps
  {
    if steps == 0 then None
    else if mem[addr] == 0 then
      assert At(mem, addr, 0) == mem[addr];
      Some([])
    else
      var next := (addr + 1) % NUM_MEMORY_ADDRESSES;
      var rest := PutsScan(mem, next, steps - 1);
      PutsScanStep(mem, addr, steps, rest);
      match rest
      case None => None
      case Some(ws) => Some([mem[addr]] + ws)
  }

  /** One step of the scan: the promise about the cells after `addr`, moved one
      place on, gives the promise about the cells from `addr`. */
  lemma PutsScanStep(mem: seq<int>, addr: int, steps: nat, rest: Option<seq<int>>)
    requires |mem| == NUM_MEMORY_ADDRESSES && 0 <= addr < NUM_MEMORY_ADDRESSES && steps > 0
    requires mem[addr] != 0
    requires var next := (addr + 1) % NUM_MEMORY_ADDRESSES;
             && (rest.None? <==> forall j | 0 <= j < steps - 1 :: At(mem, next, j) != 0)
             && (rest.Some? ==> |rest.value| < steps - 1 && At(mem, next, |rest.value|) == 0)
             && (rest.Some? ==> forall j | 0 <= j < |rest.value| ::
                                  rest.value[j] == At(mem, next, j) && rest.value[j] != 0)
    ensures rest.None? <==> forall j | 0 <= j < steps :: At(mem, addr, j) != 0
    ensures rest.Some? ==> At(mem, addr, |rest.value| + 1) == 0
    ensures rest.Some? ==> forall j | 0 <= j < |rest.value| + 1 ::
                             ([mem[addr]] + rest.value)[j] == At(mem, addr, j) && At(mem, addr, j) != 0
  {
    var next := (addr + 1) % NUM_MEMORY_ADDRESSES;
    assert At(mem, addr, 0) == mem[addr];
    forall j | 0 <= j < steps - 1 ensures At(mem, next, j) == At(mem, addr, j + 1) {
      AtNext(mem, addr, j);
    }
    if rest.Some? {
      AtNext(mem, addr, |rest.value|);
      forall j | 0 <= j < |rest.value| + 1
        ensures ([mem[addr]] + rest.value)[j] == At(mem, addr, j) && At(mem, addr, j) != 0
      {
        if j > 0 {
          AtNext(mem, addr, j - 1);
        }
      }
    }
    if forall j | 0 <= j < steps - 1 :: At(mem, next, j) != 0 {
      forall j | 0 <= j < steps ensures At(mem, addr, j) != 0 {
        if j > 0 {
          AtNext(mem, addr, j - 1);
        }
      }
    }
  }

  /** The output of PUTS: each printed cell as a decimal number. */
  function Decimals(ws: seq<int>): (r: seq<Emit>)
    ensures |r| == |ws| && forall j | 0 <= j < |ws| :: r[j] == Decimal(ws[j])
  {
    seq(|ws|, j requires 0 <= j < |ws| => Decimal(ws[j]))
  }

  /** No cell of memory, read around from `start`, is zero. */
  predicate NoZeroFrom(mem: seq<int>, start: int)
    requires |mem| == NUM_MEMORY_ADDRESSES && 0 <= start < NUM_MEMORY_ADDRESSES
  {
    forall j | 0 <= j < NUM_MEMORY_ADDRESSES :: At(mem, start, j) != 0
  }

  /** `out` is `before` followed by one decimal number for each cell read
      around from `start` up to, and not including, the first zero cell. */
  predicate PrintedUpToZero(mem: seq<int>, start: int, before: seq<Emit>, out: seq<Emit>)
    requires |mem| == NUM_MEMORY_ADDRESSES && 0 <= start < NUM_MEMORY_ADDRESSES
  {
    && |before| <= |out| < |before| + NUM_MEMORY_ADDRESSES
    && out[..|before|] == before
    && At(mem, start, |out| - |before|) == 0
    && forall j | 0 <= j < |out| - |before| ::
         out[|before| + j] == Decimal(At(mem, start, j)) && At(mem, start, j) != 0
  }

  /** `trap_puts`: prints every cell from R0 cast to `u16` up to the first zero
      cell, each as a decimal number. When no cell of memory is zero the loop
      never ends. */
  function TrapPuts(c: Cpu, io: Console): (r: Run)
    requires Valid(c)
    ensures r.cpu == c && r.console.input == io.input
    ensures r.status == Hang <==> NoZeroFrom(c.mem.vals, c.reg.vals[0] % NUM_MEMORY_ADDRESSES)
    ensures r.status != Hang ==> r.status == Done
    ensures r.status == Done ==>
              PrintedUpToZero(c.mem.vals, c.reg.vals[0] % NUM_MEMORY_ADDRESSES, io.output, r.console.output)
  {
    var tempPc := c.reg.vals[0] % NUM_MEMORY_ADDRESSES;
    match PutsScan(c.mem.vals, tempPc, NUM_MEMORY_ADDRESSES)
    case None => Run(c, io, Hang)
    case Some(ws) =>
      PutsOutput(c.mem.vals, tempPc, ws, io.output);
      Run(c, io.(output := io.output + Decimals(ws)), Done)
  }

  /** The output PUTS appends for the cells `ws` the scan found from `start`. */
  lemma PutsOutput(mem: seq<int>, start: int, ws: seq<int>, before: seq<Emit>)
    requires |mem| == NUM_MEMORY_ADDRESSES && 0 <= start < NUM_MEMORY_ADDRESSES
    requires |ws| < NUM_MEMORY_ADDRESSES && At(mem, start, |ws|) == 0
    requires forall j | 0 <= j < |ws| :: ws[j] == At(mem, start, j) && ws[j] != 0
    ensures PrintedUpToZero(mem, start, before, before + Decimals(ws))
  {
    var out := before + Decimals(ws);
    assert out[..|before|] == before;
    forall j | 0 <= j < |out| - |before|
      ensures out[|before| + j] == Decimal(At(mem, start, j)) && At(mem, start, j) != 0
    {
      assert out[|before| + j] == Decimals(ws)[j];
    }
  }

  /** `trap_input`: the prompt is printed, then R0 := the next input byte, with
      the condition code untouched; at the end of input the `unwrap` panics. */
  function TrapInput(c: Cpu, io: Console): (r: Run)
    requires Valid(c) && ValidConsole(io)
    ensures io.input == [] ==> r == Run(c, io, Panicked(UnwrapFailed))
    ensures io.input != [] ==> r.status == Done && Valid(r.cpu) && ValidConsole(r.console)
    ensures io.input != [] ==> r.cpu.reg.vals == c.reg.vals[0 := io.input[0]]
    ensures io.input != [] ==> r.cpu.mem == c.mem && r.cpu.cc == c.cc && r.cpu.pc == c.pc
                               && r.cpu.ir == c.ir && r.cpu.running == c.running
    ensures io.input != [] ==> r.console.input == io.input[1..] && r.console.output == io.output
  {
    TrapGetchar(c, io)
  }

  /** `trap_halt`: only `running` changes. */
  function TrapHalt(c: Cpu, io: Console): (r: Run)
    requires Valid(c)
    ensures r.status == Done && r.console == io && Valid(r.cpu)
    ensures r.cpu == c.(running := false)
  {
    Run(c.(running := false), io, Done)
  }

  /** `instr_trap`: dispatch on the low eight bits. */
  function InstrTrap(c: Cpu, io: Console): (r: Run)
    requires Fetched(c) && ValidConsole(io)
    ensures var code := Field(c.ir, 7, 0);
            && (!KnownTrap(code) ==> r == Run(c, io, Error(UnsupportedTrapCode(code))))
            && (code == 0x25 ==> r == Run(c.(running := false), io, Done))
            && (code == 0x20 || code == 0x23 ==> r == TrapGetchar(c, io))
            && (code == 0x21 ==> r == TrapOut(c, io))
            && (code == 0x22 ==> r == TrapPuts(c, io))
    ensures r.status == Done ==> Valid(r.cpu) && ValidConsole(r.console)
    ensures !r.status.Done? ==> r.cpu == c
  {
    var trapCode := Utils.Bits(c.ir, 7, 0);
    if trapCode == 0x20 then TrapGetchar(c, io)
    else if trapCode == 0x21 then TrapOut(c, io)
    else if trapCode == 0x22 then TrapPuts(c, io)
    else if trapCode == 0x23 then TrapInput(c, io)
    else if trapCode == 0x25 then TrapHalt(c, io)
    else Run(c, io, Error(UnsupportedTrapCode(trapCode)))
  }

  // ---------------------------------------------------------------------------
  // Dispatch

  /** `Operation::execute`. RTI (`instr_rti`) and the unused opcode 13
      (`instr_err`) fail without changing anything. */
  function Execute(op: Operation, c: Cpu, io: Console): (r: Run)
    requires Fetched(c) && ValidConsole(io)
    ensures op == RTI ==> r == Run(c, io, Error(RtiNotSupported))
    ensures op == ERR ==> r == Run(c, io, Error(UnusedOpCode))
    ensures op != TRAP ==> r.console == io
    ensures r.status.Error? ==> (op == RTI || op == ERR || op == TRAP) && r.cpu == c && r.console == io
    ensures !r.status.Done? ==> r.cpu == c
    ensures r.status == Done ==> Valid(r.cpu) && ValidConsole(r.console)
  {
    match op
    case BR => Finish(InstrBr(c), c, io)
    case ADD => Finish(InstrAdd(c), c, io)
    case LD => Finish(InstrLd(c), c, io)
    case ST => Finish(InstrSt(c), c, io)
    case JSR => Finish(InstrJsr(c), c, io)
    case AND => Finish(InstrAnd(c), c, io)
    case LDR => Finish(InstrLdr(c), c, io)
    case STR => Finish(InstrStr(c), c, io)
    case RTI => Run(c, io, Error(RtiNotSupported))
    case NOT => Finish(InstrNot(c), c, io)
    case LDI => Finish(InstrLdi(c), c, io)
    case STI => Finish(InstrSti(c), c, io)
    case JMP => Finish(InstrJmp(c), c, io)
    case ERR => Run(c, io, Error(UnusedOpCode))
    case LEA => Finish(InstrLea(c), c, io)
    case TRAP => InstrTrap(c, io)
  }

  /** The outcome of a handler that does not touch the console, as a step. */
  function Finish(step: Failable<Cpu>, c: Cpu, io: Console): Run {
    match step
    case Ok(d) => Run(d, io, Done)
    case Err(e) => Run(c, io, Error(e))
    case Panic(k) => Run(c, io, Panicked(k))
  }
}
