/** Cycles of the C simulator on particular instruction words, from any valid
    running state whose `pc` points at the word, and two STR words run through
    the STR handler alone. Memory holds `short`s, so a word with bit 15 set is
    stored as the word minus 2^16. */
module CScenarios {
  import opened Bitwise
  import opened Optional
  import opened CWords
  import opened CSimulator
  import opened CCycle

  /** The fields of the words below. */
  lemma HaltWord(w: int)
    requires w == 0xF025 - 0x1_0000
    ensures Field(w, 15, 12) == 15 && Field(w, 7, 0) == 0x25
  {
    Powers();
    assert Field(w, 15, 12) == 15;
    assert Field(w, 7, 0) == 0x25;
  }

  lemma UnknownTrapWord(w: int)
    requires w == 0xF099 - 0x1_0000
    ensures Field(w, 15, 12) == 15 && Field(w, 7, 0) == 0x99
  {
    Powers();
    assert Field(w, 15, 12) == 15;
    assert Field(w, 7, 0) == 0x99;
  }

  /** BRn #3 */
  lemma BrnWord(w: int, cc: CondCode)
    requires w == 0x0803
    ensures Field(w, 15, 12) == 0 && (BranchTaken(cc, w) <==> cc == P)
    ensures PcOffset9(w) == 3
  {
    Powers();
    assert Bit(w, 9) == 0 && Bit(w, 10) == 0 && Bit(w, 11) == 1;
    assert Bit(w, 8) == 0;
    assert Field(w, 8, 0) == 3;
  }

  /** JSRR R7 */
  lemma JsrrR7Word(w: int)
    requires w == 0x41C0
    ensures Field(w, 15, 12) == 4 && Bit(w, 11) == 0 && RegAt(w, 6) == 7
  {
    Powers();
    assert Field(w, 8, 6) == 7;
  }

  /** STR R0, R1, #2 */
  lemma StrWord(w: int)
    requires w == 0x7042
    ensures Field(w, 15, 12) == 7 && RegAt(w, 9) == 0 && RegAt(w, 6) == 1 && Offset6(w) == 2
  {
    Powers();
    assert Field(w, 8, 6) == 1;
    assert Bit(w, 5) == 0;
    assert Field(w, 5, 0) == 2;
  }

  /** STR R0, R0, #-1 */
  lemma StrBelowZeroWord(w: int)
    requires w == 0x703F
    ensures Field(w, 15, 12) == 7 && RegAt(w, 9) == 0 && RegAt(w, 6) == 0 && Offset6(w) == -1
  {
    Powers();
    assert Field(w, 8, 6) == 0;
    assert Bit(w, 5) == 1;
    assert Field(w, 5, 0) == 63;
  }

  /** ADD R1, R1, #1 */
  lemma AddImmediateWord(w: int)
    requires w == 0x1261
    ensures Field(w, 15, 12) == 1 && RegAt(w, 9) == 1 && RegAt(w, 6) == 1
    ensures Bit(w, 5) == 1 && Imm5(w) == 1
  {
    Powers();
    assert Field(w, 11, 9) == 1;
    assert Field(w, 8, 6) == 1;
    assert Field(w, 4, 0) == 1;
  }

  lemma ExecuteTrap(f: Cpu, io: Io)
    requires Valid(f) && ValidIo(io)
    ensures Execute(15, f, io) == InstrTrap(f, io)
  {
  }

  lemma ExecuteBranch(f: Cpu, io: Io)
    requires Valid(f) && ValidIo(io)
    ensures Execute(0, f, io) == Next(InstrBr(f), io)
  {
  }

  /** A cycle on a TRAP word runs the trap handler on the fetched state. */
  lemma TrapCycle(c: Cpu, io: Io)
    requires Valid(c) && ValidIo(io) && c.running && Field(c.mem[c.pc], 15, 12) == 15
    ensures OneInstructionCycle(c, io) == InstrTrap(Fetch(c), io)
  {
    CycleExecutes(c, io, 15);
    ExecuteTrap(Fetch(c), io);
  }

  /** A cycle on a BR word runs the branch on the fetched state. */
  lemma BrCycle(c: Cpu, io: Io)
    requires Valid(c) && ValidIo(io) && c.running && Field(c.mem[c.pc], 15, 12) == 0
    ensures OneInstructionCycle(c, io) == Next(InstrBr(Fetch(c)), io)
  {
    CycleExecutes(c, io, 0);
    ExecuteBranch(Fetch(c), io);
  }

  /** HALT sets the code to 'P' and stops the machine. */
  lemma HaltStopsTheMachine(c: Cpu, io: Io)
    requires Valid(c) && ValidIo(io) && c.running && c.mem[c.pc] == 0xF025 - 0x1_0000
    ensures OneInstructionCycle(c, io) == Next(Fetch(c).(cc := P, running := false), io)
  {
    HaltWord(c.mem[c.pc]);
    TrapCycle(c, io);
    HaltHandler(Fetch(c), io);
  }

  /** A run of any positive length stops right after a HALT. */
  lemma HaltEndsTheRun(c: Cpu, io: Io, n: nat)
    requires Valid(c) && ValidIo(io) && c.running && c.mem[c.pc] == 0xF025 - 0x1_0000 && n > 0
    ensures Run(CycleStep, c, io, n) == Next(Fetch(c).(cc := P, running := false), io)
  {
    HaltStopsTheMachine(c, io);
    assert CycleStep(c, io) == OneInstructionCycle(c, io);
    RunStopsAfterCycle(CycleStep, c, io, n);
  }

  lemma HaltHandler(f: Cpu, io: Io)
    requires Valid(f) && ValidIo(io) && f.ir == 0xF025 - 0x1_0000
    ensures InstrTrap(f, io) == Next(f.(cc := P, running := false), io)
  {
    HaltWord(f.ir);
    TrapDispatch(f, io);
  }

  /** An unknown trap code is not an error here: it stops the machine and
      leaves the code as it was. */
  lemma UnknownTrapStops(c: Cpu, io: Io)
    requires Valid(c) && ValidIo(io) && c.running && c.mem[c.pc] == 0xF099 - 0x1_0000
    ensures OneInstructionCycle(c, io) == Next(Fetch(c).(running := false), io)
  {
    UnknownTrapWord(c.mem[c.pc]);
    TrapCycle(c, io);
    UnknownTrapHandler(Fetch(c), io);
  }

  lemma UnknownTrapHandler(f: Cpu, io: Io)
    requires Valid(f) && ValidIo(io) && f.ir == 0xF099 - 0x1_0000
    ensures InstrTrap(f, io) == Next(f.(running := false), io)
  {
    UnknownTrapWord(f.ir);
    TrapDispatch(f, io);
  }

  /** BRn (the branch field 100, which the source labels "N (< 0)") branches when
      the code is 'P', because 'P' is the flag numbered 4. */
  lemma BrnBranchesOnPositive(c: Cpu, io: Io)
    requires Valid(c) && ValidIo(io) && c.running && c.mem[c.pc] == 0x0803
    ensures var f := Fetch(c);
            OneInstructionCycle(c, io)
            == Next(f.(pc := if c.cc == P then ToAddress(f.pc + 3) else f.pc), io)
  {
    var f := Fetch(c);
    BrnWord(c.mem[c.pc], c.cc);
    BrCycle(c, io);
    BrnHandler(f);
    assert f.cc == c.cc;
  }

  lemma BrnHandler(f: Cpu)
    requires Valid(f) && f.ir == 0x0803
    ensures InstrBr(f) == f.(pc := if f.cc == P then ToAddress(f.pc + 3) else f.pc)
  {
    BrnWord(f.ir, f.cc);
    BranchSemantics(f);
  }

  /** JSRR R7 saves the return address in R7 and jumps to it: `pc` stays at the
      instruction after it. */
  lemma JsrrR7StaysPut(c: Cpu, io: Io)
    requires Valid(c) && ValidIo(io) && c.running && c.mem[c.pc] == 0x41C0
    ensures var f := Fetch(c);
            OneInstructionCycle(c, io) == Next(f.(reg := c.reg[7 := ToShort(f.pc)]), io)
  {
    JsrrR7Word(c.mem[c.pc]);
    CycleDispatches(c, io);
    InstrJsrFields(Fetch(c));
  }

  /** STR adds the offset to the base register's number, not to its contents:
      STR R0, R1, #2 writes cell 3 whatever R1 holds. */
  lemma StrUsesRegisterNumber(f: Cpu)
    requires Valid(f) && f.ir == 0x7042
    ensures var r := InstrStr(f); r.Some? && WroteMem(f, r.value, 3, f.reg[0])
  {
    StrWord(f.ir);
    InstrStrFields(f);
  }

  /** STR R0, R0, #-1 indexes the cell before memory: undefined behaviour. */
  lemma StrBelowMemoryIsUndefined(f: Cpu)
    requires Valid(f) && f.ir == 0x703F
    ensures InstrStr(f) == None
  {
    StrBelowZeroWord(f.ir);
    InstrStrFields(f);
  }

  /** ADD R1, R1, #1 adds one, wrapping from 0x7FFF to -0x8000: the immediate is
      sign-extended from bit 4. */
  lemma AddImmediateOneAddsOne(c: Cpu, io: Io)
    requires Valid(c) && ValidIo(io) && c.running && c.mem[c.pc] == 0x1261
    ensures var r := OneInstructionCycle(c, io);
            && r.Next? && r.io == io && WroteDr(Fetch(c), r.cpu, 1, ToShort(c.reg[1] + 1))
  {
    var f := Fetch(c);
    AddImmediateWord(c.mem[c.pc]);
    CycleExecutes(c, io, 1);
    AddImmediateHandler(f);
    assert f.reg == c.reg;
  }

  lemma AddImmediateHandler(f: Cpu)
    requires Valid(f) && f.ir == 0x1261
    ensures WroteDr(f, InstrAdd(f), 1, ToShort(f.reg[1] + 1))
  {
    AddImmediateWord(f.ir);
    InstrAddFields(f);
    assert Operand2(f) == 1;
  }
}
