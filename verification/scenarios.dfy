/** Whole cycles of the Rust engine on particular instruction words, from any
    valid running state whose `pc` points at the word. */
module Scenarios {
  import opened Bitwise
  import opened Errors
  import opened Machine
  import opened Operations
  import opened Cycles

  /** The fields of the words below. */
  lemma HaltWord(w: int)
    requires w == 0xF025
    ensures Field(w, 15, 12) == 15 && Field(w, 7, 0) == 0x25
  {
    Powers();
    assert Field(w, 15, 12) == 15;
    assert Field(w, 7, 0) == 0x25;
  }

  lemma UnknownTrapWord(w: int)
    requires w == 0xF099
    ensures Field(w, 15, 12) == 15 && Field(w, 7, 0) == 0x99
  {
    Powers();
    assert Field(w, 15, 12) == 15;
    assert Field(w, 7, 0) == 0x99;
  }

  lemma RtiWord(w: int)
    requires w == 0x8000
    ensures Field(w, 15, 12) == 8
  {
    Powers();
  }

  /** ADD R1, R1, #1 */
  lemma AddImmediateWord(w: int)
    requires w == 0x1261
    ensures Field(w, 15, 12) == 1 && RegAt(w, 9) == 1 && RegAt(w, 6) == 1
    ensures Bit(w, 5) == 1 && Imm5(w) == -15
  {
    Powers();
    assert Field(w, 11, 9) == 1;
    assert Field(w, 8, 6) == 1;
    assert Field(w, 3, 0) == 1;
  }

  /** JSRR R7 */
  lemma JsrrR7Word(w: int)
    requires w == 0x41C0
    ensures Field(w, 15, 12) == 4 && Bit(w, 11) == 0 && RegAt(w, 6) == 7
  {
    Powers();
    assert Field(w, 8, 6) == 7;
  }

  /** HALT (TRAP x25) clears `running` and nothing else after the fetch; the run
      stops there, and the next cycle reports `CpuNotRunning`. */
  lemma HaltStopsTheMachine(c: Cpu, io: Console, n: nat)
    requires Valid(c) && ValidConsole(io) && c.running && 0 <= c.pc < NUM_MEMORY_ADDRESSES
    requires c.mem.vals[c.pc] == 0xF025
    ensures Cycle(c, io) == Run(AfterFetch(c).(running := false), io, Done)
    ensures n > 0 ==> Steps(c, io, n) == Cycle(c, io)
    ensures Cycle(Cycle(c, io).cpu, io).status == Error(CpuNotRunning)
  {
    HaltWord(c.mem.vals[c.pc]);
    CycleExecutes(c, io, TRAP);
  }

  /** An unknown trap code is an error; the fetch is not undone. */
  lemma UnknownTrapIsAnError(c: Cpu, io: Console)
    requires Valid(c) && ValidConsole(io) && c.running && 0 <= c.pc < NUM_MEMORY_ADDRESSES
    requires c.mem.vals[c.pc] == 0xF099
    ensures Cycle(c, io) == Run(AfterFetch(c), io, Error(UnsupportedTrapCode(0x99)))
  {
    UnknownTrapWord(c.mem.vals[c.pc]);
    UnknownTrapHandler(AfterFetch(c), io);
    CycleExecutes(c, io, TRAP);
  }

  lemma UnknownTrapHandler(f: Cpu, io: Console)
    requires Fetched(f) && ValidConsole(io) && f.ir == 0xF099
    ensures InstrTrap(f, io) == Run(f, io, Error(UnsupportedTrapCode(0x99)))
  {
    UnknownTrapWord(f.ir);
  }

  /** The cell at 0xFFFF is fetched and `pc` restarts at 0, which stays even
      though the instruction (RTI) fails. */
  lemma PcWrapsAndStays(c: Cpu, io: Console)
    requires Valid(c) && ValidConsole(io) && c.running && c.pc == 0xFFFF
    requires c.mem.vals[0xFFFF] == 0x8000
    ensures Cycle(c, io).status == Error(RtiNotSupported)
    ensures Cycle(c, io).cpu.pc == 0 && Cycle(c, io).cpu.ir == 0x8000
  {
    RtiWord(c.mem.vals[c.pc]);
    CycleExecutes(c, io, RTI);
  }

  /** ADD R1, R1, #1 subtracts 15: the sign test of the immediate reads the mode
      bit, so the operand is the low four bits minus 16. */
  lemma AddImmediateOneSubtractsFifteen(c: Cpu, io: Console)
    requires Valid(c) && ValidConsole(io) && c.running && 0 <= c.pc < NUM_MEMORY_ADDRESSES
    requires c.mem.vals[c.pc] == 0x1261 && IsI32(c.reg.vals[1] - 15)
    ensures Cycle(c, io).status == Done
    ensures Cycle(c, io).cpu.reg.vals == c.reg.vals[1 := c.reg.vals[1] - 15]
  {
    AddImmediateWord(c.mem.vals[c.pc]);
    CycleExecutes(c, io, ADD);
    var f := AfterFetch(c);
    InstrAddFields(f);
    assert Operand2(f) == -15;
  }

  /** JSRR R7 writes the return address to R7 and then jumps to R7: `pc` stays
      at the instruction after it. */
  lemma JsrrR7StaysPut(c: Cpu, io: Console)
    requires Valid(c) && ValidConsole(io) && c.running && 0 <= c.pc < NUM_MEMORY_ADDRESSES
    requires c.mem.vals[c.pc] == 0x41C0
    ensures Cycle(c, io).status == Done
    ensures Cycle(c, io).cpu.pc == AfterFetch(c).pc
    ensures Cycle(c, io).cpu.reg.vals == c.reg.vals[7 := AfterFetch(c).pc]
  {
    JsrrR7Word(c.mem.vals[c.pc]);
    CycleExecutes(c, io, JSR);
    InstrJsrFields(AfterFetch(c));
  }
}
