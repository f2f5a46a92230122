/** The instruction cycle of the C simulator, its multi-cycle run capped at 100
    cycles, the reset of the control unit and the two setters of its console
    (c_implementation/src/main.c). */
module CCycle {
  import opened Bitwise
  import opened Optional
  import opened CWords
  import opened CSimulator

  /** The fetch step `cpu->ir = cpu->mem[cpu->pc++]`: `pc` is an `unsigned short`,
      so it is always a memory address and 0xFFFF moves on to 0. The source's
      guard `pc > 0xffff` can never hold. */
  function Fetch(c: Cpu): (f: Cpu)
    requires Valid(c)
    ensures Valid(f)
    ensures f == c.(ir := c.mem[c.pc], pc := if c.pc == 0xFFFF then 0 else c.pc + 1)
  {
    c.(ir := c.mem[c.pc], pc := ToAddress(c.pc + 1))
  }

  /** A handler that may meet undefined behaviour, with the console unchanged. */
  function Lift(r: Option<Cpu>, io: Io): (o: Outcome)
    ensures o.Undefined? <==> r.None?
    ensures r.Some? ==> o == Next(r.value, io)
  {
    match r
    case None => Undefined
    case Some(d) => Next(d, io)
  }

  /** The `switch` on the op code. RTI (8) and the unused code 13 only print; the
      `default` branch cannot be reached by a four-bit code. */
  function Execute(opCode: int, c: Cpu, io: Io): (r: Outcome)
    requires Valid(c) && ValidIo(io)
    ensures r.Next? ==> Valid(r.cpu) && ValidIo(r.io)
    ensures opCode == 8 || opCode == 13 ==> r == Next(c, io)
  {
    match opCode
    case 0 => Next(InstrBr(c), io)
    case 1 => Next(InstrAdd(c), io)
    case 2 => Lift(InstrLd(c), io)
    case 3 => Lift(InstrSt(c), io)
    case 4 => Next(InstrJsr(c), io)
    case 5 => Next(InstrAnd(c), io)
    case 6 => Lift(InstrLdr(c), io)
    case 7 => Lift(InstrStr(c), io)
    case 8 => Next(c, io)
    case 9 => Next(InstrNot(c), io)
    case 10 => Lift(InstrLdi(c), io)
    case 11 => Lift(InstrSti(c), io)
    case 12 => Next(InstrJmp(c), io)
    case 13 => Next(c, io)
    case 14 => Next(InstrLea(c), io)
    case 15 => InstrTrap(c, io)
    case _ => Next(c, io)
  }

  /** `one_instruction_cycle`: nothing happens on a stopped machine; otherwise
      fetch and run the handler of `bits[15:12]`. */
  function OneInstructionCycle(c: Cpu, io: Io): (r: Outcome)
    requires Valid(c) && ValidIo(io)
    ensures !c.running ==> r == Next(c, io)
    ensures r.Next? ==> Valid(r.cpu) && ValidIo(r.io)
  {
    if !c.running then Next(c, io)
    else
      var f := Fetch(c);
      var opCode := BitSelectUs(f.ir, 15, 12);
      Execute(opCode, f, io)
  }

  /** A running machine runs, on the fetched state, the handler whose code is
      bits 15..12 of the cell at `pc`. */
  lemma CycleDispatches(c: Cpu, io: Io)
    requires Valid(c) && ValidIo(io) && c.running
    ensures 0 <= Field(c.mem[c.pc], 15, 12) < 16
    ensures OneInstructionCycle(c, io) == Execute(Field(c.mem[c.pc], 15, 12), Fetch(c), io)
  {
    FieldRange(c.mem[c.pc], 15, 12);
    assert Pow2(4) == 16;
  }

  /** The same with the op code named by the caller. */
  lemma CycleExecutes(c: Cpu, io: Io, opCode: int)
    requires Valid(c) && ValidIo(io) && c.running && Field(c.mem[c.pc], 15, 12) == opCode
    ensures OneInstructionCycle(c, io) == Execute(opCode, Fetch(c), io)
  {
    CycleDispatches(c, io);
  }

  // ---------------------------------------------------------------------------
  // Many cycles. The loop is stated over any cycle function, so that its
  // properties are proved apart from what one cycle does.

  /** `while (cpu->running && cycles_ran < nbr_cycles)`: at most `k` cycles,
      stopping before a cycle when the machine no longer runs; undefined
      behaviour in a cycle makes the whole run undefined. */
  function Run(cycle: (Cpu, Io) -> Outcome, c: Cpu, io: Io, k: nat): (r: Outcome)
    ensures k == 0 || !c.running ==> r == Next(c, io)
    decreases k
  {
    if k == 0 || !c.running then Next(c, io)
    else
      match cycle(c, io)
      case Undefined => Undefined
      case Next(d, io') => Run(cycle, d, io', k - 1)
  }

  /** The run continued from an outcome. */
  function Then(cycle: (Cpu, Io) -> Outcome, o: Outcome, k: nat): Outcome {
    match o
    case Undefined => Undefined
    case Next(c, io) => Run(cycle, c, io, k)
  }

  /** A run of a + b cycles is a run of a cycles followed by one of b cycles. */
  lemma {:induction false} RunSplit(cycle: (Cpu, Io) -> Outcome, c: Cpu, io: Io, a: nat, b: nat)
    ensures Run(cycle, c, io, a + b) == Then(cycle, Run(cycle, c, io, a), b)
    decreases a
  {
    if a > 0 && c.running {
      match cycle(c, io)
      case Undefined =>
      case Next(d, io') =>
        RunSplit(cycle, d, io', a - 1, b);
    }
  }

  /** Once a run has stopped the machine, a larger budget changes nothing. */
  lemma RunStopsAtHalt(cycle: (Cpu, Io) -> Outcome, c: Cpu, io: Io, k: nat, j: nat)
    requires Run(cycle, c, io, k).Next? && !Run(cycle, c, io, k).cpu.running && k <= j
    ensures Run(cycle, c, io, j) == Run(cycle, c, io, k)
  {
    RunSplit(cycle, c, io, k, j - k);
  }

  /** A cycle that stops the machine ends every run that starts with it. */
  lemma RunStopsAfterCycle(cycle: (Cpu, Io) -> Outcome, c: Cpu, io: Io, k: nat)
    requires k > 0 && c.running && cycle(c, io).Next? && !cycle(c, io).cpu.running
    ensures Run(cycle, c, io, k) == cycle(c, io)
  {
  }

  /** A property of states that every defined cycle keeps is kept by the run. */
  lemma {:induction false} RunPreserves(cycle: (Cpu, Io) -> Outcome, ok: (Cpu, Io) -> bool,
                                        c: Cpu, io: Io, k: nat)
    requires ok(c, io)
    requires forall c', io' | ok(c', io') && cycle(c', io').Next? ::
               ok(cycle(c', io').cpu, cycle(c', io').io)
    ensures var r := Run(cycle, c, io, k); r.Next? ==> ok(r.cpu, r.io)
    decreases k
  {
    if k > 0 && c.running {
      match cycle(c, io)
      case Undefined =>
      case Next(d, io') =>
        RunPreserves(cycle, ok, d, io', k - 1);
    }
  }

  /** The loop of `many_instruction_cycles` over any cycle function. */
  method RunLoop(cycle: (Cpu, Io) -> Outcome, c: Cpu, io: Io, nbrCycles: nat) returns (r: Outcome)
    ensures r == Run(cycle, c, io, nbrCycles)
  {
    var cpu, console := c, io;
    var cyclesRan := 0;
    while cpu.running && cyclesRan < nbrCycles
      invariant 0 <= cyclesRan <= nbrCycles
      invariant Run(cycle, c, io, nbrCycles) == Run(cycle, cpu, console, nbrCycles - cyclesRan)
    {
      match cycle(cpu, console)
      case Undefined => return Undefined;
      case Next(d, io') =>
        cpu, console := d, io';
      cyclesRan := cyclesRan + 1;
    }
    return Next(cpu, console);
  }

  /** The states the simulator works on. */
  predicate ValidState(c: Cpu, io: Io) {
    Valid(c) && ValidIo(io)
  }

  /** `OneInstructionCycle` as a total function: every C value of `CPU` is
      valid, and a state that is not stands for none, so it is undefined. */
  function CycleStep(c: Cpu, io: Io): (r: Outcome)
    ensures ValidState(c, io) ==> r == OneInstructionCycle(c, io)
  {
    if ValidState(c, io) then OneInstructionCycle(c, io) else Undefined
  }

  /** A defined cycle leaves a valid state. */
  lemma CycleKeepsValid()
    ensures forall c, io | ValidState(c, io) && CycleStep(c, io).Next? ::
              ValidState(CycleStep(c, io).cpu, CycleStep(c, io).io)
  {
    forall c, io | ValidState(c, io) && CycleStep(c, io).Next?
      ensures ValidState(CycleStep(c, io).cpu, CycleStep(c, io).io)
    {
      var r := OneInstructionCycle(c, io);
    }
  }

  /** Every state a defined run ends in is valid. */
  lemma RunKeepsValid(c: Cpu, io: Io, k: nat)
    requires Valid(c) && ValidIo(io)
    ensures var r := Run(CycleStep, c, io, k); r.Next? ==> Valid(r.cpu) && ValidIo(r.io)
  {
    CycleKeepsValid();
    RunPreserves(CycleStep, ValidState, c, io, k);
  }

  /** `many_instruction_cycles`: nothing on a stopped machine, a count above 100
      replaced by 100, and a count of zero or less runs nothing. */
  method ManyInstructionCycles(nbrCycles: int, c: Cpu, io: Io) returns (r: Outcome)
    requires Valid(c) && ValidIo(io) && IsI32(nbrCycles)
    ensures !c.running || nbrCycles <= 0 ==> r == Next(c, io)
    ensures 0 <= nbrCycles <= 100 ==> r == Run(CycleStep, c, io, nbrCycles)
    ensures nbrCycles > 100 ==> r == Run(CycleStep, c, io, 100)
  {
    if !c.running {
      return Next(c, io);
    }
    var n := nbrCycles;
    if n > 100 {
      n := 100;
    }
    if n < 0 {
      n := 0;
    }
    r := RunLoop(CycleStep, c, io, n);
  }

  // ---------------------------------------------------------------------------
  // Reset and setters

  /** The reset of `initialize_control_unit` once the origin is read: `pc` takes
      the origin (a `Word`) as an `unsigned short`, the registers are zeroed,
      `ir` is 0, the code 'Z' and the machine runs. Memory is left as it is. */
  function InitializeControlUnit(c: Cpu, origin: int): (d: Cpu)
    requires Valid(c) && IsShort(origin)
    ensures Valid(d) && d.mem == c.mem && d.running
    ensures IsAddress(d.pc) && (d.pc - origin) % WORD_MODULUS == 0
    ensures d.ir == 0 && d.cc == Z && |d.reg| == NREG
    ensures forall i | 0 <= i < NREG :: d.reg[i] == 0
  {
    c.(pc := ToAddress(origin), ir := 0, cc := Z, running := true, reg := seq(NREG, _ => 0))
  }

  /** `set_address_value`: an `Address` is always inside memory, so the cell is
      always written; nothing else changes, the code included. */
  function SetAddressValue(c: Cpu, memAddress: int, value: int): (d: Cpu)
    requires Valid(c) && IsAddress(memAddress) && IsShort(value)
    ensures Valid(d) && WroteMem(c, d, memAddress, value)
  {
    StoreAt(c, memAddress, value)
  }

  /** `set_register_value`: register numbers 0..7 are written, any other number
      changes nothing; the code is never touched. */
  function SetRegisterValue(c: Cpu, regNum: int, value: int): (d: Cpu)
    requires Valid(c) && IsAddress(regNum) && IsShort(value)
    ensures Valid(d) && d.mem == c.mem && d.pc == c.pc && d.ir == c.ir
    ensures d.running == c.running && d.cc == c.cc
    ensures regNum < NREG ==> |d.reg| == NREG && d.reg[regNum] == value
    ensures forall i | 0 <= i < NREG && i != regNum :: d.reg[i] == c.reg[i]
  {
    if regNum < NREG then c.(reg := c.reg[regNum := value]) else c
  }
}
