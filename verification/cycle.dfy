/** The instruction cycle of the Rust engine and the multi-cycle run
    (rust_implementation/src/cpu.rs): fetch `mem[pc]` into `ir`, move `pc` on
    with a reset to 0 past 0xFFFF, decode bits 15..12 and execute. */
module Cycles {
  import opened Bitwise
  import opened Errors
  import Utils
  import NiceVector
  import opened Machine
  import opened Operations

  /** The state after the fetch step, as a reference: `ir` is the cell at `pc`
      and `pc` moves on by one, modulo the size of memory. */
  function AfterFetch(c: Cpu): Cpu
    requires Valid(c) && 0 <= c.pc < NUM_MEMORY_ADDRESSES
  {
    c.(ir := c.mem.vals[c.pc], pc := (c.pc + 1) % NUM_MEMORY_ADDRESSES)
  }

  /** The fetch step: `self.ir = self.mem[self.pc]`, which panics when `pc` is
      not a memory address, then `self.pc += 1` with the reset to 0. */
  function Fetch(c: Cpu): (r: Failable<Cpu>)
    requires Valid(c)
    ensures !r.Err?
    ensures r.Panic? <==> !(0 <= c.pc < NUM_MEMORY_ADDRESSES)
    ensures r.Panic? ==> r.kind == IndexOutOfBounds
    ensures r.Ok? ==> Fetched(r.value) && r.value == AfterFetch(c)
  {
    match NiceVector.Index(c.mem, c.pc)
    case None => Failable.Panic(IndexOutOfBounds)
    case Some(ir) =>
      var pc := c.pc + 1;
      Ok(c.(ir := ir, pc := if pc > 0xffff then 0 else pc))
  }

  /** The decode step: `Operation::from_code(self.ir.bits(15, 12) as u8)`. The
      field is four bits wide, so the conversion keeps it and decoding never
      fails. */
  function Decode(ir: int): (r: Failable<Operation>)
    requires IsI32(ir)
    ensures r.Ok? && Code(r.value) == Field(ir, 15, 12)
  {
    Powers();
    FieldRange(ir, 15, 12);
    var opCode := Utils.Bits(ir, 15, 12);
    FromCode(opCode)
  }

  /** `run_one_instruction_cycle`, with `run_operation` inlined. A failing
      operation leaves the fetched state: `ir` and `pc` are not rolled back. */
  function Cycle(c: Cpu, io: Console): (r: Run)
    requires Valid(c) && ValidConsole(io)
    ensures !c.running ==> r == Run(c, io, Error(CpuNotRunning))
    ensures c.running && !(0 <= c.pc < NUM_MEMORY_ADDRESSES) ==> r == Run(c, io, Panicked(IndexOutOfBounds))
    ensures c.running && 0 <= c.pc < NUM_MEMORY_ADDRESSES && !r.status.Done? ==> r.cpu == AfterFetch(c)
    ensures r.status == Done ==> Valid(r.cpu) && ValidConsole(r.console)
  {
    if !c.running then Run(c, io, Error(CpuNotRunning))
    else
      match Fetch(c)
      case Panic(k) => Run(c, io, Panicked(k))
      case Err(e) => Run(c, io, Error(e))
      case Ok(f) =>
        match Decode(f.ir)
        case Ok(op) => Execute(op, f, io)
        case Err(e) => Run(f, io, Error(e))
        case Panic(k) => Run(f, io, Panicked(k))
  }

  /** A running machine whose `pc` is a memory address executes, on the fetched
      state, the operation whose code is bits 15..12 of the cell at `pc`. */
  lemma CycleExecutes(c: Cpu, io: Console, op: Operation)
    requires Valid(c) && ValidConsole(io) && c.running && 0 <= c.pc < NUM_MEMORY_ADDRESSES
    requires Code(op) == Field(c.mem.vals[c.pc], 15, 12)
    ensures Fetched(AfterFetch(c))
    ensures Cycle(c, io) == Execute(op, AfterFetch(c), io)
  {
    var f := AfterFetch(c);
    var d := Decode(f.ir);
    CodeInjective(d.value, op);
  }

  /** Two operations with the same code are the same operation. */
  lemma CodeInjective(a: Operation, b: Operation)
    requires Code(a) == Code(b)
    ensures a == b
  {
    FromCodeRoundTrip(a);
    FromCodeRoundTrip(b);
  }

  // ---------------------------------------------------------------------------
  // Many cycles. The loop of `run_many_instruction_cycles` is stated over any
  // cycle function, so that its properties are proved once, apart from what a
  // cycle does; `Steps` instantiates it with `Cycle`.

  /** A step after which the run goes on: it ended normally and the machine is
      still running. */
  predicate Live(r: Run) {
    r.status == Done && r.cpu.running
  }

  /** The loop: at most `n` cycles; a cycle that is not live ends it with that
      cycle's outcome. A zero count leaves everything as it was. */
  function Loop(cycle: (Cpu, Console) -> Run, c: Cpu, io: Console, n: nat): (r: Run)
    ensures n == 0 ==> r == Run(c, io, Done)
    ensures n > 0 && !Live(cycle(c, io)) ==> r == cycle(c, io)
    decreases n
  {
    if n == 0 then Run(c, io, Done)
    else
      var s := cycle(c, io);
      if !Live(s) then s else Loop(cycle, s.cpu, s.console, n - 1)
  }

  /** Reference run: up to `k` cycles, stopping only at the first cycle that
      does not end normally. A halted machine is not special here: its next
      cycle reports `CpuNotRunning`. */
  function Iterate(cycle: (Cpu, Console) -> Run, c: Cpu, io: Console, k: nat): (r: Run)
    ensures k == 0 ==> r == Run(c, io, Done)
    ensures k > 0 && cycle(c, io).status != Done ==> r == cycle(c, io)
    decreases k
  {
    if k == 0 then Run(c, io, Done)
    else
      var s := cycle(c, io);
      if s.status != Done then s else Iterate(cycle, s.cpu, s.console, k - 1)
  }

  /** The number of cycles the loop runs. */
  function Taken(cycle: (Cpu, Console) -> Run, c: Cpu, io: Console, n: nat): (m: nat)
    ensures m <= n
    ensures n > 0 ==> m > 0
    decreases n
  {
    if n == 0 then 0
    else
      var s := cycle(c, io);
      if !Live(s) then 1 else 1 + Taken(cycle, s.cpu, s.console, n - 1)
  }

  /** The loop is the reference run cut at the first cycle that is not live: it
      takes `m <= n` cycles, every cycle before the last one is live, and when
      it stops early the last cycle is the one that failed or halted. */
  lemma {:induction false} LoopStopsAtFirstHaltOrError(cycle: (Cpu, Console) -> Run, c: Cpu, io: Console, n: nat)
    ensures var m := Taken(cycle, c, io, n);
            && Loop(cycle, c, io, n) == Iterate(cycle, c, io, m)
            && (m < n ==> !Live(Iterate(cycle, c, io, m)))
            && (forall j | 1 <= j < m :: Live(Iterate(cycle, c, io, j)))
    decreases n
  {
    if n > 0 {
      var s := cycle(c, io);
      assert Iterate(cycle, c, io, 1) == s by {
        if s.status == Done {
          assert Iterate(cycle, s.cpu, s.console, 0) == s;
        }
      }
      if Live(s) {
        LoopStopsAtFirstHaltOrError(cycle, s.cpu, s.console, n - 1);
        var m' := Taken(cycle, s.cpu, s.console, n - 1);
        forall j | 1 <= j < m' + 1 ensures Live(Iterate(cycle, c, io, j)) {
          if j > 1 {
            assert Iterate(cycle, c, io, j) == Iterate(cycle, s.cpu, s.console, j - 1);
          }
        }
        assert Iterate(cycle, c, io, m' + 1) == Iterate(cycle, s.cpu, s.console, m');
      }
    }
  }

  /** A property of states that every normally ending cycle keeps is kept by
      the loop. */
  lemma {:induction false} LoopPreserves(cycle: (Cpu, Console) -> Run, ok: (Cpu, Console) -> bool,
                                         c: Cpu, io: Console, n: nat)
    requires ok(c, io)
    requires forall c', io' | ok(c', io') && cycle(c', io').status == Done ::
               ok(cycle(c', io').cpu, cycle(c', io').console)
    ensures var r := Loop(cycle, c, io, n); r.status == Done ==> ok(r.cpu, r.console)
    decreases n
  {
    if n > 0 {
      var s := cycle(c, io);
      if Live(s) {
        LoopPreserves(cycle, ok, s.cpu, s.console, n - 1);
      }
    }
  }

  /** The loop of `run_many_instruction_cycles`: a `for` over the count, left
      early through `?` on the first failing cycle or through `break` once the
      machine has halted. */
  method RunLoop(cycle: (Cpu, Console) -> Run, c: Cpu, io: Console, numCycles: nat) returns (r: Run)
    ensures r == Loop(cycle, c, io, numCycles)
  {
    var cpu, console := c, io;
    var i := 0;
    while i < numCycles
      invariant 0 <= i <= numCycles
      invariant Loop(cycle, c, io, numCycles) == Loop(cycle, cpu, console, numCycles - i)
    {
      var s := cycle(cpu, console);
      if s.status != Done {
        return s;
      }
      cpu, console := s.cpu, s.console;
      if !cpu.running {
        return Run(cpu, console, Done);
      }
      i := i + 1;
    }
    return Run(cpu, console, Done);
  }

  /** The states the engine works on. */
  predicate ValidState(c: Cpu, io: Console) {
    Valid(c) && ValidConsole(io)
  }

  /** `Cycle` as a total function. The machine states the engine reaches are
      all valid; on any other state the step ends the run. */
  function CycleStep(c: Cpu, io: Console): (r: Run)
    ensures ValidState(c, io) ==> r == Cycle(c, io)
    ensures !ValidState(c, io) ==> !Live(r)
  {
    if ValidState(c, io) then Cycle(c, io) else Run(c, io, Error(CpuNotRunning))
  }

  /** `run_many_instruction_cycles` as a function: the loop over `Cycle`. */
  function Steps(c: Cpu, io: Console, n: nat): (r: Run)
    requires Valid(c) && ValidConsole(io)
    ensures n == 0 ==> r == Run(c, io, Done)
    ensures n > 0 && !c.running ==> r == Run(c, io, Error(CpuNotRunning))
  {
    Loop(CycleStep, c, io, n)
  }

  /** A normally ending cycle leaves a valid state. */
  lemma CycleKeepsValid()
    ensures forall c, io | ValidState(c, io) && CycleStep(c, io).status == Done ::
              ValidState(CycleStep(c, io).cpu, CycleStep(c, io).console)
  {
    forall c, io | ValidState(c, io) && CycleStep(c, io).status == Done
      ensures ValidState(CycleStep(c, io).cpu, CycleStep(c, io).console)
    {
      var r := Cycle(c, io);
    }
  }

  /** Every state a run ends normally in is valid. */
  lemma StepsKeepValid(c: Cpu, io: Console, n: nat)
    requires Valid(c) && ValidConsole(io)
    ensures var r := Steps(c, io, n); r.status == Done ==> Valid(r.cpu) && ValidConsole(r.console)
  {
    CycleKeepsValid();
    LoopPreserves(CycleStep, ValidState, c, io, n);
  }

  /** `run_many_instruction_cycles` with its `u32` count. */
  method RunManyInstructionCycles(c: Cpu, io: Console, numCycles: int) returns (r: Run)
    requires Valid(c) && ValidConsole(io) && 0 <= numCycles < 0x1_0000_0000
    ensures r == Steps(c, io, numCycles)
  {
    r := RunLoop(CycleStep, c, io, numCycles);
  }
}
