/** The state of the Rust engine and the operations on it that are not
    instructions (rust_implementation/src/cpu.rs): construction, program loading,
    the destination-register write shared by the instructions, and the debug
    setters of the console. */
module Machine {
  import opened Bitwise
  import opened Optional
  import opened Errors
  import CC = ConditionCodes
  import NiceVector
  import Program

  const NUM_REGISTERS := 8
  const NUM_MEMORY_ADDRESSES := 65536

  /** `CPU`. Memory cells and registers hold `i32` values and are never cut to 16
      bits; `pc` is an `i32` too, reset to 0 only by the fetch step. */
  datatype Cpu = Cpu(
    mem: NiceVector.Vector,
    reg: NiceVector.Vector,
    running: bool,
    pc: int,
    ir: int,
    cc: CC.ConditionCode)

  /** What the traps print: a character (`OUT`), or a memory cell written as a
      decimal number (`PUTS` prints each cell with `{}`, not as a character). */
  datatype Emit = Char(code: int) | Decimal(word: int)

  /** Standard input as the bytes still unread, and everything printed so far. */
  datatype Console = Console(input: seq<int>, output: seq<Emit>)

  /** How a step ended: normally, with an `LC3Error`, with a panic that ends the
      process, or never (`PUTS` over a memory that holds no zero cell). */
  datatype Status = Done | Error(error: Lc3Error) | Panicked(kind: PanicKind) | Hang

  /** The machine and the console after a step, and how the step ended. When the
      status is `Panicked` or `Hang` the state is the one the step started from. */
  datatype Run = Run(cpu: Cpu, console: Console, status: Status)

  /** The shape every reachable state has: full-size memory and register file,
      and every value within `i32`. */
  predicate Valid(c: Cpu) {
    && |c.mem.vals| == NUM_MEMORY_ADDRESSES
    && |c.reg.vals| == NUM_REGISTERS
    && (forall i | 0 <= i < NUM_MEMORY_ADDRESSES :: IsI32(c.mem.vals[i]))
    && (forall i | 0 <= i < NUM_REGISTERS :: IsI32(c.reg.vals[i]))
    && IsI32(c.pc) && IsI32(c.ir)
  }

  /** A state right after the fetch step: valid, with `pc` a memory address. */
  predicate Fetched(c: Cpu) {
    Valid(c) && 0 <= c.pc < NUM_MEMORY_ADDRESSES
  }

  /** The cell `j` places after `start`, counting on past 0xFFFF from 0. */
  function At(cells: seq<int>, start: int, j: int): int
    requires |cells| == NUM_MEMORY_ADDRESSES
  {
    cells[(start + j) % NUM_MEMORY_ADDRESSES]
  }

  /** Moving the start one cell on shifts every position by one. */
  lemma AtNext(cells: seq<int>, start: int, j: int)
    requires |cells| == NUM_MEMORY_ADDRESSES
    ensures At(cells, (start + 1) % NUM_MEMORY_ADDRESSES, j) == At(cells, start, j + 1)
  {
    ModAddMod(start + 1, j, NUM_MEMORY_ADDRESSES);
  }

  /** Standard input delivers bytes. */
  predicate ValidConsole(io: Console) {
    forall i | 0 <= i < |io.input| :: 0 <= io.input[i] < 256
  }

  /** `d` is `c` with register `dr` set to `v` and the condition code set to the
      sign of `v`; memory, `pc`, `ir` and `running` are as in `c`. */
  predicate WroteDr(c: Cpu, d: Cpu, dr: int, v: int)
    requires 0 <= dr < |c.reg.vals|
  {
    && d.mem == c.mem && d.pc == c.pc && d.ir == c.ir && d.running == c.running
    && d.reg.vals == c.reg.vals[dr := v]
    && d.cc == CC.FromValue(v)
  }

  /** `d` is `c` with memory cell `a` set to `v` and nothing else changed. */
  predicate WroteMem(c: Cpu, d: Cpu, a: int, v: int)
    requires 0 <= a < |c.mem.vals|
  {
    d == c.(mem := NiceVector.Vector(c.mem.vals[a := v]))
  }

  /** `CPU::new`. */
  function New(): (c: Cpu)
    ensures Valid(c)
    ensures forall i | 0 <= i < NUM_MEMORY_ADDRESSES :: c.mem.vals[i] == 0
    ensures forall i | 0 <= i < NUM_REGISTERS :: c.reg.vals[i] == 0
    ensures c.running && c.pc == 0 && c.ir == 0 && c.cc == CC.Z
  {
    Cpu(NiceVector.New(NUM_MEMORY_ADDRESSES), NiceVector.New(NUM_REGISTERS), true, 0, 0, CC.Z)
  }

  // ---------------------------------------------------------------------------
  // Loading a program

  /** The store loop of `load_program`: `words` written from `addr` on, the
      address a `u16` that wraps from 0xFFFF to 0. A cell at distance d from
      `addr` receives word d, then d + 65536, and so on: the last of them stays.
      A cell at distance `|words|` or more keeps its value. */
  function StoreWords(mem: NiceVector.Vector, addr: int, words: seq<int>): (r: NiceVector.Vector)
    requires |mem.vals| == NUM_MEMORY_ADDRESSES && 0 <= addr < NUM_MEMORY_ADDRESSES
    ensures |r.vals| == NUM_MEMORY_ADDRESSES
    ensures forall k | 0 <= k < |words| && |words| <= k + NUM_MEMORY_ADDRESSES ::
              r.vals[(addr + k) % NUM_MEMORY_ADDRESSES] == words[k]
    ensures forall i | 0 <= i < NUM_MEMORY_ADDRESSES && (i - addr) % NUM_MEMORY_ADDRESSES >= |words| ::
              r.vals[i] == mem.vals[i]
    ensures forall i | 0 <= i < NUM_MEMORY_ADDRESSES :: r.vals[i] == mem.vals[i] || r.vals[i] in words
    decreases |words|
  {
    if words == [] then mem
    else
      var next := (addr + 1) % NUM_MEMORY_ADDRESSES;
      var mem' := NiceVector.IndexMut(mem, addr, words[0]).value;
      var r := StoreWords(mem', next, words[1..]);
      StoreWordsStep(mem, addr, words, mem', r);
      r
  }

  /** One turn of the store loop: what the recursive call promises about the
      rest of the words gives the promise about all of them. */
  lemma StoreWordsStep(mem: NiceVector.Vector, addr: int, words: seq<int>,
                       mem': NiceVector.Vector, r: NiceVector.Vector)
    requires |mem.vals| == NUM_MEMORY_ADDRESSES && 0 <= addr < NUM_MEMORY_ADDRESSES && words != []
    requires mem'.vals == mem.vals[addr := words[0]]
    requires |r.vals| == NUM_MEMORY_ADDRESSES
    requires forall k | 0 <= k < |words| - 1 && |words| - 1 <= k + NUM_MEMORY_ADDRESSES ::
               r.vals[((addr + 1) % NUM_MEMORY_ADDRESSES + k) % NUM_MEMORY_ADDRESSES] == words[1..][k]
    requires forall i | 0 <= i < NUM_MEMORY_ADDRESSES &&
                        (i - (addr + 1) % NUM_MEMORY_ADDRESSES) % NUM_MEMORY_ADDRESSES >= |words| - 1 ::
               r.vals[i] == mem'.vals[i]
    ensures forall k | 0 <= k < |words| && |words| <= k + NUM_MEMORY_ADDRESSES ::
              r.vals[(addr + k) % NUM_MEMORY_ADDRESSES] == words[k]
    ensures forall i | 0 <= i < NUM_MEMORY_ADDRESSES && (i - addr) % NUM_MEMORY_ADDRESSES >= |words| ::
              r.vals[i] == mem.vals[i]
  {
    StoreWordsPlaced(mem, addr, words, mem', r);
    StoreWordsKept(mem, addr, words, mem', r);
  }

  /** The placement half of one turn of the store loop. */
  lemma StoreWordsPlaced(mem: NiceVector.Vector, addr: int, words: seq<int>,
                         mem': NiceVector.Vector, r: NiceVector.Vector)
    requires |mem.vals| == NUM_MEMORY_ADDRESSES && 0 <= addr < NUM_MEMORY_ADDRESSES && words != []
    requires mem'.vals == mem.vals[addr := words[0]]
    requires |r.vals| == NUM_MEMORY_ADDRESSES
    requires forall k | 0 <= k < |words| - 1 && |words| - 1 <= k + NUM_MEMORY_ADDRESSES ::
               r.vals[((addr + 1) % NUM_MEMORY_ADDRESSES + k) % NUM_MEMORY_ADDRESSES] == words[1..][k]
    requires forall i | 0 <= i < NUM_MEMORY_ADDRESSES &&
                        (i - (addr + 1) % NUM_MEMORY_ADDRESSES) % NUM_MEMORY_ADDRESSES >= |words| - 1 ::
               r.vals[i] == mem'.vals[i]
    ensures forall k | 0 <= k < |words| && |words| <= k + NUM_MEMORY_ADDRESSES ::
              r.vals[(addr + k) % NUM_MEMORY_ADDRESSES] == words[k]
  {
    var m := NUM_MEMORY_ADDRESSES;
    var next := (addr + 1) % m;
    forall k | 0 <= k < |words| && |words| <= k + m
      ensures r.vals[(addr + k) % m] == words[k]
    {
      if k == 0 {
        assert (addr - next) % m == m - 1 by {
          if addr + 1 < m { assert next == addr + 1; } else { assert next == 0; }
        }
        assert r.vals[addr] == mem'.vals[addr];
      } else {
        ModAddMod(addr + 1, k - 1, m);
        assert r.vals[(next + (k - 1)) % m] == words[1..][k - 1];
      }
    }
  }

  /** The keeping half of one turn of the store loop. */
  lemma StoreWordsKept(mem: NiceVector.Vector, addr: int, words: seq<int>,
                       mem': NiceVector.Vector, r: NiceVector.Vector)
    requires |mem.vals| == NUM_MEMORY_ADDRESSES && 0 <= addr < NUM_MEMORY_ADDRESSES && words != []
    requires mem'.vals == mem.vals[addr := words[0]]
    requires |r.vals| == NUM_MEMORY_ADDRESSES
    requires forall i | 0 <= i < NUM_MEMORY_ADDRESSES &&
                        (i - (addr + 1) % NUM_MEMORY_ADDRESSES) % NUM_MEMORY_ADDRESSES >= |words| - 1 ::
               r.vals[i] == mem'.vals[i]
    ensures forall i | 0 <= i < NUM_MEMORY_ADDRESSES && (i - addr) % NUM_MEMORY_ADDRESSES >= |words| ::
              r.vals[i] == mem.vals[i]
  {
    var m := NUM_MEMORY_ADDRESSES;
    forall i | 0 <= i < m && (i - addr) % m >= |words|
      ensures r.vals[i] == mem.vals[i]
    {
      ModDistanceStep(i, addr, m);
      assert i != addr by { assert (addr - addr) % m == 0; }
    }
  }

  /** Word k sits at address `(start + k) mod 65536`, for every k that no later
      word overwrites. */
  predicate Placed(cells: seq<int>, start: int, words: seq<int>)
    requires |cells| == NUM_MEMORY_ADDRESSES
  {
    forall k | 0 <= k < |words| && |words| <= k + NUM_MEMORY_ADDRESSES ::
      cells[(start + k) % NUM_MEMORY_ADDRESSES] == words[k]
  }

  /** Every cell at distance n or more past `start` holds what it held before. */
  predicate KeptOutside(cells: seq<int>, before: seq<int>, start: int, n: int)
    requires |cells| == NUM_MEMORY_ADDRESSES && |before| == NUM_MEMORY_ADDRESSES
  {
    forall i | 0 <= i < NUM_MEMORY_ADDRESSES && (i - start) % NUM_MEMORY_ADDRESSES >= n ::
      cells[i] == before[i]
  }

  /** `load_program`: `pc` becomes the header as it is, and instruction k goes to
      address `(header + k) mod 65536`. */
  function LoadProgram(c: Cpu, p: Program.Program): (r: Cpu)
    requires Valid(c) && Program.WellFormed(p)
    ensures Valid(r)
    ensures r.pc == p.header
    ensures r.reg == c.reg && r.running == c.running && r.ir == c.ir && r.cc == c.cc
    ensures Placed(r.mem.vals, p.header, p.instructions)
    ensures KeptOutside(r.mem.vals, c.mem.vals, p.header, |p.instructions|)
  {
    c.(pc := p.header, mem := LoadWords(c.mem, p.header, p.instructions))
  }

  /** The memory after the store loop of `load_program`, which starts at the
      header cast to `u16`. */
  function LoadWords(mem: NiceVector.Vector, header: int, words: seq<int>): (r: NiceVector.Vector)
    requires |mem.vals| == NUM_MEMORY_ADDRESSES
    requires forall i | 0 <= i < NUM_MEMORY_ADDRESSES :: IsI32(mem.vals[i])
    requires forall k | 0 <= k < |words| :: IsI32(words[k])
    ensures |r.vals| == NUM_MEMORY_ADDRESSES
    ensures forall i | 0 <= i < NUM_MEMORY_ADDRESSES :: IsI32(r.vals[i])
    ensures Placed(r.vals, header, words)
    ensures KeptOutside(r.vals, mem.vals, header, |words|)
  {
    var r := StoreWords(mem, header % NUM_MEMORY_ADDRESSES, words);
    LoadAddresses(mem, r, header, words);
    r
  }

  /** Starting the store loop at the header cast to `u16` reaches the same cells
      as counting from the header itself, and stores only `i32` values. */
  lemma LoadAddresses(mem: NiceVector.Vector, r: NiceVector.Vector, header: int, words: seq<int>)
    requires |mem.vals| == NUM_MEMORY_ADDRESSES && |r.vals| == NUM_MEMORY_ADDRESSES
    requires forall k | 0 <= k < |words| && |words| <= k + NUM_MEMORY_ADDRESSES ::
               r.vals[(header % NUM_MEMORY_ADDRESSES + k) % NUM_MEMORY_ADDRESSES] == words[k]
    requires forall i | 0 <= i < NUM_MEMORY_ADDRESSES &&
                        (i - header % NUM_MEMORY_ADDRESSES) % NUM_MEMORY_ADDRESSES >= |words| ::
               r.vals[i] == mem.vals[i]
    requires forall i | 0 <= i < NUM_MEMORY_ADDRESSES :: r.vals[i] == mem.vals[i] || r.vals[i] in words
    requires forall i | 0 <= i < NUM_MEMORY_ADDRESSES :: IsI32(mem.vals[i])
    requires forall k | 0 <= k < |words| :: IsI32(words[k])
    ensures Placed(r.vals, header, words)
    ensures KeptOutside(r.vals, mem.vals, header, |words|)
    ensures forall i | 0 <= i < NUM_MEMORY_ADDRESSES :: IsI32(r.vals[i])
  {
    LoadPlaced(r, header, words);
    LoadKept(mem, r, header, words);
    forall i | 0 <= i < NUM_MEMORY_ADDRESSES ensures IsI32(r.vals[i]) {
      if r.vals[i] != mem.vals[i] {
        var k :| 0 <= k < |words| && words[k] == r.vals[i];
      }
    }
  }

  lemma LoadPlaced(r: NiceVector.Vector, header: int, words: seq<int>)
    requires |r.vals| == NUM_MEMORY_ADDRESSES
    requires forall k | 0 <= k < |words| && |words| <= k + NUM_MEMORY_ADDRESSES ::
               r.vals[(header % NUM_MEMORY_ADDRESSES + k) % NUM_MEMORY_ADDRESSES] == words[k]
    ensures Placed(r.vals, header, words)
  {
    var m := NUM_MEMORY_ADDRESSES;
    forall k | 0 <= k < |words| && |words| <= k + m
      ensures r.vals[(header + k) % m] == words[k]
    {
      ModAddMod(header, k, m);
    }
  }

  lemma LoadKept(mem: NiceVector.Vector, r: NiceVector.Vector, header: int, words: seq<int>)
    requires |mem.vals| == NUM_MEMORY_ADDRESSES && |r.vals| == NUM_MEMORY_ADDRESSES
    requires forall i | 0 <= i < NUM_MEMORY_ADDRESSES &&
                        (i - header % NUM_MEMORY_ADDRESSES) % NUM_MEMORY_ADDRESSES >= |words| ::
               r.vals[i] == mem.vals[i]
    ensures KeptOutside(r.vals, mem.vals, header, |words|)
  {
    var m := NUM_MEMORY_ADDRESSES;
    forall i | 0 <= i < m && (i - header) % m >= |words|
      ensures r.vals[i] == mem.vals[i]
    {
      ModAddMod(-header, i, m);
      ModNeg(header, m);
      ModAddMod(-(header % m), i, m);
    }
  }

  /** A cell inside the loaded range holds the last word written to it, and a
      cell outside it keeps its value. */
  lemma LoadedCell(c: Cpu, p: Program.Program, i: int)
    requires Valid(c) && Program.WellFormed(p) && 0 <= i < NUM_MEMORY_ADDRESSES
    ensures var d := (i - p.header) % NUM_MEMORY_ADDRESSES;
            var n := |p.instructions|;
            LoadProgram(c, p).mem.vals[i] ==
              if d >= n then c.mem.vals[i]
              else p.instructions[LastWriter(d, n)]
  {
    var d := (i - p.header) % NUM_MEMORY_ADDRESSES;
    var n := |p.instructions|;
    if d < n {
      LoadedInside(c, p, i);
    } else {
      LoadedOutside(c, p, i);
    }
  }

  lemma LoadedInside(c: Cpu, p: Program.Program, i: int)
    requires Valid(c) && Program.WellFormed(p) && 0 <= i < NUM_MEMORY_ADDRESSES
    requires (i - p.header) % NUM_MEMORY_ADDRESSES < |p.instructions|
    ensures LoadProgram(c, p).mem.vals[i] ==
              p.instructions[LastWriter((i - p.header) % NUM_MEMORY_ADDRESSES, |p.instructions|)]
  {
    var k := LastWriter((i - p.header) % NUM_MEMORY_ADDRESSES, |p.instructions|);
    LastWriterHits(p.header, i, |p.instructions|);
    PlacedAt(LoadProgram(c, p).mem.vals, p.header, p.instructions, k);
  }

  lemma LoadedOutside(c: Cpu, p: Program.Program, i: int)
    requires Valid(c) && Program.WellFormed(p) && 0 <= i < NUM_MEMORY_ADDRESSES
    requires (i - p.header) % NUM_MEMORY_ADDRESSES >= |p.instructions|
    ensures LoadProgram(c, p).mem.vals[i] == c.mem.vals[i]
  {
    KeptAt(LoadProgram(c, p).mem.vals, c.mem.vals, p.header, |p.instructions|, i);
  }

  lemma PlacedAt(cells: seq<int>, start: int, words: seq<int>, k: int)
    requires |cells| == NUM_MEMORY_ADDRESSES && Placed(cells, start, words)
    requires 0 <= k < |words| && |words| <= k + NUM_MEMORY_ADDRESSES
    ensures cells[(start + k) % NUM_MEMORY_ADDRESSES] == words[k]
  {
  }

  lemma KeptAt(cells: seq<int>, before: seq<int>, start: int, n: int, i: int)
    requires |cells| == NUM_MEMORY_ADDRESSES && |before| == NUM_MEMORY_ADDRESSES
    requires KeptOutside(cells, before, start, n)
    requires 0 <= i < NUM_MEMORY_ADDRESSES && (i - start) % NUM_MEMORY_ADDRESSES >= n
    ensures cells[i] == before[i]
  {
  }

  /** Of the word indexes below n at distance d (mod 65536), the largest. */
  function LastWriter(d: int, n: int): int
    requires 0 <= d < n
  {
    d + NUM_MEMORY_ADDRESSES * ((n - 1 - d) / NUM_MEMORY_ADDRESSES)
  }

  lemma LastWriterHits(header: int, i: int, n: int)
    requires 0 <= i < NUM_MEMORY_ADDRESSES && (i - header) % NUM_MEMORY_ADDRESSES < n
    ensures var k := LastWriter((i - header) % NUM_MEMORY_ADDRESSES, n);
            0 <= k < n && n <= k + NUM_MEMORY_ADDRESSES && (header + k) % NUM_MEMORY_ADDRESSES == i
  {
    var m := NUM_MEMORY_ADDRESSES;
    var d := (i - header) % m;
    var t := (n - 1 - d) / m;
    ModAddMultiple(header + d, t, m);
    ModDistance(i, header, m);
  }

  // ---------------------------------------------------------------------------
  // Register and memory writes

  /** `set_dr`: the destination register and the condition code change together. */
  function SetDr(c: Cpu, dr: int, val: int): (r: Cpu)
    requires Valid(c) && 0 <= dr < NUM_REGISTERS
    ensures WroteDr(c, r, dr, val)
    ensures IsI32(val) ==> Valid(r)
  {
    c.(reg := NiceVector.IndexMut(c.reg, dr, val).value, cc := CC.FromValue(val))
  }

  /** `set_pc_address`: jumping also restarts a halted machine. */
  function SetPcAddress(c: Cpu, addr: int): (r: Cpu)
    requires Valid(c) && IsI32(addr)
    ensures Valid(r)
    ensures r.pc == addr && r.running
    ensures r.mem == c.mem && r.reg == c.reg && r.ir == c.ir && r.cc == c.cc
  {
    c.(pc := addr, running := true)
  }

  /** `set_memory_address_value`: one memory cell, or a panic when the address
      is outside memory (negative addresses included). */
  function SetMemoryAddressValue(c: Cpu, addr: int, val: int): (r: Option<Cpu>)
    requires Valid(c) && IsI32(addr) && IsI32(val)
    ensures r.Some? <==> 0 <= addr < NUM_MEMORY_ADDRESSES
    ensures r.Some? ==> Valid(r.value) && WroteMem(c, r.value, addr, val)
  {
    match NiceVector.IndexMut(c.mem, addr, val)
    case None => None
    case Some(mem) => Some(c.(mem := mem))
  }

  /** `set_register_value`: one register, and unlike `set_dr` the condition code
      is left alone. */
  function SetRegisterValue(c: Cpu, regNum: int, val: int): (r: Option<Cpu>)
    requires Valid(c) && IsI32(regNum) && IsI32(val)
    ensures r.Some? <==> 0 <= regNum < NUM_REGISTERS
    ensures r.Some? ==> Valid(r.value)
    ensures r.Some? ==> r.value.reg.vals == c.reg.vals[regNum := val]
    ensures r.Some? ==> r.value.mem == c.mem && r.value.cc == c.cc && r.value.pc == c.pc
                        && r.value.ir == c.ir && r.value.running == c.running
  {
    match NiceVector.IndexMut(c.reg, regNum, val)
    case None => None
    case Some(reg) => Some(c.(reg := reg))
  }

  /** The debug setter and the instruction write agree on the register, and
      differ only in the condition code. */
  lemma SetRegisterValueIsSetDrWithoutFlags(c: Cpu, regNum: int, val: int)
    requires Valid(c) && 0 <= regNum < NUM_REGISTERS && IsI32(val)
    ensures SetRegisterValue(c, regNum, val) == Some(SetDr(c, regNum, val).(cc := c.cc))
  {
  }
}
