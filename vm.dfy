/** The virtual machine: eight byte registers (0..4 general, then SP, SZ and PC)
    over the 256-byte RAM that the loader filled. Each step first halts with -1 if
    the stack frame SP + SZ reaches the code segment boundary CS, then executes the
    instruction at PC. */
module Vm {
  import opened Isa

  /** The machine between two steps: the register bank and RAM. */
  datatype Machine = Machine(regs: seq<byte>, ram: seq<byte>)

  predicate Valid(m: Machine)
  {
    |m.regs| == REG_COUNT && |m.ram| == RAM_SIZE
  }

  /** The machine as main sets it up: SP at the stack base, an empty frame, PC at
      the entry of function 0 and the general registers cleared. */
  function Boot(ram: seq<byte>): (m: Machine)
    requires |ram| == RAM_SIZE
    ensures Valid(m) && m.ram == ram
    ensures m.regs[SP] == STACK_BASE && m.regs[SZ] == 0 && m.regs[PC] == ram[NO_FUNCTION]
    ensures forall r :: 0 <= r < SP ==> m.regs[r] == 0
  {
    Machine([0, 0, 0, 0, 0, STACK_BASE, 0, ram[0]], ram)
  }

  datatype Option<T> = None | Some(value: T)

  /** read_val: the value an operand denotes. None is undefined behaviour: a RAM
      index past 255, a register index past 7, or a mode with no case (the C
      function then returns no value). */
  function ReadVal(m: Machine, mode: byte, v: byte): (r: Option<byte>)
    requires Valid(m)
    ensures r.Some? <==>
      || mode == CNST
      || (mode == RGSTR && v < REG_COUNT)
      || ((mode == SYMBL || mode == PNTR) && m.regs[SP] + v < RAM_SIZE)
    ensures mode == CNST ==> r == Some(v)
  {
    var sp := m.regs[SP];
    if mode == CNST then Some(v)
    else if mode == RGSTR then (if v < REG_COUNT then Some(m.regs[v]) else None)
    else if mode == SYMBL then (if sp + v < RAM_SIZE then Some(m.ram[sp + v]) else None)
    else if mode == PNTR then (if sp + v < RAM_SIZE then Some(m.ram[m.ram[sp + v]]) else None)
    else None
  }

  /** write_val: the machine after storing x into the operand. A CNST operand, or a
      mode with no case, stores nothing. None is an index past RAM or the registers. */
  function Written(m: Machine, mode: byte, v: byte, x: byte): (r: Option<Machine>)
    requires Valid(m)
    ensures r.Some? ==> Valid(r.value)
    ensures mode == CNST ==> r == Some(m)
  {
    var sp := m.regs[SP];
    if mode == RGSTR then (if v < REG_COUNT then Some(m.(regs := m.regs[v := x])) else None)
    else if mode == SYMBL then (if sp + v < RAM_SIZE then Some(m.(ram := m.ram[sp + v := x])) else None)
    else if mode == PNTR then (if sp + v < RAM_SIZE then Some(m.(ram := m.ram[m.ram[sp + v] := x])) else None)
    else Some(m)
  }

  /** `reg_bank[PC] += n` on an unsigned char. */
  function Advance(m: Machine, n: nat): (r: Machine)
    requires Valid(m)
    ensures Valid(r)
  {
    m.(regs := m.regs[PC := Wrap(m.regs[PC] as int + n)])
  }

  /** The result of one pass of the run loop. */
  datatype Pass = Running(m: Machine) | Halted(code: int) | Undefined

  // The operand bytes of the instruction at PC.
  function Arg1(m: Machine): byte
    requires Valid(m) && m.regs[PC] + 2 < RAM_SIZE
  {
    m.ram[m.regs[PC] + 1]
  }

  function Arg1v(m: Machine): byte
    requires Valid(m) && m.regs[PC] + 2 < RAM_SIZE
  {
    m.ram[m.regs[PC] + 2]
  }

  function Arg2(m: Machine): byte
    requires Valid(m) && m.regs[PC] + 4 < RAM_SIZE
  {
    m.ram[m.regs[PC] + 3]
  }

  function Arg2v(m: Machine): byte
    requires Valid(m) && m.regs[PC] + 4 < RAM_SIZE
  {
    m.ram[m.regs[PC] + 4]
  }

  /** MOV: write_val of the destination with read_val of the source, then PC += 5. */
  function Move(m: Machine): Pass
    requires Valid(m) && m.regs[PC] + 4 < RAM_SIZE
  {
    match ReadVal(m, Arg2(m), Arg2v(m))
    case None => Undefined
    case Some(x) =>
      match Written(m, Arg1(m), Arg1v(m), x)
      case None => Undefined
      case Some(m') => Running(Advance(m', 5))
  }

  /** CAL: PC += 3, then the frame trailer RAM[SP + SZ] = SZ and RAM[SP + SZ + 1] =
      PC, PC = RAM[label], SP += SZ + 2. SZ itself is left as it is. */
  function Call(m: Machine): Pass
    requires Valid(m) && m.regs[PC] + 2 < RAM_SIZE && m.regs[SP] + m.regs[SZ] + 1 < RAM_SIZE
  {
    var sp, sz := m.regs[SP], m.regs[SZ];
    var back := Wrap(m.regs[PC] as int + 3);
    var ram := m.ram[sp + sz := sz][sp + sz + 1 := back];
    Running(Machine(m.regs[PC := ram[Arg1v(m)]][SP := Wrap(sp as int + sz + 2)], ram))
  }

  /** RET: at the stack base it ends the run with code 1; otherwise it restores SZ
      and PC from the trailer below SP and drops the frame. A stack pointer below 2
      reads before RAM[0]. */
  function Return(m: Machine): Pass
    requires Valid(m)
  {
    var sp := m.regs[SP];
    if sp == STACK_BASE then Halted(1)
    else if sp < 2 then Undefined
    else
      var size := m.ram[sp - 2];
      Running(m.(regs := m.regs[SZ := size][PC := m.ram[sp - 1]][SP := Wrap(sp as int - 2 - size)]))
  }

  /** REF: RAM[SP + dest] = SP + src, whatever the modes say, then PC += 5. */
  function Reference(m: Machine): Pass
    requires Valid(m) && m.regs[PC] + 4 < RAM_SIZE
  {
    var sp := m.regs[SP];
    if sp + Arg1v(m) >= RAM_SIZE then Undefined
    else Running(Advance(m.(ram := m.ram[sp + Arg1v(m) := Wrap(sp as int + Arg2v(m))]), 5))
  }

  /** ADD: reg[dest] += reg[src] on unsigned chars, then PC += 5. */
  function Add(m: Machine): Pass
    requires Valid(m) && m.regs[PC] + 4 < RAM_SIZE
  {
    var d, s := Arg1v(m), Arg2v(m);
    if d >= REG_COUNT || s >= REG_COUNT then Undefined
    else Running(Advance(m.(regs := m.regs[d := Wrap(m.regs[d] as int + m.regs[s])]), 5))
  }

  /** PRINT: read_val of its operand for the output; nothing changes, PC included. */
  function Print(m: Machine): Pass
    requires Valid(m) && m.regs[PC] + 2 < RAM_SIZE
  {
    if ReadVal(m, Arg1(m), Arg1v(m)).None? then Undefined else Running(m)
  }

  /** NOT and EQU: reg[d] = ~reg[d] (as an unsigned char), or reg[d] = !reg[d];
      then PC += 3. */
  function Unary(m: Machine, op: byte): Pass
    requires Valid(m) && m.regs[PC] + 2 < RAM_SIZE
  {
    var d := Arg1v(m);
    if d >= REG_COUNT then Undefined
    else
      var x := m.regs[d];
      var y := if op == NOT then 255 - x else if x == 0 then 1 else 0;
      Running(Advance(m.(regs := m.regs[d := y]), 3))
  }

  /** One pass of the run loop. An opcode above 7 has no case: the pass changes
      nothing. Operand bytes past RAM[255] are undefined behaviour. */
  function Next(m: Machine, cs: byte): (r: Pass)
    requires Valid(m)
    ensures r.Halted? ==> r.code == -1 || r.code == 1
    ensures r == Halted(-1) <==> m.regs[SP] + m.regs[SZ] >= cs
    ensures r == Halted(1) <==>
      m.regs[SP] + m.regs[SZ] < cs && m.ram[m.regs[PC]] == RET && m.regs[SP] == STACK_BASE
  {
    var sp, sz, pc := m.regs[SP], m.regs[SZ], m.regs[PC];
    var op := m.ram[pc];
    if sp + sz >= cs then Halted(-1)
    else if op > 7 then Running(m)
    else if op == RET then Return(m)
    else if pc + Length(op) > RAM_SIZE then Undefined
    else if op == MOV then Move(m)
    else if op == CAL then Call(m)
    else if op == REF then Reference(m)
    else if op == ADD then Add(m)
    else if op == PRINT then Print(m)
    else Unary(m, op)
  }

  /** How a run with a step budget ends: halted with an exit code, still running
      when the budget is spent, or in undefined behaviour. */
  datatype Final = Exit(code: int, m: Machine) | Exhausted(m: Machine) | Crashed

  /** The run loop, for at most `fuel` passes. */
  function RunSpec(m: Machine, cs: byte, fuel: nat): (r: Final)
    requires Valid(m)
    ensures r.Exit? || r.Exhausted? ==> Valid(r.m)
    decreases fuel
  {
    if fuel == 0 then Exhausted(m)
    else
      match Next(m, cs)
      case Running(m') => RunSpec(m', cs, fuel - 1)
      case Halted(code) => Exit(code, m)
      case Undefined => Crashed
  }

  // ---------------------------------------------------------------------------
  // The C run loop over reg_bank and RAM.

  /** write_val, in place. */
  method WriteVal(regs: array<byte>, ram: array<byte>, mode: byte, v: byte, x: byte) returns (ok: bool)
    requires regs.Length == REG_COUNT && ram.Length == RAM_SIZE
    modifies regs, ram
    ensures var w := Written(old(State(regs, ram)), mode, v, x);
      ok == w.Some? && (ok ==> State(regs, ram) == w.value)
  {
    var sp := regs[SP];
    if mode == RGSTR {
      if v >= REG_COUNT {
        return false;
      }
      regs[v] := x;
    } else if mode == SYMBL {
      if sp + v >= RAM_SIZE {
        return false;
      }
      ram[sp + v] := x;
    } else if mode == PNTR {
      if sp + v >= RAM_SIZE {
        return false;
      }
      ram[ram[sp + v]] := x;
    }
    return true;
  }

  /** How one pass of the C loop ends. */
  datatype StepResult = Stepped | Halt(code: int) | Crash

  /** The machine held in reg_bank and RAM. */
  function State(regs: array<byte>, ram: array<byte>): (m: Machine)
    reads regs, ram
    ensures m.regs == regs[..] && m.ram == ram[..]
  {
    Machine(regs[..], ram[..])
  }

  /** A pass of the C loop that ended with r and left the machine in `after` did
      what the outcome o of the same pass in the model says. */
  predicate Agrees(o: Pass, r: StepResult, before: Machine, after: Machine)
  {
    match o
    case Running(m') => r == Stepped && after == m'
    case Halted(code) => r == Halt(code) && after == before
    case Undefined => r == Crash
  }

  /** The MOV case. */
  method ExecMove(regs: array<byte>, ram: array<byte>) returns (r: StepResult)
    requires regs.Length == REG_COUNT && ram.Length == RAM_SIZE && regs != ram
    requires regs[PC] as int + 4 < RAM_SIZE
    modifies regs, ram
    ensures Agrees(Move(old(State(regs, ram))), r, old(State(regs, ram)), State(regs, ram))
  {
    var pc := regs[PC];
    var arg1, arg1v, arg2, arg2v := ram[pc + 1], ram[pc + 2], ram[pc + 3], ram[pc + 4];
    var x := ReadVal(State(regs, ram), arg2, arg2v);
    if x.None? {
      return Crash;
    }
    var ok := WriteVal(regs, ram, arg1, arg1v, x.value);
    if !ok {
      return Crash;
    }
    regs[PC] := Wrap(regs[PC] as int + 5);
    return Stepped;
  }

  /** The CAL case. */
  method ExecCall(regs: array<byte>, ram: array<byte>) returns (r: StepResult)
    requires regs.Length == REG_COUNT && ram.Length == RAM_SIZE && regs != ram
    requires regs[PC] as int + 2 < RAM_SIZE && regs[SP] as int + regs[SZ] as int + 1 < RAM_SIZE
    modifies regs, ram
    ensures Agrees(Call(old(State(regs, ram))), r, old(State(regs, ram)), State(regs, ram))
  {
    var arg1v := ram[regs[PC] + 2];
    var sp, sz := regs[SP], regs[SZ];
    regs[PC] := Wrap(regs[PC] as int + 3);
    ram[sp + sz] := sz;
    ram[sp + sz + 1] := regs[PC];
    regs[PC] := ram[arg1v];
    regs[SP] := Wrap(sp as int + sz + 2);
    return Stepped;
  }

  /** The RET case. */
  method ExecReturn(regs: array<byte>, ram: array<byte>) returns (r: StepResult)
    requires regs.Length == REG_COUNT && ram.Length == RAM_SIZE && regs != ram
    modifies regs
    ensures Agrees(Return(old(State(regs, ram))), r, old(State(regs, ram)), State(regs, ram))
  {
    var sp := regs[SP];
    if sp == STACK_BASE {
      return Halt(1);
    }
    if sp < 2 {
      return Crash;
    }
    regs[SZ] := ram[sp - 2];
    regs[PC] := ram[sp - 1];
    regs[SP] := Wrap(sp as int - 2 - ram[sp - 2]);
    return Stepped;
  }

  /** The REF case. */
  method ExecReference(regs: array<byte>, ram: array<byte>) returns (r: StepResult)
    requires regs.Length == REG_COUNT && ram.Length == RAM_SIZE && regs != ram
    requires regs[PC] as int + 4 < RAM_SIZE
    modifies regs, ram
    ensures Agrees(Reference(old(State(regs, ram))), r, old(State(regs, ram)), State(regs, ram))
  {
    var pc := regs[PC];
    var arg1v, arg2v := ram[pc + 2], ram[pc + 4];
    var sp := regs[SP];
    if sp as int + arg1v >= RAM_SIZE {
      return Crash;
    }
    ram[sp + arg1v] := Wrap(sp as int + arg2v);
    regs[PC] := Wrap(regs[PC] as int + 5);
    return Stepped;
  }

  /** The ADD case. */
  method ExecAdd(regs: array<byte>, ram: array<byte>) returns (r: StepResult)
    requires regs.Length == REG_COUNT && ram.Length == RAM_SIZE && regs != ram
    requires regs[PC] as int + 4 < RAM_SIZE
    modifies regs
    ensures Agrees(Add(old(State(regs, ram))), r, old(State(regs, ram)), State(regs, ram))
  {
    var pc := regs[PC];
    var arg1v, arg2v := ram[pc + 2], ram[pc + 4];
    if arg1v >= REG_COUNT || arg2v >= REG_COUNT {
      return Crash;
    }
    regs[arg1v] := Wrap(regs[arg1v] as int + regs[arg2v]);
    regs[PC] := Wrap(regs[PC] as int + 5);
    return Stepped;
  }

  /** The NOT and EQU cases. */
  method ExecUnary(regs: array<byte>, ram: array<byte>, op: byte) returns (r: StepResult)
    requires regs.Length == REG_COUNT && ram.Length == RAM_SIZE && regs != ram
    requires regs[PC] as int + 2 < RAM_SIZE
    modifies regs
    ensures Agrees(Unary(old(State(regs, ram)), op), r, old(State(regs, ram)), State(regs, ram))
  {
    var arg1v := ram[regs[PC] + 2];
    if arg1v >= REG_COUNT {
      return Crash;
    }
    if op == NOT {
      regs[arg1v] := 255 - regs[arg1v];
    } else {
      regs[arg1v] := if regs[arg1v] == 0 then 1 else 0;
    }
    regs[PC] := Wrap(regs[PC] as int + 3);
    return Stepped;
  }

  /** One pass of the run loop, in place: the guard, then the case for the opcode. */
  method Step(regs: array<byte>, ram: array<byte>, cs: byte) returns (r: StepResult)
    requires regs.Length == REG_COUNT && ram.Length == RAM_SIZE && regs != ram
    modifies regs, ram
    ensures Agrees(Next(old(State(regs, ram)), cs), r, old(State(regs, ram)), State(regs, ram))
  {
    var pc := regs[PC];
    var op := ram[pc];
    if regs[SP] as int + regs[SZ] >= cs {
      return Halt(-1);
    }
    if op > 7 {
      return Stepped;
    }
    if op == RET {
      r := ExecReturn(regs, ram);
      return;
    }
    if pc as int + Length(op) > RAM_SIZE {
      return Crash;
    }
    if op == MOV {
      r := ExecMove(regs, ram);
    } else if op == CAL {
      r := ExecCall(regs, ram);
    } else if op == REF {
      r := ExecReference(regs, ram);
    } else if op == ADD {
      r := ExecAdd(regs, ram);
    } else if op == PRINT {
      r := if ReadVal(State(regs, ram), ram[pc + 1], ram[pc + 2]).None? then Crash else Stepped;
    } else {
      r := ExecUnary(regs, ram, op);
    }
  }

  /** How the C run loop ends within the budget. */
  datatype Ending = Exited | OutOfFuel | Faulted

  /** The run loop `while(!terminated)`, for at most `fuel` passes. */
  method Run(regs: array<byte>, ram: array<byte>, cs: byte, fuel: nat) returns (code: int, ending: Ending)
    requires regs.Length == REG_COUNT && ram.Length == RAM_SIZE && regs != ram
    modifies regs, ram
    ensures match RunSpec(old(State(regs, ram)), cs, fuel)
      case Exit(c, m') => ending == Exited && code == c && State(regs, ram) == m'
      case Exhausted(m') => ending == OutOfFuel && State(regs, ram) == m'
      case Crashed => ending == Faulted
  {
    ghost var goal := RunSpec(State(regs, ram), cs, fuel);
    var left := fuel;
    while true
      invariant RunSpec(State(regs, ram), cs, left) == goal
      decreases left
    {
      if left == 0 {
        return 0, OutOfFuel;
      }
      var r := Step(regs, ram, cs);
      if r.Halt? {
        return r.code, Exited;
      } else if r.Crash? {
        return 0, Faulted;
      }
      left := left - 1;
    }
  }
}
