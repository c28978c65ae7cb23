/** What one pass and a whole run of the virtual machine do: the effect of each
    instruction, the CAL/RET frame round trip, the operand write/read pair, and how
    runs with different step budgets relate. */
module VmFacts {
  import opened Isa
  import opened Bits
  import opened Vm

  // ---------------------------------------------------------------------------
  // Operands.

  /** write_val then read_val of the same operand gives back the stored value.
      For a PNTR operand this holds unless the pointer cell points at itself, in
      which case the store overwrites the pointer. */
  lemma WriteThenRead(m: Machine, mode: byte, v: byte, x: byte)
    requires Valid(m) && (mode == RGSTR || mode == SYMBL || mode == PNTR)
    requires Written(m, mode, v, x).Some?
    requires mode == PNTR ==> m.ram[m.regs[SP] + v] != m.regs[SP] + v
    ensures ReadVal(Written(m, mode, v, x).value, mode, v) == Some(x)
  {
  }

  /** write_val changes exactly its target: register v for RGSTR, the stack slot
      SP + v for SYMBL, the cell that slot points at for PNTR, and nothing at all
      for CNST or a mode with no case. */
  lemma WriteTouchesOnlyTarget(m: Machine, mode: byte, v: byte, x: byte)
    requires Valid(m) && Written(m, mode, v, x).Some?
    ensures var m' := Written(m, mode, v, x).value;
      && (mode == RGSTR ==>
            m'.ram == m.ram && m'.regs[v] == x &&
            forall i :: 0 <= i < REG_COUNT && i != v as int ==> m'.regs[i] == m.regs[i])
      && (mode == SYMBL || mode == PNTR ==>
            var a := if mode == SYMBL then m.regs[SP] + v else m.ram[m.regs[SP] + v];
            m'.regs == m.regs && m'.ram[a] == x &&
            forall b :: 0 <= b < RAM_SIZE && b != a ==> m'.ram[b] == m.ram[b])
      && (mode != RGSTR && mode != SYMBL && mode != PNTR ==> m' == m)
  {
  }

  // ---------------------------------------------------------------------------
  // One pass, instruction by instruction.

  /** The pass runs the instruction at PC: the stack guard holds and the opcode's
      bytes lie in RAM. */
  predicate Executes(m: Machine, cs: byte, op: byte)
    requires Valid(m)
  {
    m.regs[SP] + m.regs[SZ] < cs && m.ram[m.regs[PC]] == op && op < 8 &&
    m.regs[PC] + Length(op) <= RAM_SIZE
  }

  /** The registers other than d, and PC, are as they were. */
  predicate OthersKept(m: Machine, m': Machine, d: int)
    requires Valid(m) && Valid(m')
  {
    forall i :: 0 <= i < PC && i != d ==> m'.regs[i] == m.regs[i]
  }

  /** MOV copies its source operand into its destination and moves PC past its five
      bytes, when the destination is neither PC itself nor a pointer to itself. A
      register destination leaves every other register and all of RAM as they were;
      a stack destination leaves the registers but PC, and every other RAM cell. */
  lemma MoveCopies(m: Machine, cs: byte)
    requires Valid(m) && Executes(m, cs, MOV)
    requires var src := ReadVal(m, Arg2(m), Arg2v(m));
      src.Some? && Written(m, Arg1(m), Arg1v(m), src.value).Some?
    requires var mode, v := Arg1(m), Arg1v(m);
      && (mode == RGSTR || mode == SYMBL || mode == PNTR)
      && (mode == RGSTR ==> v != PC)
      && (mode == PNTR ==> m.ram[m.regs[SP] + v] != m.regs[SP] + v)
    ensures Next(m, cs).Running?
    ensures ReadVal(Next(m, cs).m, Arg1(m), Arg1v(m)) == ReadVal(m, Arg2(m), Arg2v(m))
    ensures Next(m, cs).m.regs[PC] == Wrap(m.regs[PC] as int + 5)
    ensures var mode, v, m' := Arg1(m), Arg1v(m), Next(m, cs).m;
      && (mode == RGSTR ==> OthersKept(m, m', v) && m'.ram == m.ram)
      && (mode != RGSTR ==>
            && OthersKept(m, m', PC)
            && var a := if mode == SYMBL then m.regs[SP] + v else m.ram[m.regs[SP] + v];
               forall b :: 0 <= b < RAM_SIZE && b != a ==> m'.ram[b] == m.ram[b])
  {
    var x := ReadVal(m, Arg2(m), Arg2v(m)).value;
    var w := Written(m, Arg1(m), Arg1v(m), x).value;
    WriteThenRead(m, Arg1(m), Arg1v(m), x);
    WriteTouchesOnlyTarget(m, Arg1(m), Arg1v(m), x);
    assert Next(m, cs) == Running(Advance(w, 5));
  }

  /** ADD leaves in register d the sum of d and s modulo 256 and changes no other
      register but PC, and no RAM cell. */
  lemma AddSums(m: Machine, cs: byte)
    requires Valid(m) && Executes(m, cs, ADD)
    requires Arg1v(m) < REG_COUNT && Arg2v(m) < REG_COUNT && Arg1v(m) != PC
    ensures Next(m, cs).Running?
    ensures var d, s, m' := Arg1v(m), Arg2v(m), Next(m, cs).m;
      && (m'.regs[d] - (m.regs[d] as int + m.regs[s])) % 256 == 0
      && OthersKept(m, m', d) && m'.ram == m.ram
      && m'.regs[PC] == Wrap(m.regs[PC] as int + 5)
  {
  }

  /** Bit k of 2^n - 1 - x is the complement of bit k of x. */
  lemma {:induction false} ComplementBit(n: nat, x: nat, k: nat)
    requires x < Pow2(n) && k < n
    ensures Bit(Pow2(n) - 1 - x, k) == 1 - Bit(x, k)
  {
    var y := Pow2(n) - 1 - x;
    assert Pow2(n) == 2 * Pow2(n - 1);
    if k == 0 {
      assert y % 2 == 1 - x % 2;
    } else {
      assert y / 2 == Pow2(n - 1) - 1 - x / 2;
      ComplementBit(n - 1, x / 2, k - 1);
    }
  }

  /** NOT turns every one of the eight bits of register d around, and moves PC past
      its three bytes. */
  lemma NotComplements(m: Machine, cs: byte)
    requires Valid(m) && Executes(m, cs, NOT)
    requires Arg1v(m) < REG_COUNT && Arg1v(m) != PC
    ensures Next(m, cs).Running?
    ensures var d, m' := Arg1v(m), Next(m, cs).m;
      && (forall k :: 0 <= k < 8 ==> Bit(m'.regs[d], k) == 1 - Bit(m.regs[d], k))
      && OthersKept(m, m', d) && m'.ram == m.ram
      && m'.regs[PC] == Wrap(m.regs[PC] as int + 3)
  {
    var d, m' := Arg1v(m), Next(m, cs).m;
    assert Pow2(8) == 256;
    forall k | 0 <= k < 8
      ensures Bit(m'.regs[d], k) == 1 - Bit(m.regs[d], k)
    {
      ComplementBit(8, m.regs[d], k);
    }
  }

  /** EQU leaves 1 in register d when it held 0 and 0 otherwise (the mode byte plays
      no part), and moves PC past its three bytes. */
  lemma EquTestsZero(m: Machine, cs: byte)
    requires Valid(m) && Executes(m, cs, EQU)
    requires Arg1v(m) < REG_COUNT && Arg1v(m) != PC
    ensures Next(m, cs).Running?
    ensures var d, m' := Arg1v(m), Next(m, cs).m;
      && m'.regs[d] < 2 && (m'.regs[d] == 1 <==> m.regs[d] == 0)
      && OthersKept(m, m', d) && m'.ram == m.ram
      && m'.regs[PC] == Wrap(m.regs[PC] as int + 3)
  {
  }

  /** REF makes its destination slot a pointer to its source slot: afterwards a
      PNTR read through the destination sees what a SYMBL read of the source sees,
      whatever the two mode bytes say. No other cell and no register but PC changes,
      and PC moves past the five bytes. */
  lemma RefMakesPointer(m: Machine, cs: byte)
    requires Valid(m) && Executes(m, cs, REF)
    requires m.regs[SP] + Arg1v(m) < RAM_SIZE && m.regs[SP] + Arg2v(m) < RAM_SIZE
    ensures Next(m, cs).Running?
    ensures var d, s, m' := Arg1v(m), Arg2v(m), Next(m, cs).m;
      && m'.ram[m.regs[SP] + d] == m.regs[SP] + s
      && ReadVal(m', PNTR, d) == ReadVal(m', SYMBL, s)
      && (forall a :: 0 <= a < RAM_SIZE && a != m.regs[SP] + d ==> m'.ram[a] == m.ram[a])
      && OthersKept(m, m', PC) && m'.regs[PC] == Wrap(m.regs[PC] as int + 5)
  {
  }

  /** A pass that changes nothing: PRINT, and a byte at PC that is no opcode. */
  predicate Stalls(m: Machine, cs: byte)
    requires Valid(m)
  {
    Next(m, cs) == Running(m)
  }

  /** PRINT never moves PC: a pass over it leaves the machine exactly as it was. */
  lemma PrintStalls(m: Machine, cs: byte)
    requires Valid(m) && Executes(m, cs, PRINT)
    requires ReadVal(m, Arg1(m), Arg1v(m)).Some?
    ensures Stalls(m, cs)
  {
  }

  /** A machine that stalls stays where it is for as many passes as it is given. */
  lemma {:induction false} StallSpins(m: Machine, cs: byte, fuel: nat)
    requires Valid(m) && Stalls(m, cs)
    ensures RunSpec(m, cs, fuel) == Exhausted(m)
    decreases fuel
  {
    if fuel > 0 {
      StallSpins(m, cs, fuel - 1);
    }
  }

  /** CAL, a body that leaves SP and the frame trailer as CAL set them, then RET:
      the RET restores the caller's SP and SZ and resumes right after the CAL. */
  lemma CallThenReturn(m: Machine, m2: Machine, cs: byte)
    requires Valid(m) && Executes(m, cs, CAL)
    requires m.regs[SP] >= STACK_BASE && m.regs[SP] + m.regs[SZ] + 2 < RAM_SIZE
    requires Valid(m2) && Next(m, cs).Running?
    requires var m1 := Next(m, cs).m;
      && m2.regs[SP] == m1.regs[SP]
      && m2.ram[m1.regs[SP] - 2] == m1.ram[m1.regs[SP] - 2]
      && m2.ram[m1.regs[SP] - 1] == m1.ram[m1.regs[SP] - 1]
    requires m2.regs[SP] + m2.regs[SZ] < cs && m2.ram[m2.regs[PC]] == RET
    ensures Next(m, cs).m.regs[SP] == m.regs[SP] + m.regs[SZ] + 2
    ensures Next(m2, cs).Running?
    ensures var m3 := Next(m2, cs).m;
      && m3.regs[SP] == m.regs[SP] && m3.regs[SZ] == m.regs[SZ]
      && m3.regs[PC] == Wrap(m.regs[PC] as int + 3)
  {
    var sp, sz := m.regs[SP], m.regs[SZ];
    var m1 := Next(m, cs).m;
    assert m1.regs[SP] == sp + sz + 2;
    assert m1.ram[sp + sz] == sz && m1.ram[sp + sz + 1] == Wrap(m.regs[PC] as int + 3);
    assert Next(m2, cs) == Return(m2);
  }

  // ---------------------------------------------------------------------------
  // Runs.

  /** A run that ends with an exit code ends with -1 or 1, in the machine whose
      next pass halts with that code. */
  lemma {:induction false} RunExit(m: Machine, cs: byte, fuel: nat)
    requires Valid(m)
    ensures var r := RunSpec(m, cs, fuel);
      r.Exit? ==> (r.code == -1 || r.code == 1) && Next(r.m, cs) == Halted(r.code)
    decreases fuel
  {
    if fuel > 0 && Next(m, cs).Running? {
      RunExit(Next(m, cs).m, cs, fuel - 1);
    }
  }

  /** A run that has ended, with an exit code or in undefined behaviour, ends the
      same way with any larger budget. */
  lemma {:induction false} RunMonotone(m: Machine, cs: byte, fuel: nat, more: nat)
    requires Valid(m) && fuel <= more && !RunSpec(m, cs, fuel).Exhausted?
    ensures RunSpec(m, cs, more) == RunSpec(m, cs, fuel)
    decreases fuel
  {
    if Next(m, cs).Running? {
      RunMonotone(Next(m, cs).m, cs, fuel - 1, more - 1);
    }
  }

  /** A budget of a + b passes runs a passes, then b more from where they stopped. */
  lemma {:induction false} RunSplit(m: Machine, cs: byte, a: nat, b: nat)
    requires Valid(m)
    ensures RunSpec(m, cs, a + b) ==
      match RunSpec(m, cs, a)
      case Exhausted(m') => RunSpec(m', cs, b)
      case other => other
    decreases a
  {
    if a > 0 && Next(m, cs).Running? {
      RunSplit(Next(m, cs).m, cs, a - 1, b);
    }
  }

  /** A booted machine halts with -1 on its first pass, before any instruction
      runs, exactly when the code segment starts at or below the stack base. */
  lemma BootGuard(ram: seq<byte>, cs: byte, fuel: nat)
    requires |ram| == RAM_SIZE && fuel > 0
    ensures Next(Boot(ram), cs) == Halted(-1) <==> cs <= STACK_BASE
    ensures cs <= STACK_BASE ==> RunSpec(Boot(ram), cs, fuel) == Exit(-1, Boot(ram))
  {
  }
}
