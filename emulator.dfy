/** main as a whole, from the mapped image on: load, stop on a load error, resolve,
    disassemble, then run the virtual machine. The resolver's error flag is never
    consulted before the run. */
module Emulator {
  import opened Isa
  import Code
  import Loader
  import Resolver
  import Disassembler
  import Vm
  import VmFacts

  /** How main goes: the load failed (main returns -1), the semantic pass or the
      disassembly never finished (a spin or a read past RAM[255]), or the machine
      ran; then the resolver's flag, the listing and the run are what it printed. */
  datatype Session =
    | Rejected
    | Unresolved(status: Code.Status)
    | Unlisted(status: Code.Status, funcs: seq<Disassembler.Func>)
    | Ran(resolveErr: int, funcs: seq<Disassembler.Func>, final: Vm.Final)

  /** main with a budget of `fuel` passes of the run loop. */
  function EmulateSpec(buf: seq<byte>, fuel: nat): (r: Session)
    ensures r.Ran? && r.final.Exit? ==> r.final.code == -1 || r.final.code == 1
  {
    var l := Loader.LoadSpec(buf);
    if l.err < 0 then Rejected else AfterLoad(l.ram, Wrap(l.ptr), fuel)
  }

  /** main after a load without error, from the loaded RAM and CS. */
  function AfterLoad(ram: seq<byte>, cs: byte, fuel: nat): (r: Session)
    requires |ram| == RAM_SIZE
    ensures r.Ran? && r.final.Exit? ==> r.final.code == -1 || r.final.code == 1
  {
    match Resolver.ResolveSpec(ram)
    case Hangs => Unresolved(Code.Spinning)
    case OutOfBounds => Unresolved(Code.Overrun)
    case Finished(t) => AfterResolve(t.err, t.ram, cs, fuel)
  }

  /** main after a semantic pass that finished, from the rewritten RAM. */
  function AfterResolve(err: int, ram: seq<byte>, cs: byte, fuel: nat): (r: Session)
    requires |ram| == RAM_SIZE
    ensures r.Ran? && r.final.Exit? ==> r.final.code == -1 || r.final.code == 1
  {
    match Disassembler.DisassemblySpec(ram)
    case Hung(fs) => Unlisted(Code.Spinning, fs)
    case Undefined => Unlisted(Code.Overrun, [])
    case Complete(fs) =>
      var m := Vm.Boot(ram);
      VmFacts.RunExit(m, cs, fuel);
      Ran(err, fs, Vm.RunSpec(m, cs, fuel))
  }

  /** main runs the machine exactly when the load has no error, the semantic pass
      finishes and the disassembly completes; the run then starts from the RAM as
      the semantic pass rewrote it, with CS one past the loader's RAM_ptr. */
  lemma RunsResolvedCode(buf: seq<byte>, fuel: nat)
    ensures var l := Loader.LoadSpec(buf);
      var resolved := Resolver.ResolveSpec(l.ram);
      && (EmulateSpec(buf, fuel).Ran? <==>
            l.err >= 0 && resolved.Finished? && Disassembler.DisassemblySpec(resolved.s.ram).Complete?)
      && (EmulateSpec(buf, fuel).Ran? ==>
            && EmulateSpec(buf, fuel).resolveErr == resolved.s.err
            && EmulateSpec(buf, fuel).final == Vm.RunSpec(Vm.Boot(resolved.s.ram), Wrap(l.ptr), fuel))
  {
  }

  /** The semantic pass's flag decides nothing: from the same rewritten RAM, a pass
      that flagged an error lists and runs the program exactly as one that did not. */
  lemma FlagIgnored(err: int, err': int, ram: seq<byte>, cs: byte, fuel: nat)
    requires |ram| == RAM_SIZE
    ensures var r, r' := AfterResolve(err, ram, cs, fuel), AfterResolve(err', ram, cs, fuel);
      && r.Ran? == r'.Ran?
      && (r.Ran? ==> r.resolveErr == err && r'.resolveErr == err' && r.funcs == r'.funcs && r.final == r'.final)
      && (!r.Ran? ==> r == r')
  {
  }

  /** main over zeroed RAM and a fresh register bank. */
  method Emulate(buf: seq<byte>, fuel: nat) returns (r: Session)
    ensures r == EmulateSpec(buf, fuel)
  {
    var ram := new byte[RAM_SIZE](_ => 0);
    var cs, err := Loader.Load(buf, ram);
    if err < 0 {
      return Rejected;
    }
    r := Continue(ram, cs, fuel);
  }

  /** The semantic pass, the disassembly and the run, in place over RAM. */
  method Continue(ram: array<byte>, cs: byte, fuel: nat) returns (r: Session)
    requires ram.Length == RAM_SIZE
    modifies ram
    ensures r == AfterLoad(old(ram[..]), cs, fuel)
  {
    var resolveErr, status := Resolver.Resolve(ram);
    if status != Code.Done {
      return Unresolved(status);
    }
    var funcs, listed := Disassembler.Disassemble(ram);
    if listed != Code.Done {
      return Unlisted(listed, if listed == Code.Spinning then funcs else []);
    }
    var final := Execute(ram, cs, fuel);
    return Ran(resolveErr, funcs, final);
  }

  /** The virtual machine section of main: a fresh register bank, then the run. */
  method Execute(ram: array<byte>, cs: byte, fuel: nat) returns (final: Vm.Final)
    requires ram.Length == RAM_SIZE
    modifies ram
    ensures final == Vm.RunSpec(Vm.Boot(old(ram[..])), cs, fuel)
  {
    var regs := new byte[REG_COUNT](_ => 0);
    regs[SP], regs[PC] := STACK_BASE, ram[NO_FUNCTION];
    assert Vm.State(regs, ram) == Vm.Boot(ram[..]);
    var code, ending := Vm.Run(regs, ram, cs, fuel);
    final := match ending
      case Exited => Vm.Exit(code, Vm.State(regs, ram))
      case OutOfFuel => Vm.Exhausted(Vm.State(regs, ram))
      case Faulted => Vm.Crashed;
  }
}
