/** The disassembler: a read-only walk of every function in the table that lists
    each instruction with its operands as print_args shows them. The listing is
    kept as decoded records; the text layout of printf is not modelled. */
module Disassembler {
  import opened Isa
  import opened Code

  /** The letter print_args shows for a stack id: an entry of the 32-letter table,
      or a read past its end (undefined behaviour in the C). */
  datatype Glyph = Letter(c: char) | PastTable

  function GlyphOf(id: byte): (g: Glyph)
    ensures id < |StackSymbols| <==> g.Letter?
  {
    if id < |StackSymbols| then Letter(StackSymbols[id]) else PastTable
  }

  /** One operand as print_args shows it: a constant in decimal, a register index,
      a stack id as a letter (SYMBL) or as a bracketed letter (PNTR). A mode of 4
      or more has no case and shows nothing. */
  datatype Operand =
    | Constant(value: byte)
    | Register(index: byte)
    | Symbol(id: byte, glyph: Glyph)
    | Pointer(id: byte, glyph: Glyph)
    | Unshown(mode: byte)

  /** print_args. */
  function Arg(mode: byte, v: byte): (o: Operand)
  {
    if mode == CNST then Constant(v)
    else if mode == RGSTR then Register(v)
    else if mode == SYMBL then Symbol(v, GlyphOf(v))
    else if mode == PNTR then Pointer(v, GlyphOf(v))
    else Unshown(mode)
  }

  /** The mode byte an operand was shown from. */
  function ModeOf(o: Operand): byte
  {
    match o
    case Constant(_) => CNST
    case Register(_) => RGSTR
    case Symbol(_, _) => SYMBL
    case Pointer(_, _) => PNTR
    case Unshown(m) => m
  }

  /** The value byte an operand was shown from, where it shows one. */
  function ValueOf(o: Operand): byte
  {
    match o
    case Constant(v) => v
    case Register(v) => v
    case Symbol(v, _) => v
    case Pointer(v, _) => v
    case Unshown(_) => 0
  }

  /** One listed instruction: its opcode and its shown operands. */
  datatype Line = Line(op: byte, args: seq<Operand>)

  /** The line for the instruction at a, whose bytes all lie in RAM. */
  function Decoded(ram: seq<byte>, a: nat): (l: Line)
    requires |ram| == RAM_SIZE && a < RAM_SIZE && a + Length(ram[a]) <= RAM_SIZE
    ensures l.op == ram[a] && |l.args| == Arity(ram[a])
  {
    var op := ram[a];
    if Arity(op) == 0 then Line(op, [])
    else if Arity(op) == 1 then Line(op, [Arg(ram[a + 1], ram[a + 2])])
    else Line(op, [Arg(ram[a + 1], ram[a + 2]), Arg(ram[a + 3], ram[a + 4])])
  }

  /** The listing of one function: complete up to its RET, cut off where the C
      spins on a byte that is no opcode, or undefined once it reads past RAM[255]. */
  datatype Listing = Shown(lines: seq<Line>) | Stuck(lines: seq<Line>) | Unbounded

  /** A listing with the line l put in front. */
  function Cons(l: Line, r: Listing): Listing
  {
    match r
    case Shown(ls) => Shown([l] + ls)
    case Stuck(ls) => Stuck([l] + ls)
    case Unbounded => Unbounded
  }

  /** A listing with the lines ls put in front. */
  function Prefix(ls: seq<Line>, r: Listing): Listing
  {
    match r
    case Shown(rs) => Shown(ls + rs)
    case Stuck(rs) => Stuck(ls + rs)
    case Unbounded => Unbounded
  }

  /** The `while(1)` loop of one function, from address p. */
  function FunctionListing(ram: seq<byte>, p: nat): (r: Listing)
    requires |ram| == RAM_SIZE && p < RAM_SIZE
    decreases RAM_SIZE - p
  {
    var op := ram[p];
    if op == RET then Shown([Line(RET, [])])
    else if op > 7 then Stuck([])
    // Either the operands or the next opcode lie past RAM[255].
    else if p + Length(op) >= RAM_SIZE then Unbounded
    else Cons(Decoded(ram, p), FunctionListing(ram, p + Length(op)))
  }

  /** One listed function: its label (its index in the table), its entry and its lines. */
  datatype Func = Func(index: nat, entry: byte, lines: seq<Line>)

  /** The whole listing: complete, cut off inside its last function, or undefined. */
  datatype Disassembly = Complete(funcs: seq<Func>) | Hung(funcs: seq<Func>) | Undefined

  /** The loop over table entries j, j + 1, ..., 7; empty entries are skipped. */
  function ListFrom(ram: seq<byte>, j: nat): (r: Disassembly)
    requires |ram| == RAM_SIZE && j <= TABLE_SIZE
    decreases TABLE_SIZE - j
  {
    if j == TABLE_SIZE then Complete([])
    else if ram[j] == NO_FUNCTION then ListFrom(ram, j + 1)
    else
      match FunctionListing(ram, ram[j])
      case Shown(ls) => Put(Func(j, ram[j], ls), ListFrom(ram, j + 1))
      case Stuck(ls) => Hung([Func(j, ram[j], ls)])
      case Unbounded => Undefined
  }

  /** A disassembly with the function f put in front. */
  function Put(f: Func, d: Disassembly): Disassembly
  {
    match d
    case Complete(fs) => Complete([f] + fs)
    case Hung(fs) => Hung([f] + fs)
    case Undefined => Undefined
  }

  function DisassemblySpec(ram: seq<byte>): Disassembly
    requires |ram| == RAM_SIZE
  {
    ListFrom(ram, 0)
  }

  // ---------------------------------------------------------------------------
  // The C loops.

  /** The listing loop of one function, from entry p. */
  method ListFunction(ram: array<byte>, p: nat) returns (lines: seq<Line>, status: Status)
    requires ram.Length == RAM_SIZE && p < RAM_SIZE
    ensures match FunctionListing(ram[..], p)
      case Shown(ls) => status == Done && lines == ls
      case Stuck(ls) => status == Spinning && lines == ls
      case Unbounded => status == Overrun
  {
    lines := [];
    var i := p;
    while true
      invariant i < RAM_SIZE
      invariant FunctionListing(ram[..], p) == Prefix(lines, FunctionListing(ram[..], i))
      decreases RAM_SIZE - i
    {
      var op := ram[i];
      if op == RET {
        lines := lines + [Line(RET, [])];
        return lines, Done;
      }
      if op > 7 {
        return lines, Spinning;
      }
      if i + Length(op) >= RAM_SIZE {
        return lines, Overrun;
      }
      var line;
      if op == CAL || op == PRINT || op == NOT || op == EQU {
        line := Line(op, [Arg(ram[i + 1], ram[i + 2])]);
      } else {
        line := Line(op, [Arg(ram[i + 1], ram[i + 2]), Arg(ram[i + 3], ram[i + 4])]);
      }
      assert line == Decoded(ram[..], i);
      assert FunctionListing(ram[..], i) == Cons(line, FunctionListing(ram[..], i + Length(op)));
      PrefixCons(lines, line, FunctionListing(ram[..], i + Length(op)));
      lines := lines + [line];
      i := i + Length(op);
    }
  }

  lemma PrefixCons(ls: seq<Line>, l: Line, r: Listing)
    ensures Prefix(ls, Cons(l, r)) == Prefix(ls + [l], r)
  {
    match r
    case Shown(rs) => assert ls + ([l] + rs) == (ls + [l]) + rs;
    case Stuck(rs) => assert ls + ([l] + rs) == (ls + [l]) + rs;
    case Unbounded =>
  }

  /** The disassembly section of main: every non-empty table entry, in label order. */
  method Disassemble(ram: array<byte>) returns (funcs: seq<Func>, status: Status)
    requires ram.Length == RAM_SIZE
    ensures match DisassemblySpec(ram[..])
      case Complete(fs) => status == Done && funcs == fs
      case Hung(fs) => status == Spinning && funcs == fs
      case Undefined => status == Overrun
  {
    funcs := [];
    var j := 0;
    while j < TABLE_SIZE
      invariant j <= TABLE_SIZE
      invariant DisassemblySpec(ram[..]) == Gather(funcs, ListFrom(ram[..], j))
    {
      var entry := ram[j];
      if entry != NO_FUNCTION {
        var lines, st := ListFunction(ram, entry);
        var f := Func(j, entry, lines);
        GatherPut(funcs, f, ListFrom(ram[..], j + 1));
        if st == Spinning {
          return funcs + [f], Spinning;
        } else if st == Overrun {
          return funcs, Overrun;
        }
        funcs := funcs + [f];
      }
      j := j + 1;
    }
    status := Done;
  }

  /** A disassembly with the functions fs put in front. */
  function Gather(fs: seq<Func>, d: Disassembly): Disassembly
  {
    match d
    case Complete(gs) => Complete(fs + gs)
    case Hung(gs) => Hung(fs + gs)
    case Undefined => Undefined
  }

  lemma GatherPut(fs: seq<Func>, f: Func, d: Disassembly)
    ensures Gather(fs, Put(f, d)) == Gather(fs + [f], d)
  {
    match d
    case Complete(gs) => assert fs + ([f] + gs) == (fs + [f]) + gs;
    case Hung(gs) => assert fs + ([f] + gs) == (fs + [f]) + gs;
    case Undefined =>
  }
}
