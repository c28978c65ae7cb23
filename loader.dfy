/** The loader: decodes the packed program image function by function and writes
    fixed-width byte code downward from RAM[255], filling the function table in
    RAM[0..7]. The pure functions state the instruction grammar as tables and the
    loader's effect as a function of the image; the methods follow the C loop. */
module Loader {
  import opened Isa
  import opened Bits

  /** The loader's scratch variables curr_op, arg1, arg1v, arg2, arg2v. They live
      across instructions, so a value the grammar does not read keeps its old one. */
  datatype Latch = Latch(op: byte, arg1: byte, arg1v: byte, arg2: byte, arg2v: byte)

  /** The loader between two fields: RAM image, bit cursor (seg_ptr), code pointer
      (RAM_ptr: the next byte to write, moving down), error flag and latch. */
  datatype Loading = Loading(ram: seq<byte>, seg: int, ptr: int, err: int, latch: Latch)

  /** A state the loader can be in: 256 cells, a cursor inside the image or just
      below it, and a code pointer that the overflow test keeps above 3. */
  predicate Valid(buf: seq<byte>, s: Loading)
  {
    |s.ram| == RAM_SIZE && -1 <= s.seg < 8 * |buf| && 4 <= s.ptr <= 255
  }

  // ---------------------------------------------------------------------------
  // The instruction grammar as tables.

  /** Width of an operand's mode field: 2 bits, except EQU's 3. */
  function ModeWidth(op: byte): nat
  {
    if op == EQU then 3 else 2
  }

  /** Width of the value field of operand k in mode m. 0 means that the loader reads
      no value field and keeps the previous one (the mode has no case in its switch). */
  function ValueWidth(op: byte, k: nat, m: byte): nat
  {
    if op == CAL then 8
    else if op == REF && k == 1 then 5
    else if op == ADD || op == NOT || op == EQU then 3
    else if m == CNST then (if (op == MOV && k == 1) || (op == REF && k == 2) then 0 else 8)
    else if m == RGSTR then 3
    else 5
  }

  /** The modes the loader accepts for operand k. */
  predicate LegalMode(op: byte, k: nat, m: byte)
  {
    if op == MOV && k == 1 then m != CNST
    else if op == CAL then m == CNST
    else if op == REF then (if k == 1 then m == SYMBL else m != CNST)
    else if op == ADD || op == NOT || op == EQU then m == RGSTR
    else true
  }

  /** The values the loader accepts: a called label is at most 7. */
  predicate LegalValue(op: byte, k: nat, v: byte)
  {
    op == CAL ==> v <= 7
  }

  /** How far RAM_ptr moves down after an instruction: its length, except that NOT
      writes its 3 bytes and leaves RAM_ptr where it was. */
  function Drop(op: byte): nat
  {
    if op == NOT then 0 else Length(op)
  }

  /** ram with the byte code of the latched instruction written so that its last
      byte lands at address `end`: the opcode, then a mode and a value per operand. */
  function Store(ram: seq<byte>, end: int, l: Latch): (r: seq<byte>)
    requires Length(l.op) <= end + 1 && end < |ram|
    ensures |r| == |ram|
  {
    if Arity(l.op) == 0 then ram[end := l.op]
    else if Arity(l.op) == 1 then ram[end - 2 := l.op][end - 1 := l.arg1][end := l.arg1v]
    else ram[end - 4 := l.op][end - 3 := l.arg1][end - 2 := l.arg1v][end - 1 := l.arg2][end := l.arg2v]
  }

  // ---------------------------------------------------------------------------
  // The loader's effect, as functions of the image.

  /** Reads a value field of width w, or keeps `keep` when w is 0. */
  function ValueRead(buf: seq<byte>, pos: int, err: int, w: nat, keep: byte): (r: Read)
    requires -1 <= pos < 8 * |buf|
    ensures -1 <= r.pos <= pos
  {
    if w == 0 then Read(keep, pos, err) else ReadField(buf, pos, err, w)
  }

  /** Reads operand k of the latched opcode: its mode, the mode check, its value
      (if the mode has a value field) and the value check. */
  function ReadOperand(buf: seq<byte>, s: Loading, k: nat): (r: Loading)
    requires Valid(buf, s) && (k == 1 || k == 2)
    ensures Valid(buf, r) && r.seg <= s.seg
    ensures r.ram == s.ram && r.ptr == s.ptr && r.latch.op == s.latch.op
  {
    var op := s.latch.op;
    var m := ReadField(buf, s.seg, s.err, ModeWidth(op));
    var e := if LegalMode(op, k, m.value) then m.err else -1;
    var w := ValueWidth(op, k, m.value);
    var v := ValueRead(buf, m.pos, e, w, if k == 1 then s.latch.arg1v else s.latch.arg2v);
    var e' := if LegalValue(op, k, v.value) then v.err else -1;
    var latch := if k == 1 then s.latch.(arg1 := m.value, arg1v := v.value)
                 else s.latch.(arg2 := m.value, arg2v := v.value);
    s.(seg := v.pos, err := e', latch := latch)
  }

  /** Decodes one instruction field by field and stores it. Phase 0 reads the
      3-bit opcode into the latch; phase k, for k from 1 to the opcode's arity,
      reads operand k; the last phase writes the instruction's byte code so that
      it ends at RAM_ptr and moves RAM_ptr down by Drop(op). */
  function Decode(buf: seq<byte>, s: Loading, phase: nat): (r: Loading)
    requires Valid(buf, s) && s.ptr > 8 && phase <= 3
    ensures Valid(buf, r) && r.seg <= s.seg
    decreases 3 - phase
  {
    if phase == 0 then
      var o := ReadField(buf, s.seg, s.err, 3);
      Decode(buf, s.(seg := o.pos, err := o.err, latch := s.latch.(op := o.value)), 1)
    else if phase <= Arity(s.latch.op) then
      Decode(buf, ReadOperand(buf, s, phase), phase + 1)
    else
      s.(ram := Store(s.ram, s.ptr, s.latch), ptr := s.ptr - Drop(s.latch.op))
  }

  /** One turn of the `for` loop: the overflow test, which sets err = -1 and
      leaves the loop once RAM_ptr <= 8, then one instruction. A state that fails
      the test is left unchanged by further turns, so a turn after the `break`
      changes nothing. */
  function BodyTurn(buf: seq<byte>, s: Loading): (r: Loading)
    requires Valid(buf, s)
    ensures Valid(buf, r) && r.seg <= s.seg
  {
    if s.ptr <= 8 then s.(err := -1) else Decode(buf, s, 0)
  }

  /** The body of one function after n turns of its loop. */
  function BodySpec(buf: seq<byte>, s: Loading, n: nat): (r: Loading)
    requires Valid(buf, s)
    ensures Valid(buf, r) && r.seg <= s.seg
  {
    if n == 0 then s else BodyTurn(buf, BodySpec(buf, s, n - 1))
  }

  /** A turn from a state that has failed the overflow test changes nothing. */
  lemma TurnStuck(buf: seq<byte>, s: Loading)
    requires Valid(buf, s) && s.ptr <= 8 && s.err == -1
    ensures BodyTurn(buf, s) == s
  {
  }

  /** After the overflow test has failed, the remaining turns change nothing. */
  lemma {:induction false} BodyStuck(buf: seq<byte>, s: Loading, i: nat, n: nat, t: Loading)
    requires Valid(buf, s) && i <= n
    requires BodySpec(buf, s, i) == t && t.ptr <= 8 && t.err == -1
    ensures BodySpec(buf, s, n) == t
    decreases n
  {
    if i < n {
      BodyStuck(buf, s, i, n - 1, t);
      TurnStuck(buf, t);
    }
  }

  /** Records the function just loaded under `tag`: its entry is RAM_ptr + 1, kept
      in an unsigned char. A label whose entry is already set is an error. */
  function Register(s: Loading, tag: byte): (r: (Loading, bool))
    requires |s.ram| == RAM_SIZE && tag < 8
    ensures r.1 <==> s.ram[tag] != NO_FUNCTION
    ensures |r.0.ram| == RAM_SIZE && r.0.ram[tag] == (if r.1 then s.ram[tag] else Wrap(s.ptr + 1))
    ensures forall a :: 0 <= a < RAM_SIZE && a != tag ==> r.0.ram[a] == s.ram[a]
    ensures r.0.err == (if r.1 then -1 else s.err)
    ensures r.0.seg == s.seg && r.0.ptr == s.ptr
  {
    if s.ram[tag] == NO_FUNCTION then
      (s.(ram := s.ram[tag := Wrap(s.ptr + 1)], latch := s.latch.(arg1 := 0)), false)
    else
      (s.(err := -1, latch := s.latch.(arg1 := tag)), true)
  }

  /** One pass of the outer loop: the 5-bit size (0 ends loading), the body, the
      3-bit label. The boolean says whether the C breaks out of the loop. */
  function FunctionSpec(buf: seq<byte>, s: Loading): (r: (Loading, bool))
    requires Valid(buf, s)
    ensures Valid(buf, r.0) && r.0.seg <= s.seg
    ensures !r.1 ==> r.0.seg <= s.seg - 5
  {
    var size := ReadField(buf, s.seg, s.err, 5);
    if size.value == 0 then (s.(seg := size.pos, err := size.err), true)
    else
      var b := BodySpec(buf, s.(seg := size.pos, err := size.err), size.value);
      var l := ReadField(buf, b.seg, b.err, 3);
      Register(b.(seg := l.pos, err := l.err), l.value)
  }

  /** The outer loop, run while err != -1. */
  function LoadLoop(buf: seq<byte>, s: Loading): (r: Loading)
    requires Valid(buf, s)
    ensures Valid(buf, r)
    decreases s.seg + 1
  {
    if s.err == -1 then s
    else
      var t := FunctionSpec(buf, s);
      if t.1 then t.0 else LoadLoop(buf, t.0)
  }

  /** Zeroed RAM, the cursor on the last bit of the image, RAM_ptr at 255, no error. */
  function Initial(buf: seq<byte>): (s: Loading)
    ensures Valid(buf, s)
  {
    Loading(seq(RAM_SIZE, _ => 0), 8 * |buf| - 1, 255, 0, Latch(0, 0, 0, 0, 0))
  }

  /** The whole loader: the loop, the entry-point test, and RAM_ptr++ (so that `ptr`
      is the code segment boundary CS). */
  function LoadSpec(buf: seq<byte>): (r: Loading)
    ensures |r.ram| == RAM_SIZE && 5 <= r.ptr <= RAM_SIZE
    ensures r.ram[NO_FUNCTION] == NO_FUNCTION ==> r.err == -1
  {
    var s := LoadLoop(buf, Initial(buf));
    var s1 := if s.ram[0] == NO_FUNCTION then s.(err := -1) else s;
    s1.(ptr := s1.ptr + 1)
  }

  // ---------------------------------------------------------------------------
  // The C loader.

  /** The operand and store phases of a one-operand opcode. */
  lemma StoreOne(buf: seq<byte>, s: Loading)
    requires Valid(buf, s) && s.ptr > 8 && Arity(s.latch.op) == 1
    ensures var r := ReadOperand(buf, s, 1);
      Decode(buf, s, 1) == r.(ram := Store(s.ram, s.ptr, r.latch), ptr := s.ptr - Drop(s.latch.op))
  {
    assert Decode(buf, s, 1) == Decode(buf, ReadOperand(buf, s, 1), 2);
  }

  /** The operand and store phases of a two-operand opcode. */
  lemma StoreTwo(buf: seq<byte>, s: Loading)
    requires Valid(buf, s) && s.ptr > 8 && Arity(s.latch.op) == 2
    ensures var r := ReadOperand(buf, ReadOperand(buf, s, 1), 2);
      Decode(buf, s, 1) == r.(ram := Store(s.ram, s.ptr, r.latch), ptr := s.ptr - Length(s.latch.op))
  {
    var s2 := ReadOperand(buf, s, 1);
    assert Decode(buf, s, 1) == Decode(buf, s2, 2);
    assert Decode(buf, s2, 2) == Decode(buf, ReadOperand(buf, s2, 2), 3);
  }

  /** The switch on the mode of MOV's operands, REF's source and PRINT's operand:
      3 value bits for RGSTR, 5 for SYMBL and PNTR, 8 for CNST where CNST has a
      case (MOV's source, PRINT); where it has none the old value stays. */
  method ReadModeValue(buf: seq<byte>, op: byte, k: nat, mode: byte, keep: byte, pos: int, err: int)
    returns (v: byte, pos': int, err': int)
    requires (op == MOV && (k == 1 || k == 2)) || (op == REF && k == 2) || (op == PRINT && k == 1)
    requires -1 <= pos < 8 * |buf| && mode < 4
    ensures Read(v, pos', err') == ValueRead(buf, pos, err, ValueWidth(op, k, mode), keep)
  {
    v, pos', err' := keep, pos, err;
    if mode == CNST && ((op == MOV && k == 2) || op == PRINT) {
      v, pos', err' := ReadBits(buf, 8, pos, err);
    } else if mode == RGSTR {
      v, pos', err' := ReadBits(buf, 3, pos, err);
    } else if mode == SYMBL || mode == PNTR {
      v, pos', err' := ReadBits(buf, 5, pos, err);
    }
  }

  /** The five stores of a two-operand instruction, the last one at RAM[ptr]. */
  method StoreFive(ram: array<byte>, ptr: int, l: Latch)
    requires ram.Length == RAM_SIZE && 4 <= ptr < RAM_SIZE && Arity(l.op) == 2
    modifies ram
    ensures ram[..] == Store(old(ram[..]), ptr, l)
  {
    ram[ptr - 4] := l.op;
    ram[ptr - 3] := l.arg1;
    ram[ptr - 2] := l.arg1v;
    ram[ptr - 1] := l.arg2;
    ram[ptr] := l.arg2v;
  }

  /** Case MOV of the switch on curr_op. */
  method LoadMov(buf: seq<byte>, ram: array<byte>, seg: int, ptr: int, err: int, latch: Latch)
    returns (seg': int, ptr': int, err': int, latch': Latch)
    requires ram.Length == RAM_SIZE && Valid(buf, Loading(ram[..], seg, ptr, err, latch)) && ptr > 8
    requires latch.op == MOV
    modifies ram
    ensures Loading(ram[..], seg', ptr', err', latch') == Decode(buf, Loading(old(ram[..]), seg, ptr, err, latch), 1)
  {
    ghost var s0 := Loading(ram[..], seg, ptr, err, latch);
    var seg1, err1, latch1 := MovOperand(buf, ram[..], seg, ptr, err, latch, 1);
    seg', err', latch' := MovOperand(buf, ram[..], seg1, ptr, err1, latch1, 2);
    StoreTwo(buf, s0);
    StoreFive(ram, ptr, latch');
    ptr' := ptr - 5;
  }

  /** One operand of MOV: a 2-bit mode, which must not be CNST for the destination,
      then the value field its mode calls for. */
  method MovOperand(buf: seq<byte>, ghost r0: seq<byte>, seg: int, ptr: int, err: int, latch: Latch, k: nat)
    returns (seg': int, err': int, latch': Latch)
    requires Valid(buf, Loading(r0, seg, ptr, err, latch)) && latch.op == MOV && (k == 1 || k == 2)
    ensures Loading(r0, seg', ptr, err', latch') == ReadOperand(buf, Loading(r0, seg, ptr, err, latch), k)
  {
    var mode, v;
    mode, seg', err' := ReadBits(buf, 2, seg, err);
    if k == 1 && mode == CNST {
      err' := -1;
    }
    v, seg', err' := ReadModeValue(buf, MOV, k, mode, if k == 1 then latch.arg1v else latch.arg2v, seg', err');
    latch' := if k == 1 then latch.(arg1 := mode, arg1v := v) else latch.(arg2 := mode, arg2v := v);
  }

  /** Case CAL of the switch on curr_op. */
  method LoadCal(buf: seq<byte>, ram: array<byte>, seg: int, ptr: int, err: int, latch: Latch)
    returns (seg': int, ptr': int, err': int, latch': Latch)
    requires ram.Length == RAM_SIZE && Valid(buf, Loading(ram[..], seg, ptr, err, latch)) && ptr > 8
    requires latch.op == CAL
    modifies ram
    ensures Loading(ram[..], seg', ptr', err', latch') == Decode(buf, Loading(old(ram[..]), seg, ptr, err, latch), 1)
  {
    ghost var r0 := ram[..];
    var arg1, arg1v;
    seg', err' := seg, err;
    arg1, seg', err' := ReadBits(buf, 2, seg', err');
    if arg1 != CNST {
      err' := -1;
    }
    arg1v, seg', err' := ReadBits(buf, 8, seg', err');
    if arg1v > 7 {
      err' := -1;
    }
    latch' := latch.(arg1 := arg1, arg1v := arg1v);
    assert Loading(r0, seg', ptr, err', latch') == ReadOperand(buf, Loading(r0, seg, ptr, err, latch), 1);
    StoreOne(buf, Loading(r0, seg, ptr, err, latch));
    ram[ptr - 2] := CAL;
    ram[ptr - 1] := arg1;
    ram[ptr] := arg1v;
    assert ram[..] == Store(r0, ptr, latch');
    ptr' := ptr - 3;
  }

  /** Case REF of the switch on curr_op. */
  method LoadRef(buf: seq<byte>, ram: array<byte>, seg: int, ptr: int, err: int, latch: Latch)
    returns (seg': int, ptr': int, err': int, latch': Latch)
    requires ram.Length == RAM_SIZE && Valid(buf, Loading(ram[..], seg, ptr, err, latch)) && ptr > 8
    requires latch.op == REF
    modifies ram
    ensures Loading(ram[..], seg', ptr', err', latch') == Decode(buf, Loading(old(ram[..]), seg, ptr, err, latch), 1)
  {
    ghost var s0 := Loading(ram[..], seg, ptr, err, latch);
    var seg1, err1, latch1 := RefOperand(buf, ram[..], seg, ptr, err, latch, 1);
    seg', err', latch' := RefOperand(buf, ram[..], seg1, ptr, err1, latch1, 2);
    StoreTwo(buf, s0);
    StoreFive(ram, ptr, latch');
    ptr' := ptr - 5;
  }

  /** One operand of REF: the destination is a SYMBL mode and a 5-bit slot; the
      source is any mode but CNST, then the value field its mode calls for. */
  method RefOperand(buf: seq<byte>, ghost r0: seq<byte>, seg: int, ptr: int, err: int, latch: Latch, k: nat)
    returns (seg': int, err': int, latch': Latch)
    requires Valid(buf, Loading(r0, seg, ptr, err, latch)) && latch.op == REF && (k == 1 || k == 2)
    ensures Loading(r0, seg', ptr, err', latch') == ReadOperand(buf, Loading(r0, seg, ptr, err, latch), k)
  {
    var mode, v;
    mode, seg', err' := ReadBits(buf, 2, seg, err);
    if k == 1 {
      if mode != SYMBL {
        err' := -1;
      }
      v, seg', err' := ReadBits(buf, 5, seg', err');
      latch' := latch.(arg1 := mode, arg1v := v);
    } else {
      if mode == CNST {
        err' := -1;
      }
      v, seg', err' := ReadModeValue(buf, REF, 2, mode, latch.arg2v, seg', err');
      latch' := latch.(arg2 := mode, arg2v := v);
    }
  }

  /** Case ADD of the switch on curr_op. */
  method LoadAdd(buf: seq<byte>, ram: array<byte>, seg: int, ptr: int, err: int, latch: Latch)
    returns (seg': int, ptr': int, err': int, latch': Latch)
    requires ram.Length == RAM_SIZE && Valid(buf, Loading(ram[..], seg, ptr, err, latch)) && ptr > 8
    requires latch.op == ADD
    modifies ram
    ensures Loading(ram[..], seg', ptr', err', latch') == Decode(buf, Loading(old(ram[..]), seg, ptr, err, latch), 1)
  {
    ghost var s0 := Loading(ram[..], seg, ptr, err, latch);
    var seg1, err1, latch1 := AddOperand(buf, ram[..], seg, ptr, err, latch, 1);
    seg', err', latch' := AddOperand(buf, ram[..], seg1, ptr, err1, latch1, 2);
    StoreTwo(buf, s0);
    StoreFive(ram, ptr, latch');
    ptr' := ptr - 5;
  }

  /** One operand of ADD: a 2-bit mode that must be RGSTR, then a 3-bit register. */
  method AddOperand(buf: seq<byte>, ghost r0: seq<byte>, seg: int, ptr: int, err: int, latch: Latch, k: nat)
    returns (seg': int, err': int, latch': Latch)
    requires Valid(buf, Loading(r0, seg, ptr, err, latch)) && latch.op == ADD && (k == 1 || k == 2)
    ensures Loading(r0, seg', ptr, err', latch') == ReadOperand(buf, Loading(r0, seg, ptr, err, latch), k)
  {
    var mode, v;
    mode, seg', err' := ReadBits(buf, 2, seg, err);
    if mode != RGSTR {
      err' := -1;
    }
    v, seg', err' := ReadBits(buf, 3, seg', err');
    latch' := if k == 1 then latch.(arg1 := mode, arg1v := v) else latch.(arg2 := mode, arg2v := v);
  }

  /** Case PRINT of the switch on curr_op. */
  method LoadPrint(buf: seq<byte>, ram: array<byte>, seg: int, ptr: int, err: int, latch: Latch)
    returns (seg': int, ptr': int, err': int, latch': Latch)
    requires ram.Length == RAM_SIZE && Valid(buf, Loading(ram[..], seg, ptr, err, latch)) && ptr > 8
    requires latch.op == PRINT
    modifies ram
    ensures Loading(ram[..], seg', ptr', err', latch') == Decode(buf, Loading(old(ram[..]), seg, ptr, err, latch), 1)
  {
    ghost var r0 := ram[..];
    var arg1, arg1v := latch.arg1, latch.arg1v;
    seg', err' := seg, err;
    arg1, seg', err' := ReadBits(buf, 2, seg', err');
    arg1v, seg', err' := ReadModeValue(buf, PRINT, 1, arg1, arg1v, seg', err');
    latch' := latch.(arg1 := arg1, arg1v := arg1v);
    assert Loading(r0, seg', ptr, err', latch') == ReadOperand(buf, Loading(r0, seg, ptr, err, latch), 1);
    StoreOne(buf, Loading(r0, seg, ptr, err, latch));
    ram[ptr - 2] := PRINT;
    ram[ptr - 1] := arg1;
    ram[ptr] := arg1v;
    assert ram[..] == Store(r0, ptr, latch');
    ptr' := ptr - 3;
  }

  /** Cases NOT and EQU of the switch on curr_op: a register operand whose mode field
      is 2 bits wide for NOT and 3 for EQU. NOT leaves RAM_ptr where it was. */
  method LoadUnary(buf: seq<byte>, ram: array<byte>, seg: int, ptr: int, err: int, latch: Latch)
    returns (seg': int, ptr': int, err': int, latch': Latch)
    requires ram.Length == RAM_SIZE && Valid(buf, Loading(ram[..], seg, ptr, err, latch)) && ptr > 8
    requires latch.op == NOT || latch.op == EQU
    modifies ram
    ensures Loading(ram[..], seg', ptr', err', latch') == Decode(buf, Loading(old(ram[..]), seg, ptr, err, latch), 1)
  {
    ghost var r0 := ram[..];
    var arg1, arg1v;
    seg', err' := seg, err;
    if latch.op == NOT {
      arg1, seg', err' := ReadBits(buf, 2, seg', err');
    } else {
      arg1, seg', err' := ReadBits(buf, 3, seg', err');
    }
    if arg1 != RGSTR {
      err' := -1;
    }
    arg1v, seg', err' := ReadBits(buf, 3, seg', err');
    latch' := latch.(arg1 := arg1, arg1v := arg1v);
    assert Loading(r0, seg', ptr, err', latch') == ReadOperand(buf, Loading(r0, seg, ptr, err, latch), 1);
    StoreOne(buf, Loading(r0, seg, ptr, err, latch));
    ram[ptr - 2] := latch.op;
    ram[ptr - 1] := arg1;
    ram[ptr] := arg1v;
    assert ram[..] == Store(r0, ptr, latch');
    ptr' := if latch.op == NOT then ptr else ptr - 3;
  }

  /** The switch on curr_op: reads the 3-bit opcode, then the operands of one
      instruction, and stores it. A 3-bit opcode is below 8, so the C's default
      case is never taken. */
  method LoadInstruction(buf: seq<byte>, ram: array<byte>, seg: int, ptr: int, err: int, latch: Latch)
    returns (seg': int, ptr': int, err': int, latch': Latch)
    requires ram.Length == RAM_SIZE && Valid(buf, Loading(ram[..], seg, ptr, err, latch)) && ptr > 8
    modifies ram
    ensures Loading(ram[..], seg', ptr', err', latch') == Decode(buf, Loading(old(ram[..]), seg, ptr, err, latch), 0)
  {
    var curOp, s, e := ReadBits(buf, 3, seg, err);
    var l := latch.(op := curOp);
    assert Decode(buf, Loading(ram[..], seg, ptr, err, latch), 0) == Decode(buf, Loading(ram[..], s, ptr, e, l), 1);
    if curOp == MOV {
      seg', ptr', err', latch' := LoadMov(buf, ram, s, ptr, e, l);
    } else if curOp == CAL {
      seg', ptr', err', latch' := LoadCal(buf, ram, s, ptr, e, l);
    } else if curOp == RET {
      ram[ptr] := RET;
      seg', ptr', err', latch' := s, ptr - 1, e, l;
    } else if curOp == REF {
      seg', ptr', err', latch' := LoadRef(buf, ram, s, ptr, e, l);
    } else if curOp == ADD {
      seg', ptr', err', latch' := LoadAdd(buf, ram, s, ptr, e, l);
    } else if curOp == PRINT {
      seg', ptr', err', latch' := LoadPrint(buf, ram, s, ptr, e, l);
    } else {
      assert curOp == NOT || curOp == EQU;
      seg', ptr', err', latch' := LoadUnary(buf, ram, s, ptr, e, l);
    }
  }

  /** One turn of the `for` loop: the overflow test, then one instruction.
      `full` says that the C leaves the loop with `break`. */
  method LoadTurn(buf: seq<byte>, ram: array<byte>, seg: int, ptr: int, err: int, latch: Latch,
                  ghost s0: Loading, ghost i: nat, ghost n: nat)
    returns (seg': int, ptr': int, err': int, latch': Latch, full: bool)
    requires ram.Length == RAM_SIZE && Valid(buf, Loading(ram[..], seg, ptr, err, latch))
    requires Valid(buf, s0) && i < n && Loading(ram[..], seg, ptr, err, latch) == BodySpec(buf, s0, i)
    modifies ram
    ensures Loading(ram[..], seg', ptr', err', latch') == BodyTurn(buf, Loading(old(ram[..]), seg, ptr, err, latch))
    ensures full <==> ptr <= 8
    ensures full ==> ptr' == ptr && err' == -1
    ensures Loading(ram[..], seg', ptr', err', latch') == BodySpec(buf, s0, i + 1)
    ensures full ==> Loading(ram[..], seg', ptr', err', latch') == BodySpec(buf, s0, n)
  {
    if ptr <= 8 {
      BodyStuck(buf, s0, i + 1, n, Loading(ram[..], seg, ptr, -1, latch));
      return seg, ptr, -1, latch, true;
    }
    seg', ptr', err', latch' := LoadInstruction(buf, ram, seg, ptr, err, latch);
    full := false;
  }

  /** The `for` loop over the instructions of one function, with its overflow test. */
  method LoadBody(buf: seq<byte>, ram: array<byte>, seg: int, ptr: int, err: int, latch: Latch, size: nat)
    returns (seg': int, ptr': int, err': int, latch': Latch)
    requires ram.Length == RAM_SIZE && Valid(buf, Loading(ram[..], seg, ptr, err, latch))
    modifies ram
    ensures Loading(ram[..], seg', ptr', err', latch') == BodySpec(buf, Loading(old(ram[..]), seg, ptr, err, latch), size)
  {
    ghost var s0 := Loading(ram[..], seg, ptr, err, latch);
    seg', ptr', err', latch' := seg, ptr, err, latch;
    // `full` is the C's `break` out of the loop.
    var i, full := 0, false;
    while i < size && !full
      invariant 0 <= i <= size
      invariant Loading(ram[..], seg', ptr', err', latch') == BodySpec(buf, s0, if full then size else i)
    {
      seg', ptr', err', latch', full := LoadTurn(buf, ram, seg', ptr', err', latch', s0, i, size);
      i := i + 1;
    }
  }

  /** One pass of the outer loop: the size field, the body and the label. `stop`
      says that the C leaves the loop with `break`. */
  method LoadFunction(buf: seq<byte>, ram: array<byte>, seg: int, ptr: int, err: int, latch: Latch)
    returns (seg': int, ptr': int, err': int, latch': Latch, stop: bool)
    requires ram.Length == RAM_SIZE && Valid(buf, Loading(ram[..], seg, ptr, err, latch))
    modifies ram
    ensures (Loading(ram[..], seg', ptr', err', latch'), stop) == FunctionSpec(buf, Loading(old(ram[..]), seg, ptr, err, latch))
  {
    ghost var s0 := Loading(ram[..], seg, ptr, err, latch);
    var size;
    size, seg', err' := ReadBits(buf, 5, seg, err);
    ptr', latch' := ptr, latch;
    if size <= 0 {
      return seg', ptr', err', latch', true;
    }
    ghost var s1 := Loading(ram[..], seg', ptr', err', latch');
    seg', ptr', err', latch' := LoadBody(buf, ram, seg', ptr', err', latch', size);
    ghost var body := Loading(ram[..], seg', ptr', err', latch');
    assert body == BodySpec(buf, s1, size);
    var tag;
    tag, seg', err' := ReadBits(buf, 3, seg', err');
    ghost var b := Loading(ram[..], seg', ptr', err', latch');
    assert FunctionSpec(buf, s0) == Register(b, tag);
    if ram[tag] == NO_FUNCTION {
      ram[tag] := Wrap(ptr' + 1);
      latch' := latch'.(arg1 := 0);
      stop := false;
    } else {
      latch' := latch'.(arg1 := tag);
      err' := -1;
      stop := true;
    }
    assert (Loading(ram[..], seg', ptr', err', latch'), stop) == Register(b, tag);
  }

  /** The loading part of main: the loop while err != -1, the entry-point test and
      RAM_ptr++. Returns the code segment boundary CS (RAM_ptr as an unsigned char)
      and the error flag; RAM holds the byte code and the function table. */
  method Load(buf: seq<byte>, ram: array<byte>) returns (cs: byte, err: int)
    requires ram.Length == RAM_SIZE
    requires forall a :: 0 <= a < RAM_SIZE ==> ram[a] == 0
    modifies ram
    ensures ram[..] == LoadSpec(buf).ram && err == LoadSpec(buf).err
    ensures cs == Wrap(LoadSpec(buf).ptr)
  {
    var seg := 8 * |buf| - 1;
    var ptr := 255;
    err := 0;
    var latch := Latch(0, 0, 0, 0, 0);
    assert ram[..] == Initial(buf).ram;
    while err != -1
      invariant Valid(buf, Loading(ram[..], seg, ptr, err, latch))
      invariant LoadLoop(buf, Loading(ram[..], seg, ptr, err, latch)) == LoadLoop(buf, Initial(buf))
      decreases seg + 1
    {
      var stop;
      seg, ptr, err, latch, stop := LoadFunction(buf, ram, seg, ptr, err, latch);
      if stop {
        break;
      }
    }
    ghost var s := Loading(ram[..], seg, ptr, err, latch);
    assert s == LoadLoop(buf, Initial(buf));
    if ram[0] == NO_FUNCTION {
      err := -1;
    }
    ptr := ptr + 1;
    cs := Wrap(ptr);
  }
}
