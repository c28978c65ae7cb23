/** Properties of the loader's specification: the bit encoding of one instruction,
    the byte layout of the stored instruction, and the error flag it leaves. */
module LoaderFacts {
  import opened Isa
  import opened Bits
  import opened Loader

  /** The mode of operand k held in a latch. */
  function Mode(l: Latch, k: nat): byte
  {
    if k == 1 then l.arg1 else l.arg2
  }

  /** The value of operand k held in a latch. */
  function Value(l: Latch, k: nat): byte
  {
    if k == 1 then l.arg1v else l.arg2v
  }

  /** Operand k passes the loader's mode and value checks. */
  predicate OperandLegal(l: Latch, k: nat)
  {
    LegalMode(l.op, k, Mode(l, k)) && LegalValue(l.op, k, Value(l, k))
  }

  /** Operands phase, phase + 1, ..., up to the arity, pass the loader's checks. */
  predicate LegalFrom(l: Latch, phase: nat)
    decreases 3 - phase
  {
    phase > Arity(l.op) || phase > 2 || (OperandLegal(l, phase) && LegalFrom(l, phase + 1))
  }

  /** Every operand of the instruction passes the loader's checks. */
  predicate Legal(l: Latch)
  {
    LegalFrom(l, 1)
  }

  /** The mode and value of operand k fit the widths the loader reads them with. */
  predicate OperandFits(l: Latch, k: nat)
  {
    Mode(l, k) < Pow2(ModeWidth(l.op)) && Value(l, k) < Pow2(ValueWidth(l.op, k, Mode(l, k)))
  }

  /** Every field of the instruction fits the width the loader reads it with. */
  predicate Fits(l: Latch)
  {
    l.op < 8 && (Arity(l.op) >= 1 ==> OperandFits(l, 1)) && (Arity(l.op) >= 2 ==> OperandFits(l, 2))
  }

  /** The bits of operand k in cursor order: its mode field, then its value field
      (empty when the mode has no value field). */
  function OperandBits(l: Latch, k: nat): seq<nat>
  {
    ToBits(Mode(l, k), ModeWidth(l.op)) + ToBits(Value(l, k), ValueWidth(l.op, k, Mode(l, k)))
  }

  /** The bits of operands phase, phase + 1, ..., up to the arity, in cursor order. */
  function OperandsBits(l: Latch, phase: nat): seq<nat>
    decreases 3 - phase
  {
    if phase > Arity(l.op) || phase > 2 then [] else OperandBits(l, phase) + OperandsBits(l, phase + 1)
  }

  /** The bits of an instruction in cursor order: the 3-bit opcode, then its operands. */
  function InstrBits(l: Latch): seq<nat>
  {
    ToBits(l.op, 3) + OperandsBits(l, 1)
  }

  /** Operand k of `a` is operand k of `b`: the same mode, and the same value when
      the mode has a value field. */
  predicate OperandAgrees(a: Latch, b: Latch, k: nat)
  {
    Mode(a, k) == Mode(b, k) && (ValueWidth(a.op, k, Mode(a, k)) > 0 ==> Value(a, k) == Value(b, k))
  }

  /** Two latches hold the same instruction: same opcode and the same operands. */
  predicate Agrees(a: Latch, b: Latch)
  {
    a.op == b.op &&
    (Arity(a.op) >= 1 ==> OperandAgrees(a, b, 1)) && (Arity(a.op) >= 2 ==> OperandAgrees(a, b, 2))
  }

  /** The byte code of an instruction: opcode, then mode and value of each operand. */
  function Encoded(l: Latch): (b: seq<byte>)
    ensures |b| == Length(l.op)
  {
    [l.op, l.arg1, l.arg1v, l.arg2, l.arg2v][..Length(l.op)]
  }

  // ---------------------------------------------------------------------------
  // Layout.

  /** The stored instruction occupies Length(op) consecutive cells ending at `end`,
      opcode lowest, then mode and value of each operand in ascending order; no
      other cell changes. */
  lemma StoreLayout(ram: seq<byte>, end: int, l: Latch)
    requires Length(l.op) <= end + 1 && end < |ram|
    ensures forall a :: 0 <= a < |ram| ==>
      Store(ram, end, l)[a] ==
        if end - Length(l.op) < a <= end then Encoded(l)[a - (end - Length(l.op) + 1)] else ram[a]
  {
  }

  /** After one instruction RAM_ptr has dropped by 5 for MOV, REF and ADD, by 3 for
      CAL, PRINT and EQU, by 1 for RET, and not at all for NOT. */
  lemma DecodeDrop(buf: seq<byte>, s: Loading)
    requires Valid(buf, s) && s.ptr > 8
    ensures var r := Decode(buf, s, 0);
      var op := r.latch.op;
      r.ptr == s.ptr - (if op == MOV || op == REF || op == ADD then 5
                        else if op == CAL || op == PRINT || op == EQU then 3
                        else if op == RET then 1
                        else 0)
  {
    var o := ReadField(buf, s.seg, s.err, 3);
    var s1 := s.(seg := o.pos, err := o.err, latch := s.latch.(op := o.value));
    DecodeShape(buf, s1, 1);
  }

  /** The operand and store phases keep the opcode, and the store phase writes the
      latch at RAM_ptr and moves RAM_ptr down by Drop(op). */
  lemma {:induction false} DecodeShape(buf: seq<byte>, s: Loading, phase: nat)
    requires Valid(buf, s) && s.ptr > 8 && 1 <= phase <= 3
    ensures var r := Decode(buf, s, phase);
      r.latch.op == s.latch.op && r.ptr == s.ptr - Drop(s.latch.op) && r.ram == Store(s.ram, s.ptr, r.latch)
    decreases 3 - phase
  {
    if phase <= Arity(s.latch.op) {
      DecodeShape(buf, ReadOperand(buf, s, phase), phase + 1);
    }
  }

  // ---------------------------------------------------------------------------
  // Decoding, read forwards: what a decoded instruction says about the image.

  /** One operand, read where enough bits remain: the cursor moves past exactly the
      operand's bits, those bits encode the mode and value read, the flag becomes -1
      if the operand is illegal and is otherwise kept, and nothing else changes. */
  lemma ReadOperandFacts(buf: seq<byte>, s: Loading, k: nat)
    requires Valid(buf, s) && (k == 1 || k == 2) && s.seg >= 10
    ensures var r := ReadOperand(buf, s, k);
      && r.seg == s.seg - |OperandBits(r.latch, k)|
      && BitsAt(buf, s.seg, OperandBits(r.latch, k))
      && r.err == (if OperandLegal(r.latch, k) then s.err else -1)
      && r.latch.op == s.latch.op
      && Mode(r.latch, 3 - k) == Mode(s.latch, 3 - k) && Value(r.latch, 3 - k) == Value(s.latch, 3 - k)
      && (ValueWidth(s.latch.op, k, Mode(r.latch, k)) == 0 ==> Value(r.latch, k) == Value(s.latch, k))
  {
    var op := s.latch.op;
    var mw := ModeWidth(op);
    var m := ReadField(buf, s.seg, s.err, mw);
    ReadFieldBits(buf, s.seg, s.err, mw);
    var e := if LegalMode(op, k, m.value) then m.err else -1;
    var w := ValueWidth(op, k, m.value);
    var r := ReadOperand(buf, s, k);
    assert Mode(r.latch, k) == m.value;
    if w > 0 {
      ReadFieldBits(buf, m.pos, e, w);
      BitsAtSplit(buf, s.seg, ToBits(m.value, mw), ToBits(Value(r.latch, k), w));
    } else {
      assert ToBits(Value(r.latch, k), w) == [];
      assert OperandBits(r.latch, k) == ToBits(m.value, mw) + [];
    }
  }

  /** Operands phase, phase + 1, ..., read where enough bits remain, then the store:
      the cursor moves past exactly their bits, those bits encode the operands read,
      the flag becomes -1 if one of them is illegal and is otherwise kept, and the
      opcode and the operands before `phase` or beyond the arity keep their values. */
  lemma {:induction false} OperandsFacts(buf: seq<byte>, s: Loading, phase: nat)
    requires Valid(buf, s) && s.ptr > 8 && 1 <= phase <= 3 && s.seg >= 11 * (3 - phase) - 1
    ensures var r := Decode(buf, s, phase);
      && r.seg == s.seg - |OperandsBits(r.latch, phase)|
      && BitsAt(buf, s.seg, OperandsBits(r.latch, phase))
      && r.err == (if LegalFrom(r.latch, phase) then s.err else -1)
      && r.latch.op == s.latch.op
      && (1 < phase || Arity(s.latch.op) < 1 ==> Mode(r.latch, 1) == Mode(s.latch, 1) && Value(r.latch, 1) == Value(s.latch, 1))
      && (2 < phase || Arity(s.latch.op) < 2 ==> Mode(r.latch, 2) == Mode(s.latch, 2) && Value(r.latch, 2) == Value(s.latch, 2))
    decreases 3 - phase
  {
    var r := Decode(buf, s, phase);
    if phase <= Arity(s.latch.op) {
      var s1 := ReadOperand(buf, s, phase);
      ReadOperandFacts(buf, s, phase);
      OperandsFacts(buf, s1, phase + 1);
      assert r == Decode(buf, s1, phase + 1);
      OperandsStep(buf, s, phase, s1, r);
    } else {
      assert OperandsBits(r.latch, phase) == [];
    }
  }

  /** The inductive step of OperandsFacts: operand `phase` read from s into s1, then
      the remaining operands from s1 into r. */
  lemma OperandsStep(buf: seq<byte>, s: Loading, phase: nat, s1: Loading, r: Loading)
    requires Valid(buf, s) && (phase == 1 || phase == 2) && phase <= Arity(s.latch.op)
    requires && s1.seg == s.seg - |OperandBits(s1.latch, phase)|
             && BitsAt(buf, s.seg, OperandBits(s1.latch, phase))
             && s1.err == (if OperandLegal(s1.latch, phase) then s.err else -1)
             && s1.latch.op == s.latch.op
             && Mode(s1.latch, 3 - phase) == Mode(s.latch, 3 - phase)
             && Value(s1.latch, 3 - phase) == Value(s.latch, 3 - phase)
    requires && r.seg == s1.seg - |OperandsBits(r.latch, phase + 1)|
             && BitsAt(buf, s1.seg, OperandsBits(r.latch, phase + 1))
             && r.err == (if LegalFrom(r.latch, phase + 1) then s1.err else -1)
             && r.latch.op == s1.latch.op
             && Mode(r.latch, phase) == Mode(s1.latch, phase) && Value(r.latch, phase) == Value(s1.latch, phase)
             && (phase == 2 ==> Mode(r.latch, 1) == Mode(s1.latch, 1) && Value(r.latch, 1) == Value(s1.latch, 1))
             && (phase == 2 || Arity(s.latch.op) < 2 ==> Mode(r.latch, 2) == Mode(s1.latch, 2) && Value(r.latch, 2) == Value(s1.latch, 2))
    requires s.seg < 8 * |buf|
    ensures && r.seg == s.seg - |OperandsBits(r.latch, phase)|
            && BitsAt(buf, s.seg, OperandsBits(r.latch, phase))
            && r.err == (if LegalFrom(r.latch, phase) then s.err else -1)
            && r.latch.op == s.latch.op
            && (1 < phase || Arity(s.latch.op) < 1 ==> Mode(r.latch, 1) == Mode(s.latch, 1) && Value(r.latch, 1) == Value(s.latch, 1))
            && (2 < phase || Arity(s.latch.op) < 2 ==> Mode(r.latch, 2) == Mode(s.latch, 2) && Value(r.latch, 2) == Value(s.latch, 2))
  {
    assert OperandBits(r.latch, phase) == OperandBits(s1.latch, phase);
    assert OperandLegal(r.latch, phase) == OperandLegal(s1.latch, phase);
    assert OperandsBits(r.latch, phase) == OperandBits(r.latch, phase) + OperandsBits(r.latch, phase + 1);
    BitsAtSplit(buf, s.seg, OperandBits(r.latch, phase), OperandsBits(r.latch, phase + 1));
  }

  /** The bits of an instruction are its opcode's bits followed by its operands'. */
  lemma InstrBitsAt(buf: seq<byte>, p: int, l: Latch)
    requires 2 <= p < 8 * |buf|
    ensures BitsAt(buf, p, InstrBits(l)) <==> BitsAt(buf, p, ToBits(l.op, 3)) && BitsAt(buf, p - 3, OperandsBits(l, 1))
  {
    if BitsAt(buf, p - 3, OperandsBits(l, 1)) || BitsAt(buf, p, InstrBits(l)) {
      BitsAtSplit(buf, p, ToBits(l.op, 3), OperandsBits(l, 1));
    }
  }

  /** The loader after reading the 3-bit opcode field of an instruction. */
  function Opcoded(buf: seq<byte>, s: Loading): (r: Loading)
    requires Valid(buf, s)
    ensures Valid(buf, r) && r.ram == s.ram && r.ptr == s.ptr && r.seg <= s.seg
  {
    var o := ReadField(buf, s.seg, s.err, 3);
    s.(seg := o.pos, err := o.err, latch := s.latch.(op := o.value))
  }

  /** Phase 0 of Decode reads the opcode, then goes on with phase 1. */
  lemma DecodeOpcode(buf: seq<byte>, s: Loading)
    requires Valid(buf, s) && s.ptr > 8
    ensures Decode(buf, s, 0) == Decode(buf, Opcoded(buf, s), 1)
  {
  }

  /** One instruction, decoded where at least 25 bits remain: the cursor moves past
      exactly the instruction's bits, those bits encode the decoded instruction,
      the flag becomes -1 exactly when an operand is illegal (and is otherwise
      kept), the instruction is stored at RAM_ptr, and a latch field the opcode has
      no operand for keeps its old value. */
  lemma DecodeFacts(buf: seq<byte>, s: Loading)
    requires Valid(buf, s) && s.ptr > 8 && s.seg >= 24
    ensures var r := Decode(buf, s, 0);
      && r.seg == s.seg - |InstrBits(r.latch)|
      && BitsAt(buf, s.seg, InstrBits(r.latch))
      && r.err == (if Legal(r.latch) then s.err else -1)
      && r.ram == Store(s.ram, s.ptr, r.latch) && r.ptr == s.ptr - Drop(r.latch.op)
      && (Arity(r.latch.op) < 1 ==> r.latch.arg1 == s.latch.arg1 && r.latch.arg1v == s.latch.arg1v)
      && (Arity(r.latch.op) < 2 ==> r.latch.arg2 == s.latch.arg2 && r.latch.arg2v == s.latch.arg2v)
  {
    var s1 := Opcoded(buf, s);
    DecodeOpcode(buf, s);
    ReadFieldBits(buf, s.seg, s.err, 3);
    AfterOpcode(buf, s, s1);
  }

  /** DecodeFacts once the opcode has been read into s1. */
  lemma AfterOpcode(buf: seq<byte>, s: Loading, s1: Loading)
    requires Valid(buf, s) && s.ptr > 8 && s.seg >= 24
    requires s1 == s.(seg := s.seg - 3, latch := s.latch.(op := s1.latch.op)) && s1.latch.op < 8
    requires BitsAt(buf, s.seg, ToBits(s1.latch.op, 3))
    ensures var r := Decode(buf, s1, 1);
      && r.seg == s.seg - |InstrBits(r.latch)|
      && BitsAt(buf, s.seg, InstrBits(r.latch))
      && r.err == (if Legal(r.latch) then s.err else -1)
      && r.ram == Store(s.ram, s.ptr, r.latch) && r.ptr == s.ptr - Drop(r.latch.op)
      && (Arity(r.latch.op) < 1 ==> r.latch.arg1 == s.latch.arg1 && r.latch.arg1v == s.latch.arg1v)
      && (Arity(r.latch.op) < 2 ==> r.latch.arg2 == s.latch.arg2 && r.latch.arg2v == s.latch.arg2v)
  {
    var r := Decode(buf, s1, 1);
    DecodeShape(buf, s1, 1);
    OperandsFacts(buf, s1, 1);
    InstrBitsAt(buf, s.seg, r.latch);
  }

  // ---------------------------------------------------------------------------
  // Decoding, read backwards: an encoded instruction decodes to itself.

  /** An operand whose mode and value are encoded at the cursor reads back as that
      mode and value, and the flag becomes -1 exactly when that operand is illegal. */
  lemma ReadOperandOfBits(buf: seq<byte>, s: Loading, k: nat, l: Latch)
    requires Valid(buf, s) && (k == 1 || k == 2) && l.op == s.latch.op && OperandFits(l, k)
    requires BitsAt(buf, s.seg, OperandBits(l, k))
    ensures var r := ReadOperand(buf, s, k);
      && OperandAgrees(r.latch, l, k)
      && r.seg == s.seg - |OperandBits(l, k)|
      && r.err == (if OperandLegal(l, k) then s.err else -1)
      && r.latch.op == s.latch.op
      && Mode(r.latch, 3 - k) == Mode(s.latch, 3 - k) && Value(r.latch, 3 - k) == Value(s.latch, 3 - k)
  {
    var op := l.op;
    var mw := ModeWidth(op);
    var w := ValueWidth(op, k, Mode(l, k));
    BitsAtSplit(buf, s.seg, ToBits(Mode(l, k), mw), ToBits(Value(l, k), w));
    ReadFieldOfBits(buf, s.seg, s.err, Mode(l, k), mw);
    var m := ReadField(buf, s.seg, s.err, mw);
    var e := if LegalMode(op, k, m.value) then m.err else -1;
    if w > 0 {
      ReadFieldOfBits(buf, m.pos, e, Value(l, k), w);
    }
  }

  /** Operands phase, phase + 1, ... encoded at the cursor read back as themselves. */
  lemma {:induction false} OperandsOfBits(buf: seq<byte>, s: Loading, phase: nat, l: Latch)
    requires Valid(buf, s) && s.ptr > 8 && 1 <= phase <= 3 && l.op == s.latch.op && Fits(l)
    requires BitsAt(buf, s.seg, OperandsBits(l, phase))
    ensures var r := Decode(buf, s, phase);
      && (phase <= 1 <= Arity(l.op) ==> OperandAgrees(r.latch, l, 1))
      && (phase <= 2 <= Arity(l.op) ==> OperandAgrees(r.latch, l, 2))
      && r.seg == s.seg - |OperandsBits(l, phase)|
      && r.err == (if LegalFrom(l, phase) then s.err else -1)
      && r.latch.op == l.op
      && (1 < phase ==> Mode(r.latch, 1) == Mode(s.latch, 1) && Value(r.latch, 1) == Value(s.latch, 1))
    decreases 3 - phase
  {
    if phase <= Arity(l.op) {
      assert OperandsBits(l, phase) == OperandBits(l, phase) + OperandsBits(l, phase + 1);
      BitsAtSplit(buf, s.seg, OperandBits(l, phase), OperandsBits(l, phase + 1));
      var s1 := ReadOperand(buf, s, phase);
      ReadOperandOfBits(buf, s, phase, l);
      OperandsOfBits(buf, s1, phase + 1, l);
      assert Decode(buf, s, phase) == Decode(buf, s1, phase + 1);
    }
  }

  /** The round trip: an instruction whose fields fit their widths, encoded at the
      cursor, decodes to the same instruction; the cursor moves past its bits, the
      flag becomes -1 exactly when the instruction is illegal, and the instruction
      is stored at RAM_ptr. */
  lemma DecodeEncoding(buf: seq<byte>, s: Loading, l: Latch)
    requires Valid(buf, s) && s.ptr > 8 && Fits(l)
    requires BitsAt(buf, s.seg, InstrBits(l))
    ensures var r := Decode(buf, s, 0);
      && Agrees(r.latch, l)
      && r.seg == s.seg - |InstrBits(l)|
      && r.err == (if Legal(l) then s.err else -1)
      && r.ram == Store(s.ram, s.ptr, r.latch) && r.ptr == s.ptr - Drop(l.op)
  {
    InstrBitsAt(buf, s.seg, l);
    ReadFieldOfBits(buf, s.seg, s.err, l.op, 3);
    var s1 := s.(seg := s.seg - 3, latch := s.latch.(op := l.op));
    DecodeOpcode(buf, s);
    assert Opcoded(buf, s) == s1;
    DecodeShape(buf, s1, 1);
    OperandsOfBits(buf, s1, 1, l);
  }

  // ---------------------------------------------------------------------------
  // The function table.

  /** Storing one instruction never writes below RAM[5]. */
  lemma {:induction false} DecodeKeepsLow(buf: seq<byte>, s: Loading, phase: nat, a: int)
    requires Valid(buf, s) && s.ptr > 8 && phase <= 3 && 0 <= a < 5
    ensures Decode(buf, s, phase).ram[a] == s.ram[a]
    decreases 3 - phase
  {
    if phase == 0 {
      DecodeOpcode(buf, s);
      DecodeKeepsLow(buf, Opcoded(buf, s), 1, a);
    } else if phase <= Arity(s.latch.op) {
      DecodeKeepsLow(buf, ReadOperand(buf, s, phase), phase + 1, a);
    }
  }

  lemma {:induction false} BodyKeepsLow(buf: seq<byte>, s: Loading, n: nat, a: int)
    requires Valid(buf, s) && 0 <= a < 5
    ensures BodySpec(buf, s, n).ram[a] == s.ram[a]
  {
    if n > 0 {
      BodyKeepsLow(buf, s, n - 1, a);
      var t := BodySpec(buf, s, n - 1);
      assert BodySpec(buf, s, n) == BodyTurn(buf, t);
      TurnKeepsLow(buf, t, a);
    }
  }

  lemma TurnKeepsLow(buf: seq<byte>, s: Loading, a: int)
    requires Valid(buf, s) && 0 <= a < 5
    ensures BodyTurn(buf, s).ram[a] == s.ram[a]
  {
    if s.ptr > 8 {
      DecodeKeepsLow(buf, s, 0, a);
    }
  }

  /** Labels 0 to 4: once an entry is set, the rest of the load leaves it as it is
      (a repeated label is an error and does not replace it, and code never reaches
      down to it). */
  lemma {:induction false} LoadKeepsEntry(buf: seq<byte>, s: Loading, a: int)
    requires Valid(buf, s) && 0 <= a < 5 && s.ram[a] != NO_FUNCTION
    ensures LoadLoop(buf, s).ram[a] == s.ram[a]
    decreases s.seg + 1
  {
    if s.err != -1 {
      var size := ReadField(buf, s.seg, s.err, 5);
      if size.value != 0 {
        BodyKeepsLow(buf, s.(seg := size.pos, err := size.err), size.value, a);
      }
      var t := FunctionSpec(buf, s);
      if !t.1 {
        LoadKeepsEntry(buf, t.0, a);
      }
    }
  }

  /** Labels 5 to 7 are not protected in the same way: the overflow test lets a
      two-operand instruction through at RAM_ptr == 9, and its five bytes then land
      on RAM[5..9], over the entries of labels 5, 6 and 7. */
  lemma TableReached(buf: seq<byte>, s: Loading)
    requires Valid(buf, s) && s.ptr == 9
    ensures var r := BodyTurn(buf, s);
      Arity(r.latch.op) == 2 ==> r.ram[5] == r.latch.op && r.ram[7] == r.latch.arg1v
  {
    var s1 := Opcoded(buf, s);
    DecodeOpcode(buf, s);
    DecodeShape(buf, s1, 1);
  }
}
