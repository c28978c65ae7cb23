/** Properties of the disassembler: it lists exactly the instructions the common
    walk visits, it lists every non-empty table entry in label order, its letters
    tell stack ids apart, and after the semantic pass it still shows the same
    instructions with the same modes. */
module DisassemblerFacts {
  import opened Isa
  import opened Code
  import opened Resolver
  import opened ResolverFacts
  import opened Disassembler

  /** The listing of a function ends as its walk does: complete at a RET, cut off
      where the walk spins, undefined where it runs past RAM[255]. It has a line
      for each visited address, except a last one that holds no opcode. */
  lemma {:induction false} ListingEnds(ram: seq<byte>, p: nat)
    requires |ram| == RAM_SIZE && p < RAM_SIZE
    ensures var r, w := FunctionListing(ram, p), Walked(ram, p);
      && (r.Shown? <==> w.stop == AtRet)
      && (r.Stuck? <==> w.stop == Spins)
      && (r.Unbounded? <==> w.stop == RunsOff)
      && (r.Shown? ==> |r.lines| == |w.addrs|)
      && (r.Stuck? ==> |r.lines| == |w.addrs| - 1)
    decreases RAM_SIZE - p
  {
    var op := ram[p];
    if op != RET && op <= 7 && p + Length(op) < RAM_SIZE {
      var q := p + Length(op);
      ListingEnds(ram, q);
      EndsStep(FunctionListing(ram, q), Walked(ram, q), Decoded(ram, p), p);
      assert FunctionListing(ram, p) == Cons(Decoded(ram, p), FunctionListing(ram, q));
      assert Walked(ram, p) == Trace([p] + Walked(ram, q).addrs, Walked(ram, q).stop);
    }
  }

  /** The inductive step of ListingEnds: a line put in front of a listing and an
      address put in front of a walk keep them ending alike. */
  lemma EndsStep(r: Listing, w: Trace, l: Line, p: nat)
    requires && (r.Shown? <==> w.stop == AtRet)
             && (r.Stuck? <==> w.stop == Spins)
             && (r.Unbounded? <==> w.stop == RunsOff)
             && (r.Shown? ==> |r.lines| == |w.addrs|)
             && (r.Stuck? ==> |r.lines| == |w.addrs| - 1)
    ensures var r', w' := Cons(l, r), Trace([p] + w.addrs, w.stop);
      && (r'.Shown? <==> w'.stop == AtRet)
      && (r'.Stuck? <==> w'.stop == Spins)
      && (r'.Unbounded? <==> w'.stop == RunsOff)
      && (r'.Shown? ==> |r'.lines| == |w'.addrs|)
      && (r'.Stuck? ==> |r'.lines| == |w'.addrs| - 1)
  {
  }

  /** Line k of ls is the instruction at address A[k]. */
  predicate LinesAt(ram: seq<byte>, ls: seq<Line>, A: seq<nat>)
    requires |ram| == RAM_SIZE
  {
    |ls| <= |A| && forall k :: 0 <= k < |ls| ==>
      A[k] < RAM_SIZE && A[k] + Length(ram[A[k]]) <= RAM_SIZE && ls[k] == Decoded(ram, A[k])
  }

  /** Line k of a function's listing is the instruction at the k-th address its
      walk visits. */
  lemma {:induction false} ListingLines(ram: seq<byte>, p: nat)
    requires |ram| == RAM_SIZE && p < RAM_SIZE
    ensures var r := FunctionListing(ram, p);
      !r.Unbounded? ==> LinesAt(ram, r.lines, Walked(ram, p).addrs)
    decreases RAM_SIZE - p
  {
    var op := ram[p];
    if op != RET && op <= 7 && p + Length(op) < RAM_SIZE {
      ListingLines(ram, p + Length(op));
      ListingLinesStep(ram, p);
    }
  }

  /** The inductive step of ListingLines, from the listing at the next instruction. */
  lemma ListingLinesStep(ram: seq<byte>, p: nat)
    requires |ram| == RAM_SIZE && p < RAM_SIZE && ram[p] != RET && ram[p] <= 7
    requires p + Length(ram[p]) < RAM_SIZE
    requires var q := p + Length(ram[p]); var r := FunctionListing(ram, q);
      !r.Unbounded? ==> LinesAt(ram, r.lines, Walked(ram, q).addrs)
    ensures var r := FunctionListing(ram, p);
      !r.Unbounded? ==> LinesAt(ram, r.lines, Walked(ram, p).addrs)
  {
    var q := p + Length(ram[p]);
    var r := FunctionListing(ram, q);
    assert Walked(ram, p).addrs == [p] + Walked(ram, q).addrs;
    assert FunctionListing(ram, p) == Cons(Decoded(ram, p), r);
    if !r.Unbounded? {
      LinesStep(ram, p, r.lines, Walked(ram, q).addrs);
    }
  }

  /** The inductive step of ListingLines. */
  lemma LinesStep(ram: seq<byte>, p: nat, ls: seq<Line>, B: seq<nat>)
    requires |ram| == RAM_SIZE && p < RAM_SIZE && ram[p] <= 7 && ram[p] != RET
    requires p + Length(ram[p]) < RAM_SIZE
    requires LinesAt(ram, ls, B)
    ensures LinesAt(ram, [Decoded(ram, p)] + ls, [p] + B)
  {
    var A, ms := [p] + B, [Decoded(ram, p)] + ls;
    forall k | 0 <= k < |ms|
      ensures A[k] < RAM_SIZE && A[k] + Length(ram[A[k]]) <= RAM_SIZE && ms[k] == Decoded(ram, A[k])
    {
      if k > 0 {
        assert ms[k] == ls[k - 1] && A[k] == B[k - 1];
      }
    }
  }

  /** The letters of the 32 stack ids are all different, so a listing tells the
      ids below 32 apart. */
  lemma GlyphsDistinct(x: byte, y: byte)
    requires x < |StackSymbols| && y < |StackSymbols| && x != y
    ensures GlyphOf(x) != GlyphOf(y)
  {
    if x < y {
      LettersAscend(x, y);
    } else {
      LettersAscend(y, x);
    }
  }

  /** The letter table is in ascending character order. */
  lemma {:induction false} LettersAscend(x: nat, y: nat)
    requires x < y < |StackSymbols|
    ensures StackSymbols[x] < StackSymbols[y]
    decreases y
  {
    if x < y - 1 {
      LettersAscend(x, y - 1);
    }
    LettersAdjacent(y - 1);
  }

  lemma LettersAdjacent(i: nat)
    requires i + 1 < |StackSymbols|
    ensures StackSymbols[i] < StackSymbols[i + 1]
  {
  }

  /** An operand shows the mode and, for the four modes print_args knows, the value
      it was read from: distinct operand bytes show as distinct operands. */
  lemma ArgShowsBytes(mode: byte, v: byte)
    ensures ModeOf(Arg(mode, v)) == mode
    ensures mode <= PNTR ==> ValueOf(Arg(mode, v)) == v
  {
  }

  /** f lists table entry f.index, at j or above, which is non-empty, with the
      complete listing of the function at its entry. */
  predicate EntryListed(ram: seq<byte>, j: nat, f: Func)
    requires |ram| == RAM_SIZE
  {
    && j <= f.index < TABLE_SIZE
    && f.entry == ram[f.index] != NO_FUNCTION
    && FunctionListing(ram, f.entry) == Shown(f.lines)
  }

  /** fs lists, in label order, table entries from j on. */
  predicate ListsEntries(ram: seq<byte>, j: nat, fs: seq<Func>)
    requires |ram| == RAM_SIZE
  {
    && (forall k :: 0 <= k < |fs| ==> EntryListed(ram, j, fs[k]))
    && (forall k :: 0 <= k < |fs| - 1 ==> fs[k].index < fs[k + 1].index)
  }

  /** Every non-empty table entry from j on is listed in fs. */
  predicate CoversEntries(ram: seq<byte>, j: nat, fs: seq<Func>)
    requires |ram| == RAM_SIZE
  {
    forall i :: j <= i < TABLE_SIZE && ram[i] != NO_FUNCTION ==>
      exists k :: 0 <= k < |fs| && fs[k].index == i
  }

  /** The whole listing holds each non-empty table entry, in label order, with the
      listing of the function at that entry. */
  lemma {:induction false} ListFromEntries(ram: seq<byte>, j: nat)
    requires |ram| == RAM_SIZE && j <= TABLE_SIZE
    ensures ListFrom(ram, j).Complete? ==>
      ListsEntries(ram, j, ListFrom(ram, j).funcs) && CoversEntries(ram, j, ListFrom(ram, j).funcs)
    decreases TABLE_SIZE - j
  {
    if j < TABLE_SIZE {
      ListFromEntries(ram, j + 1);
      var d := ListFrom(ram, j + 1);
      if ram[j] == NO_FUNCTION {
        assert ListFrom(ram, j) == d;
        if d.Complete? {
          EntriesSkip(ram, j, d.funcs);
        }
      } else if FunctionListing(ram, ram[j]).Shown? {
        var f := Func(j, ram[j], FunctionListing(ram, ram[j]).lines);
        assert ListFrom(ram, j) == Put(f, d);
        if d.Complete? {
          EntriesStep(ram, j, f, d.funcs);
        }
      }
    }
  }

  /** A disassembly that is cut off ends with the function that spins, with the
      lines shown before the spin. */
  predicate EndsStuck(ram: seq<byte>, d: Disassembly)
    requires |ram| == RAM_SIZE
  {
    d.Hung? ==>
      |d.funcs| > 0 && var f := d.funcs[|d.funcs| - 1];
      FunctionListing(ram, f.entry) == Stuck(f.lines)
  }

  /** The listing is cut off at the first function that spins: its last function
      is that one, with the lines shown before the spin. */
  lemma {:induction false} ListFromHung(ram: seq<byte>, j: nat)
    requires |ram| == RAM_SIZE && j <= TABLE_SIZE
    ensures EndsStuck(ram, ListFrom(ram, j))
    decreases TABLE_SIZE - j
  {
    if j < TABLE_SIZE {
      ListFromHung(ram, j + 1);
      var d := ListFrom(ram, j + 1);
      if ram[j] == NO_FUNCTION {
        assert ListFrom(ram, j) == d;
      } else {
        var r := FunctionListing(ram, ram[j]);
        if r.Shown? {
          var f := Func(j, ram[j], r.lines);
          assert ListFrom(ram, j) == Put(f, d);
          StuckPut(ram, f, d);
        } else if r.Stuck? {
          assert ListFrom(ram, j) == Hung([Func(j, ram[j], r.lines)]);
        }
      }
    }
  }

  lemma StuckPut(ram: seq<byte>, f: Func, d: Disassembly)
    requires |ram| == RAM_SIZE && EndsStuck(ram, d)
    ensures EndsStuck(ram, Put(f, d))
  {
    if d.Hung? {
      assert Put(f, d).funcs == [f] + d.funcs;
    }
  }

  /** The inductive step of ListFromEntries for an empty entry j. */
  lemma EntriesSkip(ram: seq<byte>, j: nat, fs: seq<Func>)
    requires |ram| == RAM_SIZE && j < TABLE_SIZE && ram[j] == NO_FUNCTION
    requires ListsEntries(ram, j + 1, fs) && CoversEntries(ram, j + 1, fs)
    ensures ListsEntries(ram, j, fs) && CoversEntries(ram, j, fs)
  {
    forall k | 0 <= k < |fs|
      ensures EntryListed(ram, j, fs[k])
    {
      assert EntryListed(ram, j + 1, fs[k]);
    }
  }

  /** The inductive step of ListFromEntries for a listed entry j. */
  lemma EntriesStep(ram: seq<byte>, j: nat, f: Func, fs: seq<Func>)
    requires |ram| == RAM_SIZE && j < TABLE_SIZE && ram[j] != NO_FUNCTION
    requires f.index == j && f.entry == ram[j] && FunctionListing(ram, ram[j]) == Shown(f.lines)
    requires ListsEntries(ram, j + 1, fs) && CoversEntries(ram, j + 1, fs)
    ensures ListsEntries(ram, j, [f] + fs) && CoversEntries(ram, j, [f] + fs)
  {
    ListsStep(ram, j, f, fs);
    CoversStep(ram, j, f, fs);
  }

  lemma ListsStep(ram: seq<byte>, j: nat, f: Func, fs: seq<Func>)
    requires |ram| == RAM_SIZE && j < TABLE_SIZE
    requires EntryListed(ram, j, f) && f.index == j
    requires ListsEntries(ram, j + 1, fs)
    ensures ListsEntries(ram, j, [f] + fs)
  {
    var gs := [f] + fs;
    forall k | 0 <= k < |gs|
      ensures EntryListed(ram, j, gs[k])
    {
      if k > 0 {
        assert gs[k] == fs[k - 1] && EntryListed(ram, j + 1, fs[k - 1]);
      }
    }
    forall k | 0 <= k < |gs| - 1
      ensures gs[k].index < gs[k + 1].index
    {
      if k > 0 {
        assert gs[k] == fs[k - 1] && gs[k + 1] == fs[k];
      } else if |fs| > 0 {
        assert EntryListed(ram, j + 1, fs[0]);
      }
    }
  }

  lemma CoversStep(ram: seq<byte>, j: nat, f: Func, fs: seq<Func>)
    requires |ram| == RAM_SIZE && j < TABLE_SIZE && f.index == j
    requires CoversEntries(ram, j + 1, fs)
    ensures CoversEntries(ram, j, [f] + fs)
  {
    var gs := [f] + fs;
    forall i | j <= i < TABLE_SIZE && ram[i] != NO_FUNCTION
      ensures exists k :: 0 <= k < |gs| && gs[k].index == i
    {
      if i == j {
        assert gs[0].index == i;
      } else {
        var k :| 0 <= k < |fs| && fs[k].index == i;
        assert gs[k + 1].index == i;
      }
    }
  }

  /** Two lines agree in shape: the same opcode with the same operand modes, and
      identical unless the opcode is MOV or REF. */
  predicate LineShape(l: Line, m: Line)
  {
    && l.op == m.op && |l.args| == |m.args|
    && (forall i :: 0 <= i < |l.args| ==> ModeOf(l.args[i]) == ModeOf(m.args[i]))
    && (l.op != MOV && l.op != REF ==> l == m)
  }

  /** Two listings agree in shape line by line. */
  predicate SameShape(ls: seq<Line>, ms: seq<Line>)
  {
    |ls| == |ms| && forall k :: 0 <= k < |ls| ==> LineShape(ls[k], ms[k])
  }

  /** After a walk of the semantic pass finishes, the disassembler lists the same
      function: the same instructions with the same modes; only MOV and REF values
      can show renamed ids. */
  lemma ResolvedListing(s: Resolving, p: nat)
    requires Valid(s) && p < RAM_SIZE
    ensures Walk(s, p).Finished? ==>
      var r, r' := FunctionListing(s.ram, p), FunctionListing(Walk(s, p).s.ram, p);
      r.Shown? && r'.Shown? && SameShape(r.lines, r'.lines)
  {
    if Walk(s, p).Finished? {
      WalkKeepsTrace(s, p);
      WalkKeeps(s, p);
      ListingEnds(s.ram, p);
      ListingKept(s.ram, Walk(s, p).s.ram, p);
    }
  }

  /** The induction behind ResolvedListing, on the memories before and after. */
  lemma {:induction false} ListingKept(R: seq<byte>, T: seq<byte>, p: nat)
    requires |R| == |T| == RAM_SIZE && p < RAM_SIZE
    requires KeptAlong(R, T, p) && FunctionListing(R, p).Shown?
    ensures FunctionListing(T, p).Shown?
    ensures SameShape(FunctionListing(R, p).lines, FunctionListing(T, p).lines)
    decreases RAM_SIZE - p
  {
    var op := R[p];
    LineKept(R, T, p);
    if op != RET {
      var q := p + Length(op);
      ListingKept(R, T, q);
      ShapeCons(Decoded(R, p), Decoded(T, p), FunctionListing(R, q).lines, FunctionListing(T, q).lines);
    }
  }

  /** One instruction whose bytes are kept but for MOV and REF values keeps its
      opcode and the shape of its line. */
  lemma LineKept(R: seq<byte>, T: seq<byte>, p: nat)
    requires |R| == |T| == RAM_SIZE && p < RAM_SIZE && R[p] <= 7 && p + Length(R[p]) <= RAM_SIZE
    requires KeptAt(R, T, p)
    ensures T[p] == R[p] && LineShape(Decoded(R, p), Decoded(T, p))
  {
    var op := R[p];
    assert T[p] == op;
    if op != RET {
      assert T[p + 1] == R[p + 1];
      assert op != MOV && op != REF ==> T[p + 2] == R[p + 2];
      if Arity(op) == 2 {
        assert T[p + 3] == R[p + 3];
        assert op != MOV && op != REF ==> T[p + 4] == R[p + 4];
      }
    }
  }

  lemma ShapeCons(l: Line, m: Line, ls: seq<Line>, ms: seq<Line>)
    requires LineShape(l, m) && SameShape(ls, ms)
    ensures SameShape([l] + ls, [m] + ms)
  {
    var a, b := [l] + ls, [m] + ms;
    forall k | 1 <= k < |a|
      ensures a[k] == ls[k - 1] && b[k] == ms[k - 1]
    {
    }
  }
}
